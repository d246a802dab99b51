/** `fillEmptyValues`: replaces `null` and `undefined` in server data so that
    every value can feed a controlled input. */
module FillEmptyValues {
  import opened JsonValues

  /** No `null` or `undefined` anywhere in `v`, `v` included. */
  predicate NoNullish(v: Json) {
    match v
    case Null => false
    case Undef => false
    case Arr(a) => forall i :: 0 <= i < |a| ==> NoNullish(a[i])
    case Obj(m) => forall k :: k in m ==> NoNullish(m[k])
    case _ => true
  }

  /** `f` is `v` with nullish values replaced by `""` or `{}`: the same key
      sets, the same array lengths and the same other scalars. */
  predicate SameShape(v: Json, f: Json) {
    match v
    case Null => f == Str("") || f == Obj(map[])
    case Undef => f == Str("") || f == Obj(map[])
    case Arr(a) =>
      f.Arr? && |f.items| == |a| && forall i :: 0 <= i < |a| ==> SameShape(a[i], f.items[i])
    case Obj(m) =>
      f.Obj? && f.fields.Keys == m.Keys && forall k :: k in m ==> SameShape(m[k], f.fields[k])
    case _ => f == v
  }

  /** `fillEmptyValues(d)`: a missing argument is an empty object; every
      entry of an object or array goes through `FillField`. */
  function Fill(d: Json): (r: Json)
    ensures NoNullish(r) && SameShape(d, r)
    ensures d.IsNullish() ==> r == Obj(map[])
    decreases d, 0
  {
    match d
    case Null => Obj(map[])
    case Undef => Obj(map[])
    case Obj(m) => Obj(map k | k in m :: FillField(m[k]))
    case Arr(a) => Arr(seq(|a|, i requires 0 <= i < |a| => FillField(a[i])))
    case _ => d
  }

  /** One entry of the clone: an object is filled, an array has every
      element filled by `Fill` itself (so a nullish element becomes `{}`),
      and a nullish entry becomes `""`. */
  function FillField(v: Json): (r: Json)
    ensures NoNullish(r) && SameShape(v, r)
    ensures v.IsNullish() ==> r == Str("")
    decreases v, 1
  {
    match v
    case Obj(_) => Fill(v)
    case Arr(a) => Arr(seq(|a|, i requires 0 <= i < |a| => Fill(a[i])))
    case Null => Str("")
    case Undef => Str("")
    case _ => v
  }

  /** Values without `null`/`undefined` are left as they are. */
  lemma {:induction false} FilledUnchanged(v: Json)
    requires NoNullish(v)
    ensures Fill(v) == v && FillField(v) == v
    decreases v
  {
    match v
    case Obj(m) =>
      forall k | k in m
        ensures FillField(m[k]) == m[k]
      {
        FilledUnchanged(m[k]);
      }
      assert (map k | k in m :: FillField(m[k])) == m;
    case Arr(a) =>
      forall i | 0 <= i < |a|
        ensures FillField(a[i]) == a[i] && Fill(a[i]) == a[i]
      {
        FilledUnchanged(a[i]);
      }
      assert seq(|a|, i requires 0 <= i < |a| => FillField(a[i])) == a;
      assert seq(|a|, i requires 0 <= i < |a| => Fill(a[i])) == a;
    case _ =>
  }

  /** Filling twice is filling once. */
  lemma FillIdempotent(d: Json)
    ensures Fill(Fill(d)) == Fill(d)
  {
    FilledUnchanged(Fill(d));
  }

  /** `fillEmptyValues`, as the source computes it: a clone whose entries a
      `for…in` loop overwrites one key at a time. */
  method FillEmptyValues(data: Json) returns (clone: Json)
    ensures clone == Fill(data)
    decreases data, 1
  {
    match data
    case Obj(m) =>
      clone := FillObject(data);
    case Arr(a) =>
      clone := FillArray(data);
    case Null =>
      clone := Obj(map[]);
    case Undef =>
      clone := Obj(map[]);
    case _ =>
      clone := data;
  }

  /** The `for…in` loop over the keys of an object. */
  method FillObject(data: Json) returns (clone: Json)
    requires data.Obj?
    ensures clone == Fill(data)
    decreases data, 0
  {
    var m := data.fields;
    var fields := m;
    var keys := m.Keys;
    while keys != {}
      invariant keys <= m.Keys && fields.Keys == m.Keys
      invariant forall k :: k in m && k !in keys ==> fields[k] == FillField(m[k])
      invariant forall k :: k in keys ==> fields[k] == m[k]
      decreases keys
    {
      var k :| k in keys;
      var w := FillEntry(fields[k]);
      fields := fields[k := w];
      keys := keys - {k};
    }
    FilledFields(m, fields);
    clone := Obj(fields);
  }

  /** An object whose every entry is filled is the filled object. */
  lemma FilledFields(m: map<string, Json>, fields: map<string, Json>)
    requires fields.Keys == m.Keys
    requires forall k :: k in m ==> fields[k] == FillField(m[k])
    ensures Obj(fields) == Fill(Obj(m))
  {
    var f := map k | k in m :: FillField(m[k]);
    assert f.Keys == fields.Keys;
    assert fields == f;
  }

  /** The `for…in` loop over the indices of an array. */
  method FillArray(data: Json) returns (clone: Json)
    requires data.Arr?
    ensures clone == Fill(data)
    decreases data, 0
  {
    var a := data.items;
    var items := a;
    for j := 0 to |a|
      invariant |items| == |a|
      invariant forall i :: 0 <= i < j ==> items[i] == FillField(a[i])
      invariant forall i :: j <= i < |a| ==> items[i] == a[i]
    {
      var w := FillEntry(items[j]);
      items := items[j := w];
    }
    clone := Arr(items);
  }

  /** The body of the loop for one entry. */
  method FillEntry(v: Json) returns (w: Json)
    ensures w == FillField(v)
    decreases v, 2
  {
    if v.Obj? {
      w := FillEmptyValues(v);
    } else if v.Arr? {
      var out := [];
      for j := 0 to |v.items|
        invariant |out| == j
        invariant forall i :: 0 <= i < j ==> out[i] == Fill(v.items[i])
      {
        var e := FillEmptyValues(v.items[j]);
        out := out + [e];
      }
      w := Arr(out);
    } else if v.IsNullish() {
      w := Str("");
    } else {
      w := v;
    }
  }
}
