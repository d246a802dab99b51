/** `renameObjectWithAttributes`: appends a suffix (`_attributes` by
    default) to the keys, below the top level, that hold objects or
    arrays, the naming Rails nested attributes expect. */
module RenameAttributes {
  import opened JsonValues

  /** The name a key gets: containers are renamed, scalars keep theirs. */
  function NewKey(m: map<string, Json>, s: string, k: string): string
    requires k in m
  {
    if m[k].IsContainer() then k + s else k
  }

  /** No container key of this object gets a new name the object already
      has. When one does, the source's result depends on key insertion
      order, which a map does not record. */
  predicate LevelSafe(m: map<string, Json>, s: string) {
    forall k :: k in m && m[k].IsContainer() && s != "" ==> k + s !in m
  }

  /** `LevelSafe` for this object and every object below it. */
  predicate Safe(v: Json, s: string) {
    match v
    case Obj(m) => LevelSafe(m, s) && forall k :: k in m && m[k].Obj? ==> Safe(m[k], s)
    case _ => true
  }

  lemma NewKeyInjective(m: map<string, Json>, s: string, k1: string, k2: string)
    requires LevelSafe(m, s) && k1 in m && k2 in m && NewKey(m, s, k1) == NewKey(m, s, k2)
    ensures k1 == k2
  {
    if m[k1].IsContainer() && m[k2].IsContainer() {
      assert (k1 + s)[..|k1|] == k1 && (k2 + s)[..|k2|] == k2;
    }
  }

  /** Where key `k` sits once the entries in `done` have been handled. */
  function Tag(m: map<string, Json>, s: string, done: set<string>, k: string): string
    requires k in m
  {
    if k in done then NewKey(m, s, k) else k
  }

  lemma TagInjective(m: map<string, Json>, s: string, done: set<string>, k1: string, k2: string)
    requires LevelSafe(m, s) && k1 in m && k2 in m && Tag(m, s, done, k1) == Tag(m, s, done, k2)
    ensures k1 == k2
  {
    if k1 in done && k2 in done {
      NewKeyInjective(m, s, k1, k2);
    }
  }

  /** `y` is what entry value `x` becomes: an object is processed
      recursively, an array or scalar is kept as it is. */
  predicate EntryAs(x: Json, y: Json, s: string)
    decreases x, 1
  {
    if x.Obj? then RenamedAs(x, y, s) else y == x
  }

  /** `r` is `recursiveAppendString` applied to object `v`: every key of `v`
      reappears under its new name holding its processed value, and `r`
      has no other key. */
  predicate RenamedAs(v: Json, r: Json, s: string)
    requires v.Obj?
    decreases v, 0
  {
    && r.Obj?
    && (forall k :: k in v.fields ==>
          NewKey(v.fields, s, k) in r.fields && EntryAs(v.fields[k], r.fields[NewKey(v.fields, s, k)], s))
    && (forall x :: x in r.fields ==> exists k :: k in v.fields && NewKey(v.fields, s, k) == x)
  }

  /** Every entry of `v` is safe to rename. */
  predicate SafeBelow(v: Json, s: string) {
    match v
    case Obj(m) => forall k :: k in m ==> Safe(m[k], s)
    case Arr(a) => forall i :: 0 <= i < |a| ==> Safe(a[i], s)
    case _ => true
  }

  /** `r` is `renameObjectWithAttributes(data, s)`: renaming starts one level
      down, in the plain-object values of the top level (the elements, for
      an array); `Object.values` of `null` or `undefined` throws. */
  predicate RenameObjectAs(data: Json, r: Result<Json>, s: string) {
    match data
    case Null => r == Err
    case Undef => r == Err
    case Obj(m) =>
      && r.Ok? && r.value.Obj? && r.value.fields.Keys == m.Keys
      && forall k :: k in m ==> EntryAs(m[k], r.value.fields[k], s)
    case Arr(a) =>
      && r.Ok? && r.value.Arr? && |r.value.items| == |a|
      && forall i :: 0 <= i < |a| ==> EntryAs(a[i], r.value.items[i], s)
    case _ => r == Ok(data)
  }

  // ---------------------------------------------------------------------
  // The source's procedure

  /** `renameKey(obj, source, target)`: moves the value to the new key and
      deletes the old one; a missing old key moves `undefined`. */
  function RenameKey(obj: map<string, Json>, source: string, target: string): map<string, Json> {
    if source == target then obj
    else obj[target := if source in obj then obj[source] else Undef] - {source}
  }

  /** Each entry of `m` sits at its place in `obj`: handled entries with
      their value in `e`, the others unchanged. */
  predicate Placement(m: map<string, Json>, obj: map<string, Json>, s: string, done: set<string>, e: map<string, Json>) {
    forall k :: k in m ==>
      && Tag(m, s, done, k) in obj
      && (k in done ==> k in e && obj[Tag(m, s, done, k)] == e[k])
      && (k !in done ==> obj[k] == m[k])
  }

  /** Every key of `obj` is the place of some entry of `m`. */
  predicate Covered(m: map<string, Json>, obj: map<string, Json>, s: string, done: set<string>) {
    forall x :: x in obj ==> exists k :: k in m && Tag(m, s, done, k) == x
  }

  /** `obj` is object `m` once the entries in `done` have been handled,
      each handled entry now holding its value in `e`. */
  predicate Placed(m: map<string, Json>, obj: map<string, Json>, s: string, done: set<string>, e: map<string, Json>) {
    Placement(m, obj, s, done, e) && Covered(m, obj, s, done)
  }

  /** Every handled entry's value in `e` is what the entry becomes. */
  predicate Handled(m: map<string, Json>, e: map<string, Json>, s: string) {
    forall k :: k in e && k in m ==> EntryAs(m[k], e[k], s)
  }

  lemma HandledStep(m: map<string, Json>, e: map<string, Json>, s: string, key: string, w: Json)
    requires Handled(m, e, s) && key in m && EntryAs(m[key], w, s)
    ensures Handled(m, e[key := w], s)
  {
    forall k | k in e[key := w] && k in m
      ensures EntryAs(m[k], e[key := w][k], s)
    {
      if k != key {
        assert e[key := w][k] == e[k];
      }
    }
  }

  /** The loop invariant of `recursiveAppendString`: the entries outside
      `todo` are handled, and on a safe object each sits at its place. */
  predicate Progress(m: map<string, Json>, obj: map<string, Json>, s: string, todo: set<string>, e: map<string, Json>) {
    && todo <= m.Keys && e.Keys == m.Keys - todo
    && (Safe(Obj(m), s) ==> Placed(m, obj, s, m.Keys - todo, e) && Handled(m, e, s))
  }

  /** `recursiveAppendString`: `Object.entries` is read once, then each
      entry is handled in turn, in no particular order here. */
  method RecursiveAppendString(m: map<string, Json>, s: string) returns (obj: map<string, Json>)
    ensures Safe(Obj(m), s) ==> RenamedAs(Obj(m), Obj(obj), s)
    decreases Obj(m)
  {
    obj := m;
    var todo := m.Keys;
    ghost var e: map<string, Json> := map[];
    ProgressStart(m, s);
    while todo != {}
      invariant Progress(m, obj, s, todo, e)
      decreases todo
    {
      var key :| key in todo;
      var value := m[key];
      ghost var before := obj;
      if value.Obj? {
        obj := RenameKey(obj, key, key + s);
        var inner := RecursiveAppendString(value.fields, s);
        obj := obj[key + s := Obj(inner)];
        ProgressObject(m, before, s, todo, e, key, Obj(inner));
        e := e[key := Obj(inner)];
      } else if value.Arr? {
        obj := RenameKey(obj, key, key + s);
        ProgressArray(m, before, s, todo, e, key);
        e := e[key := value];
      } else {
        ProgressScalar(m, obj, s, todo, e, key);
        e := e[key := value];
      }
      todo := todo - {key};
    }
    ProgressEnd(m, obj, s, e);
  }

  lemma DoneGrows(keys: set<string>, todo: set<string>, key: string)
    requires todo <= keys && key in todo
    ensures keys - (todo - {key}) == (keys - todo) + {key}
  {
  }

  lemma UpdateSame(obj: map<string, Json>, k: string, v: Json)
    requires k in obj && obj[k] == v
    ensures obj[k := v] == obj
  {
  }

  lemma ProgressStart(m: map<string, Json>, s: string)
    ensures Progress(m, m, s, m.Keys, map[])
  {
    assert m.Keys - m.Keys == {};
    forall k | k in m ensures Tag(m, s, {}, k) == k {
    }
  }

  lemma ProgressEnd(m: map<string, Json>, obj: map<string, Json>, s: string, e: map<string, Json>)
    requires Progress(m, obj, s, {}, e)
    ensures Safe(Obj(m), s) ==> RenamedAs(Obj(m), Obj(obj), s)
  {
    if Safe(Obj(m), s) {
      assert m.Keys - {} == m.Keys;
      Finish(m, obj, s, e);
    }
  }

  lemma ProgressObject(m: map<string, Json>, obj: map<string, Json>, s: string, todo: set<string>, e: map<string, Json>, key: string, w: Json)
    requires Progress(m, obj, s, todo, e) && key in todo && m[key].Obj?
    requires Safe(m[key], s) ==> RenamedAs(m[key], w, s)
    ensures Progress(m, RenameKey(obj, key, key + s)[key + s := w], s, todo - {key}, e[key := w])
  {
    if Safe(Obj(m), s) {
      var done := m.Keys - todo;
      DoneGrows(m.Keys, todo, key);
      ObjectStep(m, obj, s, done, e, key, w);
      assert Safe(m[key], s);
      HandledStep(m, e, s, key, w);
    }
  }

  lemma ProgressArray(m: map<string, Json>, obj: map<string, Json>, s: string, todo: set<string>, e: map<string, Json>, key: string)
    requires Progress(m, obj, s, todo, e) && key in todo && m[key].Arr?
    ensures Progress(m, RenameKey(obj, key, key + s), s, todo - {key}, e[key := m[key]])
  {
    if Safe(Obj(m), s) {
      var done := m.Keys - todo;
      DoneGrows(m.Keys, todo, key);
      ObjectStep(m, obj, s, done, e, key, m[key]);
      MovedValue(m, obj, s, done, e, key);
      UpdateSame(RenameKey(obj, key, key + s), key + s, m[key]);
      assert EntryAs(m[key], m[key], s);
      HandledStep(m, e, s, key, m[key]);
    }
  }

  lemma ProgressScalar(m: map<string, Json>, obj: map<string, Json>, s: string, todo: set<string>, e: map<string, Json>, key: string)
    requires Progress(m, obj, s, todo, e) && key in todo && !m[key].IsContainer()
    ensures Progress(m, obj, s, todo - {key}, e[key := m[key]])
  {
    if Safe(Obj(m), s) {
      var done := m.Keys - todo;
      DoneGrows(m.Keys, todo, key);
      ScalarStep(m, obj, s, done, e, key);
      assert EntryAs(m[key], m[key], s);
      HandledStep(m, e, s, key, m[key]);
    }
  }

  /** Once every entry is handled, the object is the renamed object. */
  lemma Finish(m: map<string, Json>, obj: map<string, Json>, s: string, e: map<string, Json>)
    requires Placed(m, obj, s, m.Keys, e) && Handled(m, e, s)
    ensures RenamedAs(Obj(m), Obj(obj), s)
  {
    forall k | k in m
      ensures NewKey(m, s, k) in obj && EntryAs(m[k], obj[NewKey(m, s, k)], s)
    {
      assert Tag(m, s, m.Keys, k) == NewKey(m, s, k);
    }
    forall x | x in obj
      ensures exists k :: k in m && NewKey(m, s, k) == x
    {
      var k :| k in m && Tag(m, s, m.Keys, k) == x;
      assert NewKey(m, s, k) == x;
    }
  }

  /** Handling `key` moves no other entry, and no other entry sits at
      `key` or at its new name. */
  lemma TagOther(m: map<string, Json>, s: string, done: set<string>, key: string, k: string)
    requires LevelSafe(m, s) && key in m && key !in done && m[key].IsContainer() && k in m && k != key
    ensures Tag(m, s, done + {key}, k) == Tag(m, s, done, k)
    ensures Tag(m, s, done, k) != key && Tag(m, s, done, k) != key + s
  {
    assert Tag(m, s, done, key) == key;
    if Tag(m, s, done, k) == key {
      TagInjective(m, s, done, k, key);
    }
    if Tag(m, s, done, k) == key + s {
      assert Tag(m, s, done + {key}, key) == key + s;
      TagInjective(m, s, done + {key}, k, key);
    }
  }

  /** Moving `key` to `t` and storing `w` there keeps every other entry. */
  lemma MoveKeeps(obj: map<string, Json>, key: string, t: string, w: Json, x: string)
    requires x in obj && x != key && x != t
    ensures x in RenameKey(obj, key, t)[t := w] && RenameKey(obj, key, t)[t := w][x] == obj[x]
  {
  }

  /** Moving an entry holding an object or array to its new key, with value
      `w`, hands that entry over and touches no other. */
  lemma ObjectStep(m: map<string, Json>, obj: map<string, Json>, s: string, done: set<string>, e: map<string, Json>, key: string, w: Json)
    requires LevelSafe(m, s) && Placed(m, obj, s, done, e)
    requires key in m && key !in done && m[key].IsContainer()
    ensures Placed(m, RenameKey(obj, key, key + s)[key + s := w], s, done + {key}, e[key := w])
  {
    MovedPlaced(m, obj, s, done, e, key, w);
    MovedCovered(m, obj, s, done, e, key, w);
  }

  /** The moved entry holds the value it held before. */
  lemma MovedValue(m: map<string, Json>, obj: map<string, Json>, s: string, done: set<string>, e: map<string, Json>, key: string)
    requires Placement(m, obj, s, done, e) && key in m && key !in done
    ensures key + s in RenameKey(obj, key, key + s) && RenameKey(obj, key, key + s)[key + s] == m[key]
  {
    assert Tag(m, s, done, key) == key;
  }

  lemma MovedPlaced(m: map<string, Json>, obj: map<string, Json>, s: string, done: set<string>, e: map<string, Json>, key: string, w: Json)
    requires LevelSafe(m, s) && Placed(m, obj, s, done, e)
    requires key in m && key !in done && m[key].IsContainer()
    ensures Placement(m, RenameKey(obj, key, key + s)[key + s := w], s, done + {key}, e[key := w])
  {
    var t := key + s;
    var after := RenameKey(obj, key, t)[t := w];
    assert Tag(m, s, done + {key}, key) == t;
    forall k | k in m
      ensures Tag(m, s, done + {key}, k) in after
      ensures k in done + {key} ==> k in e[key := w] && after[Tag(m, s, done + {key}, k)] == e[key := w][k]
      ensures k !in done + {key} ==> after[k] == m[k]
    {
      if k != key {
        TagOther(m, s, done, key, k);
        MoveKeeps(obj, key, t, w, Tag(m, s, done, k));
      }
    }
  }

  lemma MovedCovered(m: map<string, Json>, obj: map<string, Json>, s: string, done: set<string>, e: map<string, Json>, key: string, w: Json)
    requires LevelSafe(m, s) && Placed(m, obj, s, done, e)
    requires key in m && key !in done && m[key].IsContainer()
    ensures Covered(m, RenameKey(obj, key, key + s)[key + s := w], s, done + {key})
  {
    var after := RenameKey(obj, key, key + s)[key + s := w];
    forall x | x in after
      ensures exists k :: k in m && Tag(m, s, done + {key}, k) == x
    {
      var k := MovedFrom(m, obj, s, done, e, key, w, x);
    }
  }

  /** Every key after the move is the place of some entry. */
  lemma MovedFrom(m: map<string, Json>, obj: map<string, Json>, s: string, done: set<string>, e: map<string, Json>, key: string, w: Json, x: string)
    returns (k: string)
    requires LevelSafe(m, s) && Placed(m, obj, s, done, e)
    requires key in m && key !in done && m[key].IsContainer()
    requires x in RenameKey(obj, key, key + s)[key + s := w]
    ensures k in m && Tag(m, s, done + {key}, k) == x
  {
    if x == key + s {
      k := key;
    } else {
      assert x in obj;
      k :| k in m && Tag(m, s, done, k) == x;
      if k != key {
        TagOther(m, s, done, key, k);
      }
    }
  }

  /** Handling an entry that holds a scalar changes nothing. */
  lemma ScalarStep(m: map<string, Json>, obj: map<string, Json>, s: string, done: set<string>, e: map<string, Json>, key: string)
    requires Placed(m, obj, s, done, e) && key in m && key !in done && !m[key].IsContainer()
    ensures Placed(m, obj, s, done + {key}, e[key := m[key]])
  {
    ScalarTags(m, s, done, key);
    ScalarPlacement(m, obj, s, done, e, key);
    ScalarCovered(m, obj, s, done, key);
  }

  /** A scalar keeps its key, so handling it moves no tag. */
  lemma ScalarTags(m: map<string, Json>, s: string, done: set<string>, key: string)
    requires key in m && !m[key].IsContainer()
    ensures forall k :: k in m ==> Tag(m, s, done + {key}, k) == Tag(m, s, done, k)
  {
  }

  lemma ScalarPlacement(m: map<string, Json>, obj: map<string, Json>, s: string, done: set<string>, e: map<string, Json>, key: string)
    requires Placement(m, obj, s, done, e) && key in m && key !in done
    requires forall k :: k in m ==> Tag(m, s, done + {key}, k) == Tag(m, s, done, k)
    ensures Placement(m, obj, s, done + {key}, e[key := m[key]])
  {
  }

  lemma ScalarCovered(m: map<string, Json>, obj: map<string, Json>, s: string, done: set<string>, key: string)
    requires Covered(m, obj, s, done)
    requires forall k :: k in m ==> Tag(m, s, done + {key}, k) == Tag(m, s, done, k)
    ensures Covered(m, obj, s, done + {key})
  {
    forall x | x in obj
      ensures exists k :: k in m && Tag(m, s, done + {key}, k) == x
    {
      var k :| k in m && Tag(m, s, done, k) == x;
      assert Tag(m, s, done + {key}, k) == x;
    }
  }

  /** `renameObjectWithAttributes`, as the source computes it on a clone. */
  method RenameObjectWithAttributes(data: Json, s: string) returns (r: Result<Json>)
    ensures data.IsNullish() ==> r == Err
    ensures SafeBelow(data, s) ==> RenameObjectAs(data, r, s)
  {
    match data {
      case Null => return Err;
      case Undef => return Err;
      case Obj(m) =>
        var clone := m;
        var todo := m.Keys;
        while todo != {}
          invariant todo <= m.Keys && clone.Keys == m.Keys
          invariant forall k :: k in todo ==> clone[k] == m[k]
          invariant SafeBelow(data, s) ==> forall k :: k in m && k !in todo ==>
            EntryAs(m[k], clone[k], s)
          decreases todo
        {
          var key :| key in todo;
          if clone[key].Obj? {
            var inner := RecursiveAppendString(clone[key].fields, s);
            clone := clone[key := Obj(inner)];
          }
          todo := todo - {key};
        }
        return Ok(Obj(clone));
      case Arr(a) =>
        var clone := a;
        for i := 0 to |a|
          invariant |clone| == |a|
          invariant forall j :: i <= j < |a| ==> clone[j] == a[j]
          invariant SafeBelow(data, s) ==> forall j :: 0 <= j < i ==>
            EntryAs(a[j], clone[j], s)
        {
          if clone[i].Obj? {
            var inner := RecursiveAppendString(clone[i].fields, s);
            clone := clone[i := Obj(inner)];
          }
        }
        return Ok(Arr(clone));
      case _ => return Ok(data);
    }
  }

  // ---------------------------------------------------------------------
  // Properties

  /** On objects without clashing names the result is determined: two
      results of renaming the same object are equal. */
  lemma {:induction false} RenamedUnique(v: Json, r1: Json, r2: Json, s: string)
    requires v.Obj? && Safe(v, s) && RenamedAs(v, r1, s) && RenamedAs(v, r2, s)
    ensures r1 == r2
    decreases v
  {
    var m := v.fields;
    forall x | x in r1.fields ensures x in r2.fields && r1.fields[x] == r2.fields[x] {
      var k :| k in m && NewKey(m, s, k) == x;
      if m[k].Obj? {
        RenamedUnique(m[k], r1.fields[x], r2.fields[x], s);
      }
    }
    forall x | x in r2.fields ensures x in r1.fields {
      var k :| k in m && NewKey(m, s, k) == x;
    }
    assert r1.fields == r2.fields;
  }

  /** With an empty suffix nothing is renamed: the result equals the input. */
  lemma {:induction false} EmptySuffixIdentity(v: Json, r: Json)
    requires v.Obj? && RenamedAs(v, r, "")
    ensures r == v
    decreases v
  {
    var m := v.fields;
    forall k | k in m ensures NewKey(m, "", k) == k {
      assert k + "" == k;
    }
    forall x | x in r.fields ensures x in m && r.fields[x] == m[x] {
      var k :| k in m && NewKey(m, "", k) == x;
      if m[k].Obj? {
        EmptySuffixIdentity(m[k], r.fields[x]);
      }
    }
    assert r.fields == m;
  }

  lemma {:induction false} ImageCount(m: map<string, Json>, s: string, ks: set<string>)
    requires LevelSafe(m, s) && ks <= m.Keys
    ensures |set k | k in ks :: NewKey(m, s, k)| == |ks|
    decreases ks
  {
    if ks != {} {
      var x :| x in ks;
      var rest := ks - {x};
      ImageCount(m, s, rest);
      var img := set k | k in ks :: NewKey(m, s, k);
      var imgRest := set k | k in rest :: NewKey(m, s, k);
      assert img == imgRest + {NewKey(m, s, x)};
      if NewKey(m, s, x) in imgRest {
        var y :| y in rest && NewKey(m, s, y) == NewKey(m, s, x);
        NewKeyInjective(m, s, x, y);
      }
    }
  }

  /** Renaming keeps the number of keys of an object whose new names do not
      clash. */
  lemma RenamedKeyCount(v: Json, r: Json, s: string)
    requires v.Obj? && LevelSafe(v.fields, s) && RenamedAs(v, r, s)
    ensures |r.fields| == |v.fields|
  {
    var m := v.fields;
    var img := set k | k in m :: NewKey(m, s, k);
    assert r.fields.Keys == img;
    ImageCount(m, s, m.Keys);
    assert |r.fields| == |r.fields.Keys|;
    assert |m| == |m.Keys|;
  }
}
