/** The older `unsetCompact` and `fillEmptyValues` of `src/utils.ts`. */
module LegacyUtils {
  import opened JsonValues
  import opened Paths
  import opened Tree
  import opened UnsetCompact
  import opened FillEmptyValues

  /** There is an array at `q`, so `forEach` exists there. */
  predicate ArrayAt(t: Json, q: Path) {
    Lookup(t, q).Some? && Lookup(t, q).value.Arr?
  }

  /** Every prefix of `p` that ends just before a bracket holds an array. */
  predicate BracketPrefixesAreArrays(t: Json, p: Path) {
    forall n :: 0 <= n < |p| && p[n].IsBracket() ==> ArrayAt(t, p[..n])
  }

  /** The tree after lodash `unset(t, p)`, leaving aside the hole a deleted
      array element leaves (the hole is compacted away later). */
  function UnsetKey(t: Json, p: Path): Json {
    if p != [] && p[|p| - 1].Key? then RemoveKey(t, p[..|p| - 1], p[|p| - 1].name) else t
  }

  /** The older `unsetCompact(t, p)`: unset, then for every `[` in the path
      copy the array before it without holes; `Err` when one of them is not
      an array and `forEach` throws. */
  function LegacyUnsetCompact(t: Json, p: Path): Result<Json> {
    if p == [] then Ok(t)
    else
      var t1 := UnsetKey(t, p);
      if BracketPrefixesAreArrays(t1, p) then
        Ok(if p[|p| - 1].Index? then SpliceAt(t, p[..|p| - 1], p[|p| - 1].i) else t1)
      else Err
  }

  /** The older `unsetCompact`, as the source computes it. The data is
      passed and returned by value. */
  method UnsetCompactLegacy(data: Json, path: Path) returns (r: Result<Json>)
    ensures r == LegacyUnsetCompact(data, path)
  {
    if path == [] {
      return Ok(data);
    }
    var parent := path[..|path| - 1];
    var t, hole := Unset(data, path);
    ghost var t1 := t;
    ghost var expected := if path[|path| - 1].Index? then SpliceAt(data, parent, path[|path| - 1].i) else t1;
    var position := 0;
    while position < |path|
      invariant position <= |path|
      invariant forall n :: 0 <= n < position && path[n].IsBracket() ==> ArrayAt(t1, path[..n])
      invariant position < |path| ==> t == t1
      invariant position == |path| ==> t == expected
      invariant hole.Some? ==> path[|path| - 1] == Index(hole.value) && hole.value < ArrLen(data, parent)
      invariant hole.None? && path[|path| - 1].Index? ==> path[|path| - 1].i >= ArrLen(data, parent)
    {
      if path[position].IsBracket() {
        var arrPath := path[..position];
        var arr := Lookup(t, arrPath);
        if !(arr.Some? && arr.value.Arr?) {
          return Err;
        }
        var a := arr.value.items;
        var skip := if position == |path| - 1 then hole else None;
        var compacted := CopyPresent(a, skip);
        ExistingSettable(t, arrPath);
        if skip.None? {
          SetSame(t, arrPath);
        }
        t := Set(t, arrPath, Arr(compacted));
      }
      position := position + 1;
    }
    return Ok(t);
  }

  /** lodash `unset(data, path)`: a key is deleted; an element of an
      array becomes a hole, returned as `hole` beside the tree. */
  method Unset(data: Json, path: Path) returns (t: Json, hole: Option<nat>)
    requires path != []
    ensures t == UnsetKey(data, path)
    ensures hole.Some? ==> path[|path| - 1] == Index(hole.value) && hole.value < ArrLen(data, path[..|path| - 1])
    ensures hole.None? && path[|path| - 1].Index? ==> path[|path| - 1].i >= ArrLen(data, path[..|path| - 1])
  {
    t, hole := data, None;
    match path[|path| - 1] {
      case Key(k) =>
        t := RemoveKey(data, path[..|path| - 1], k);
      case Index(i) =>
        if i < ArrLen(data, path[..|path| - 1]) {
          hole := Some(i);
        }
      case Wildcard =>
    }
  }

  /** `arr.forEach(a => compacted.push(a))`: a copy of the array that
      passes over the hole at `skip`, if there is one. */
  method CopyPresent(a: seq<Json>, skip: Option<nat>) returns (compacted: seq<Json>)
    ensures skip.Some? && skip.value < |a| ==> compacted == a[..skip.value] + a[skip.value + 1..]
    ensures !(skip.Some? && skip.value < |a|) ==> compacted == a
  {
    compacted := [];
    for j := 0 to |a|
      invariant compacted == if skip.Some? && skip.value < j then a[..skip.value] + a[skip.value + 1..j] else a[..j]
    {
      if skip != Some(j) {
        compacted := compacted + [a[j]];
      }
    }
    assert a[..|a|] == a;
    if skip.Some? && skip.value < |a| {
      assert a[skip.value + 1..|a|] == a[skip.value + 1..];
    }
  }

  /** The unset of a key leaves every bracket prefix an array or not as it
      was. */
  lemma UnsetKeyKeepsPrefixes(t: Json, p: Path)
    requires p != []
    ensures BracketPrefixesAreArrays(UnsetKey(t, p), p) == BracketPrefixesAreArrays(t, p)
  {
    var parent := p[..|p| - 1];
    if p[|p| - 1].Key? && Get(t, parent).Some? && Get(t, parent).value.Obj? {
      var k := p[|p| - 1].name;
      forall n | 0 <= n < |p| && p[n].IsBracket()
        ensures ArrayAt(UnsetKey(t, p), p[..n]) == ArrayAt(t, p[..n])
      {
        if n > 0 {
          var q := p[..n];
          var r := p[n..|p| - 1];
          assert q + r == parent;
          SetBelowKeepsKind(t, q, r, Obj(Get(t, parent).value.fields - {k}));
        }
      }
    }
  }

  /** The older version throws exactly when some prefix before a `[` of the
      path does not hold an array. */
  lemma LegacyThrows(t: Json, p: Path)
    requires p != []
    ensures LegacyUnsetCompact(t, p).Err? <==> !BracketPrefixesAreArrays(t, p)
  {
    UnsetKeyKeepsPrefixes(t, p);
  }

  /** Where it does not throw, and the path has no `[]` and no empty key
      before a bracket, the older version leaves the same tree as the newer
      one. */
  lemma LegacyAgrees(t: Json, p: Path)
    requires !HasWildcard(p) && Clean(p) && BracketPrefixesAreArrays(t, p)
    ensures LegacyUnsetCompact(t, p) == Ok(Compacted(t, p))
  {
    var B := BoundOf(t);
    CompactedIs(t, p, B);
    if p != [] {
      var q := p[..|p| - 1];
      assert Clean(q) by {
        assert forall i :: 0 <= i < |q| ==> q[i] == p[i];
      }
      ResolveClean(q);
      UnsetKeyKeepsPrefixes(t, p);
    }
  }

  // ---------------------------------------------------------------------
  // fillEmptyValues, older version

  /** The older `fillEmptyValues(d)`: entries of objects are filled, arrays
      are copied without being looked into, and a missing argument is
      returned as it is. */
  function LegacyFill(d: Json): (r: Json)
    ensures d.Obj? ==> r.Obj? && r.fields.Keys == d.fields.Keys
    ensures d.Obj? ==> forall k :: k in d.fields ==> !r.fields[k].IsNullish()
    ensures d.Obj? ==> forall k :: k in d.fields && d.fields[k].Arr? ==> r.fields[k] == d.fields[k]
    decreases d, 0
  {
    match d
    case Obj(m) => Obj(map k | k in m :: LegacyField(m[k]))
    case Arr(a) => Arr(seq(|a|, i requires 0 <= i < |a| => LegacyField(a[i])))
    case _ => d
  }

  /** One entry: a plain object is filled, a nullish entry becomes `""`,
      anything else (arrays included) is kept. */
  function LegacyField(v: Json): (r: Json)
    ensures !r.IsNullish()
    ensures v.Arr? ==> r == v
    decreases v, 1
  {
    match v
    case Obj(_) => LegacyFill(v)
    case Null => Str("")
    case Undef => Str("")
    case _ => v
  }

  /** No array anywhere in `v`. */
  predicate ArrayFree(v: Json) {
    match v
    case Arr(_) => false
    case Obj(m) => forall k :: k in m ==> ArrayFree(m[k])
    case _ => true
  }

  /** On data without arrays both versions agree, except that the newer one
      turns a missing argument into `{}`. */
  lemma {:induction false} LegacyFillAgrees(v: Json)
    requires ArrayFree(v)
    ensures !v.IsNullish() ==> LegacyFill(v) == Fill(v)
    ensures LegacyField(v) == FillField(v)
    decreases v
  {
    match v
    case Obj(m) =>
      forall k | k in m
        ensures LegacyField(m[k]) == FillField(m[k])
      {
        LegacyFillAgrees(m[k]);
      }
      assert (map k | k in m :: LegacyField(m[k])) == (map k | k in m :: FillField(m[k]));
    case _ =>
  }

  /** The older `fillEmptyValues`, as the source computes it: a `for…in`
      loop over the keys of a deep clone. */
  method FillEmptyValuesLegacy(data: Json) returns (clone: Json)
    ensures clone == LegacyFill(data)
    decreases data
  {
    match data
    case Obj(m) =>
      var fields := m;
      var keys := m.Keys;
      while keys != {}
        invariant keys <= m.Keys && fields.Keys == m.Keys
        invariant forall k :: k in m && k !in keys ==> fields[k] == LegacyField(m[k])
        invariant forall k :: k in keys ==> fields[k] == m[k]
        decreases keys
      {
        var k :| k in keys;
        var v := fields[k];
        if v.Obj? {
          v := FillEmptyValuesLegacy(v);
        } else if v.IsNullish() {
          v := Str("");
        }
        fields := fields[k := v];
        keys := keys - {k};
      }
      clone := Obj(fields);
    case Arr(a) =>
      var items := a;
      for j := 0 to |a|
        invariant |items| == |a|
        invariant forall i :: 0 <= i < j ==> items[i] == LegacyField(a[i])
        invariant forall i :: j <= i < |a| ==> items[i] == a[i]
      {
        var v := items[j];
        if v.Obj? {
          v := FillEmptyValuesLegacy(v);
        } else if v.IsNullish() {
          v := Str("");
        }
        items := items[j := v];
      }
      clone := Arr(items);
    case _ =>
      clone := data;
  }
}
