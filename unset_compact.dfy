/** `unsetCompact`: removal at a path that splices array elements out
    instead of leaving holes, and reads `[]` as "every element". */
module UnsetCompact {
  import opened JsonValues
  import opened Paths
  import opened Tree

  /** The path with one trailing `[]` dropped. */
  function Sanitize(p: Path): Path {
    if p != [] && p[|p| - 1] == Wildcard then p[..|p| - 1] else p
  }

  /** `arr.splice(n, 1)` on the array lodash `get` finds at `parent`. */
  function SpliceAt(t: Json, parent: Path, n: nat): Json {
    match Lookup(t, parent)
    case Some(Arr(a)) => if n < |a| then Set(t, parent, Arr(a[..n] + a[n + 1..])) else t
    case _ => t
  }

  /** lodash `unset` of the key `k` of the object at `parent`. */
  function RemoveKey(t: Json, parent: Path, k: string): Json {
    match Get(t, parent)
    case Some(Obj(m)) => Set(t, parent, Obj(m - {k}))
    case _ => t
  }

  /** The removal a sanitized path ends with: a splice when it ends in a
      bracket, an unset when it ends in a key. The parent is the text before
      the last token, read by lodash. A final `[]` holds no digits and reads
      as index `Number("")`, that is 0. */
  function RemoveLast(t: Json, s: Path): Json {
    if s == [] then t
    else
      var parent := Resolve(s[..|s| - 1]);
      match s[|s| - 1]
      case Key(k) => RemoveKey(t, parent, k)
      case Index(i) => SpliceAt(t, parent, i)
      case Wildcard => SpliceAt(t, parent, 0)
  }

  lemma SanitizeCount(p: Path)
    ensures WildcardCount(Sanitize(p)) <= WildcardCount(p)
  {
    if p != [] && p[|p| - 1] == Wildcard {
      assert p == p[..|p| - 1] + [Wildcard];
      WildcardCountAppend(p[..|p| - 1], [Wildcard]);
    }
  }

  lemma SplitAtWildcard(s: Path, w: nat)
    requires w < |s| && s[w] == Wildcard && !HasWildcard(s[..w])
    ensures WildcardCount(s) == WildcardCount(s[w + 1..]) + 1
  {
    assert s == s[..w] + ([Wildcard] + s[w + 1..]);
    WildcardCountAppend(s[..w], [Wildcard] + s[w + 1..]);
    WildcardCountAppend([Wildcard], s[w + 1..]);
    WildcardCountZero(s[..w]);
  }

  lemma ElementPathCount(start: Path, i: nat, rest: Path)
    requires !HasWildcard(start)
    ensures WildcardCount(start + [Index(i)] + rest) == WildcardCount(rest)
    ensures !HasWildcard(start + [Index(i)])
  {
    WildcardCountAppend(start, [Index(i)]);
    WildcardCountAppend(start + [Index(i)], rest);
    WildcardCountZero(start);
  }

  lemma BoundedRemoveKey(t: Json, parent: Path, k: string, B: nat)
    requires Bounded(t, B)
    ensures Bounded(RemoveKey(t, parent, k), B)
  {
    if Get(t, parent).Some? && Get(t, parent).value.Obj? {
      BoundedGet(t, parent, B);
      BoundedSet(t, parent, Obj(Get(t, parent).value.fields - {k}), B);
    }
  }

  lemma BoundedSpliceAt(t: Json, parent: Path, n: nat, B: nat)
    requires Bounded(t, B)
    ensures Bounded(SpliceAt(t, parent, n), B)
  {
    if Lookup(t, parent).Some? && Lookup(t, parent).value.Arr? {
      var a := Lookup(t, parent).value.items;
      if n < |a| {
        BoundedGet(t, parent, B);
        var b := a[..n] + a[n + 1..];
        assert forall j :: 0 <= j < |b| ==> b[j] == a[if j < n then j else j + 1];
        BoundedSet(t, parent, Arr(b), B);
      }
    }
  }

  lemma BoundedRemoveLast(t: Json, s: Path, B: nat)
    requires Bounded(t, B)
    ensures Bounded(RemoveLast(t, s), B)
  {
    if s != [] {
      var parent := Resolve(s[..|s| - 1]);
      match s[|s| - 1]
      case Key(k) => BoundedRemoveKey(t, parent, k, B);
      case Index(i) => BoundedSpliceAt(t, parent, i, B);
      case Wildcard => BoundedSpliceAt(t, parent, 0, B);
    }
  }

  // ---------------------------------------------------------------------
  // The removal as a function of the tree before it

  /** The tree after `unsetCompact(t, p)`, for the tokens `p` as written
      (`RawParse`). `B` bounds every array length, so the loop over the
      elements of a `[]` array ends. */
  function CompactedWithin(t: Json, p: Path, ghost B: nat): (r: Json)
    requires Bounded(t, B)
    ensures Bounded(r, B)
    decreases WildcardCount(p), 1, 0
  {
    var s := Sanitize(p);
    SanitizeCount(p);
    var t1 :=
      if HasWildcard(s) then
        var w := FirstWildcard(s);
        SplitAtWildcard(s, w);
        EachElement(t, s[..w], s[w + 1..], 0, B)
      else t;
    BoundedRemoveLast(t1, s, B);
    RemoveLast(t1, s)
  }

  /** The `for` loop over the array lodash finds at the text `start`
      spells: element `i`, `i + 1`, ... while `i` is below the array's
      current length. */
  function EachElement(t: Json, start: Path, rest: Path, i: nat, ghost B: nat): (r: Json)
    requires Bounded(t, B) && !HasWildcard(start)
    ensures Bounded(r, B)
    decreases WildcardCount(rest) + 1, 0, B - i
  {
    if i < ArrLen(t, Resolve(start)) then
      ArrLenBounded(t, Resolve(start), B);
      ElementPathCount(start, i, rest);
      EachElement(CompactedWithin(t, start + [Index(i)] + rest, B), start, rest, i + 1, B)
    else t
  }

  lemma {:induction false} WithinIndependent(t: Json, p: Path, B1: nat, B2: nat)
    requires Bounded(t, B1) && Bounded(t, B2)
    ensures CompactedWithin(t, p, B1) == CompactedWithin(t, p, B2)
    decreases WildcardCount(p), 1, 0
  {
    var s := Sanitize(p);
    SanitizeCount(p);
    if HasWildcard(s) {
      var w := FirstWildcard(s);
      SplitAtWildcard(s, w);
      EachIndependent(t, s[..w], s[w + 1..], 0, B1, B2);
    }
  }

  lemma {:induction false} EachIndependent(t: Json, start: Path, rest: Path, i: nat, B1: nat, B2: nat)
    requires Bounded(t, B1) && Bounded(t, B2) && !HasWildcard(start)
    ensures EachElement(t, start, rest, i, B1) == EachElement(t, start, rest, i, B2)
    decreases WildcardCount(rest) + 1, 0, B1 - i
  {
    if i < ArrLen(t, Resolve(start)) {
      ArrLenBounded(t, Resolve(start), B1);
      ElementPathCount(start, i, rest);
      var q := start + [Index(i)] + rest;
      WithinIndependent(t, q, B1, B2);
      EachIndependent(CompactedWithin(t, q, B1), start, rest, i + 1, B1, B2);
    }
  }

  lemma BoundExists(t: Json)
    ensures exists B: nat :: Bounded(t, B)
  {
    var B := BoundOf(t);
  }

  /** `unsetCompact(t, p)`: the tree it leaves behind. */
  ghost function Compacted(t: Json, p: Path): Json {
    BoundExists(t);
    var B: nat :| Bounded(t, B);
    CompactedWithin(t, p, B)
  }

  lemma CompactedIs(t: Json, p: Path, B: nat)
    requires Bounded(t, B)
    ensures Compacted(t, p) == CompactedWithin(t, p, B)
  {
    BoundExists(t);
    var B': nat :| Bounded(t, B') && Compacted(t, p) == CompactedWithin(t, p, B');
    WithinIndependent(t, p, B, B');
  }

  /** The data object `unsetCompact` mutates. */
  class Document {
    var root: Json

    constructor (t: Json)
      ensures root == t
    {
      root := t;
    }

    /** Removes what `path` addresses, in place. */
    method UnsetCompact(path: Path)
      modifies this
      ensures root == Compacted(old(root), path)
      decreases WildcardCount(path)
    {
      ghost var t0 := root;
      ghost var B := BoundOf(root);
      var s := Sanitize(path);
      SanitizeCount(path);
      if HasWildcard(s) {
        var w := FirstWildcard(s);
        var start := s[..w];
        var rest := s[w + 1..];
        SplitAtWildcard(s, w);
        var i := 0;
        while i < ArrLen(root, Resolve(start))
          invariant Bounded(root, B)
          invariant EachElement(root, start, rest, i, B) == EachElement(t0, start, rest, 0, B)
          decreases B - i
        {
          ArrLenBounded(root, Resolve(start), B);
          ElementPathCount(start, i, rest);
          ghost var before := root;
          UnsetCompact(start + [Index(i)] + rest);
          CompactedIs(before, start + [Index(i)] + rest, B);
          i := i + 1;
        }
      }
      root := RemoveLast(root, s);
      CompactedIs(t0, path, B);
    }
  }

  // ---------------------------------------------------------------------
  // Locality: a removal below a node rebuilds only that node

  lemma SanitizeAppend(q: Path, r: Path)
    requires r != [] && r != [Wildcard]
    ensures Sanitize(q + r) == q + Sanitize(r) && Sanitize(r) != []
  {
    assert (q + r)[|q + r| - 1] == r[|r| - 1];
    assert |r| == 1 ==> r == [r[|r| - 1]];
    if r[|r| - 1] == Wildcard {
      assert (q + r)[..|q + r| - 1] == q + r[..|r| - 1];
    }
  }

  lemma WildcardAfter(q: Path, r: Path, w: nat)
    requires !HasWildcard(q) && w < |q + r| && (q + r)[w] == Wildcard
    ensures w >= |q| && (q + r)[..w] == q + r[..w - |q|]
  {
    if w < |q| {
      assert false;
    }
  }

  /** A write at or below an existing node `q`, made after rebuilding that
      node to `x1`, is one rebuild of `q`. */
  lemma SetBelowLocal(t: Json, q: Path, x1: Json, r0: Path, v: Json)
    requires q != [] && Get(t, q).Some?
    ensures Set(Set(t, q, x1), q + r0, v) == Set(t, q, SetInto(x1, r0, v))
  {
    ExistingSettable(t, q);
    GetSet(t, q, x1);
    SetAppend(Set(t, q, x1), q, r0, v);
    SetTwice(t, q, x1, SetInto(x1, r0, v));
  }

  lemma LastSplit(q: Path, r: Path)
    requires r != []
    ensures q + r != [] && (q + r)[..|q + r| - 1] == q + r[..|r| - 1] && (q + r)[|q + r| - 1] == r[|r| - 1]
  {
    assert (q + r)[..|q + r| - 1] == q + r[..|r| - 1];
  }

  lemma RemoveKeyLocal(t: Json, q: Path, x1: Json, r0: Path, k: string) returns (x: Json)
    requires q != [] && Get(t, q).Some?
    ensures RemoveKey(Set(t, q, x1), q + r0, k) == Set(t, q, x)
  {
    match Get(Set(t, q, x1), q + r0)
    case Some(Obj(m)) =>
      SetBelowLocal(t, q, x1, r0, Obj(m - {k}));
      x := SetInto(x1, r0, Obj(m - {k}));
    case _ =>
      x := x1;
  }

  lemma SpliceLocal(t: Json, q: Path, x1: Json, r0: Path, n: nat) returns (x: Json)
    requires q != [] && Get(t, q).Some?
    ensures SpliceAt(Set(t, q, x1), q + r0, n) == Set(t, q, x)
  {
    assert q + r0 != [];
    match Get(Set(t, q, x1), q + r0)
    case Some(Arr(a)) =>
      if n < |a| {
        SetBelowLocal(t, q, x1, r0, Arr(a[..n] + a[n + 1..]));
        x := SetInto(x1, r0, Arr(a[..n] + a[n + 1..]));
      } else {
        x := x1;
      }
    case _ =>
      x := x1;
  }

  lemma RemoveLastLocal(t: Json, q: Path, x1: Json, r: Path) returns (x: Json)
    requires Anchored(q) && Get(t, Resolve(q)).Some? && r != []
    ensures RemoveLast(Set(t, Resolve(q), x1), q + r) == Set(t, Resolve(q), x)
  {
    LastSplit(q, r);
    ResolveLast(q);
    var r0 := r[..|r| - 1];
    ResolveAppend(q, r0);
    var Q, R0 := Resolve(q), Resolve(r0);
    match r[|r| - 1] {
      case Key(k) => x := RemoveKeyLocal(t, Q, x1, R0, k);
      case Index(i) => x := SpliceLocal(t, Q, x1, R0, i);
      case Wildcard => x := SpliceLocal(t, Q, x1, R0, 0);
    }
  }

  /** Removing `q + r` for a non-empty `r` (other than a bare `[]`) only
      rebuilds the node lodash finds at `q`. */
  lemma {:induction false} WithinLocal(t: Json, q: Path, r: Path, B: nat) returns (x: Json)
    requires Bounded(t, B) && Anchored(q) && !HasWildcard(q) && Get(t, Resolve(q)).Some?
    requires r != [] && r != [Wildcard]
    ensures CompactedWithin(t, q + r, B) == Set(t, Resolve(q), x)
    decreases WildcardCount(q + r), 2, 0
  {
    var s := Sanitize(q + r);
    SanitizeAppend(q, r);
    if HasWildcard(s) {
      x := WithinLocalEach(t, q, r, B);
    } else {
      x := WithinLocalPlain(t, q, r, B);
    }
  }

  /** One step of `CompactedWithin` on a path with a `[]` before its end. */
  lemma WithinUnfold(t: Json, p: Path, B: nat)
    requires Bounded(t, B) && HasWildcard(Sanitize(p))
    ensures var s := Sanitize(p);
      var w := FirstWildcard(s);
      CompactedWithin(t, p, B) == RemoveLast(EachElement(t, s[..w], s[w + 1..], 0, B), s)
  {
  }

  lemma WithinLocalPlain(t: Json, q: Path, r: Path, B: nat) returns (x: Json)
    requires Bounded(t, B) && Anchored(q) && Get(t, Resolve(q)).Some?
    requires r != [] && r != [Wildcard] && !HasWildcard(Sanitize(q + r))
    ensures CompactedWithin(t, q + r, B) == Set(t, Resolve(q), x)
  {
    SanitizeAppend(q, r);
    SetSame(t, Resolve(q));
    x := RemoveLastLocal(t, q, Get(t, Resolve(q)).value, Sanitize(r));
  }

  lemma {:induction false} WithinLocalEach(t: Json, q: Path, r: Path, B: nat) returns (x: Json)
    requires Bounded(t, B) && Anchored(q) && !HasWildcard(q) && Get(t, Resolve(q)).Some?
    requires r != [] && r != [Wildcard] && HasWildcard(Sanitize(q + r))
    ensures CompactedWithin(t, q + r, B) == Set(t, Resolve(q), x)
    decreases WildcardCount(q + r), 1, 0
  {
    SanitizeAppend(q, r);
    SanitizeCount(q + r);
    var start, rest := SplitAt(q, Sanitize(r), Sanitize(q + r));
    var x1 := EachLocal(t, q, start, rest, 0, B);
    x := RemoveLastLocal(t, q, x1, Sanitize(r));
    WithinCombine(t, q + r, B, Resolve(q), start, rest, x1, x);
  }

  /** The parts of `s == q + r'` around its first `[]`, which lies inside
      `r'`. */
  lemma SplitAt(q: Path, r': Path, s: Path) returns (start: Path, rest: Path)
    requires !HasWildcard(q) && s == q + r' && HasWildcard(s)
    ensures start == s[..FirstWildcard(s)] && rest == s[FirstWildcard(s) + 1..]
    ensures !HasWildcard(start) && |start| >= |q| && start[..|q|] == q
    ensures WildcardCount(rest) + 1 == WildcardCount(s)
  {
    var w := FirstWildcard(s);
    SplitAtWildcard(s, w);
    WildcardAfter(q, r', w);
    start := s[..w];
    rest := s[w + 1..];
    PrefixOfAppend(q, r'[..w - |q|]);
  }

  lemma PrefixOfAppend(q: Path, u: Path)
    ensures (q + u)[..|q|] == q
  {
  }

  lemma WithinCombine(t: Json, p: Path, B: nat, Q: Path, start: Path, rest: Path, x1: Json, x: Json)
    requires Bounded(t, B) && HasWildcard(Sanitize(p))
    requires var s := Sanitize(p);
      start == s[..FirstWildcard(s)] && rest == s[FirstWildcard(s) + 1..]
    requires !HasWildcard(start)
    requires EachElement(t, start, rest, 0, B) == Set(t, Q, x1)
    requires RemoveLast(Set(t, Q, x1), Sanitize(p)) == Set(t, Q, x)
    ensures CompactedWithin(t, p, B) == Set(t, Q, x)
  {
    WithinUnfold(t, p, B);
  }

  lemma {:induction false} EachLocal(t: Json, q: Path, start: Path, rest: Path, i: nat, B: nat) returns (x: Json)
    requires Bounded(t, B) && Anchored(q) && Get(t, Resolve(q)).Some?
    requires !HasWildcard(start) && |start| >= |q| && start[..|q|] == q
    ensures EachElement(t, start, rest, i, B) == Set(t, Resolve(q), x)
    decreases WildcardCount(rest) + 1, 0, B - i
  {
    var Q := Resolve(q);
    ResolveLast(q);
    if i < ArrLen(t, Resolve(start)) {
      ArrLenBounded(t, Resolve(start), B);
      ElementPathCount(start, i, rest);
      var e := start + [Index(i)] + rest;
      var r0 := start[|q|..] + [Index(i)] + rest;
      assert e == q + r0;
      assert r0[|start| - |q|] == Index(i);
      assert !HasWildcard(q) by {
        assert forall j :: 0 <= j < |q| ==> q[j] == start[j];
      }
      var x1 := WithinLocal(t, q, r0, B);
      var t1 := CompactedWithin(t, e, B);
      ExistingSettable(t, Q);
      GetSet(t, Q, x1);
      var x2 := EachLocal(t1, q, start, rest, i + 1, B);
      SetTwice(t, Q, x1, x2);
      x := x2;
    } else {
      x := Get(t, Q).value;
      SetSame(t, Q);
    }
  }

  // ---------------------------------------------------------------------
  // What a removal does

  lemma {:induction false} GetThroughWildcard(t: Json, p: Path)
    requires HasWildcard(p)
    ensures Get(t, p) == None
    decreases |p|
  {
    if p[0] != Wildcard {
      assert p == [p[0]] + p[1..];
      match Child(t, p[0])
      case None =>
      case Some(c) => GetThroughWildcard(c, p[1..]);
    }
  }

  /** A path ending in a key `k` deletes exactly the key `k` of the object
      lodash finds at the text before it; when there is no object there,
      nothing changes. */
  lemma KeyRemoved(t: Json, q: Path, k: string)
    requires !HasWildcard(q)
    ensures var Q := Resolve(q); Get(t, Q).Some? && Get(t, Q).value.Obj? ==>
      Get(Compacted(t, q + [Key(k)]), Q) == Some(Obj(Get(t, Q).value.fields - {k}))
    ensures var Q := Resolve(q); !(Get(t, Q).Some? && Get(t, Q).value.Obj?) ==>
      Compacted(t, q + [Key(k)]) == t
  {
    var Q := Resolve(q);
    CompactedKey(t, q, k);
    if Get(t, Q).Some? && Get(t, Q).value.Obj? {
      ExistingSettable(t, Q);
      GetSet(t, Q, Obj(Get(t, Q).value.fields - {k}));
    }
  }

  /** A path ending in a key compacts to an unset at its parent. */
  lemma CompactedKey(t: Json, q: Path, k: string)
    requires !HasWildcard(q)
    ensures Compacted(t, q + [Key(k)]) == RemoveKey(t, Resolve(q), k)
  {
    var p := q + [Key(k)];
    var B := BoundOf(t);
    CompactedIs(t, p, B);
    WildcardCountAppend(q, [Key(k)]);
    assert p[..|p| - 1] == q;
  }

  /** Deleting a key leaves every node off the path to it as it was. */
  lemma KeyRemovedFrame(t: Json, q: Path, k: string, q': Path, j: nat)
    requires !HasWildcard(q) && Get(t, q').Some?
    requires var Q := Resolve(q); j < |Q| && j < |q'| && Q[..j] == q'[..j] && Q[j] != q'[j]
    ensures Get(Compacted(t, q + [Key(k)]), q') == Get(t, q')
  {
    var Q := Resolve(q);
    CompactedKey(t, q, k);
    if Get(t, Q).Some? && Get(t, Q).value.Obj? {
      GetSetOther(t, Q, q', Obj(Get(t, Q).value.fields - {k}), j);
    }
  }

  /** `q[i]` splices element `i` out of the array lodash finds at `q`: one
      element fewer, the others in their order. */
  lemma IndexSpliced(t: Json, q: Path, i: nat)
    requires q != [] && !HasWildcard(q)
    requires var Q := Resolve(q);
      Get(t, Q).Some? && Get(t, Q).value.Arr? && i < |Get(t, Q).value.items|
    ensures var Q := Resolve(q);
      Get(Compacted(t, q + [Index(i)]), Q) ==
        Some(Arr(Get(t, Q).value.items[..i] + Get(t, Q).value.items[i + 1..]))
    ensures ArrLen(Compacted(t, q + [Index(i)]), Resolve(q)) == ArrLen(t, Resolve(q)) - 1
  {
    var Q := Resolve(q);
    ResolveLast(q);
    CompactedIndex(t, q, i);
    var a := Get(t, Q).value.items;
    ExistingSettable(t, Q);
    GetSet(t, Q, Arr(a[..i] + a[i + 1..]));
  }

  /** A path ending in an index compacts to a splice at its parent. */
  lemma CompactedIndex(t: Json, q: Path, i: nat)
    requires !HasWildcard(q)
    ensures Compacted(t, q + [Index(i)]) == SpliceAt(t, Resolve(q), i)
  {
    var p := q + [Index(i)];
    var B := BoundOf(t);
    CompactedIs(t, p, B);
    WildcardCountAppend(q, [Index(i)]);
    assert p[..|p| - 1] == q;
  }

  /** When there is no array at `q`, or it has no element `i`, `q[i]`
      changes nothing. */
  lemma IndexOutOfRange(t: Json, q: Path, i: nat)
    requires !HasWildcard(q)
    requires var Q := Resolve(q);
      !(Lookup(t, Q).Some? && Lookup(t, Q).value.Arr? && i < |Lookup(t, Q).value.items|)
    ensures Compacted(t, q + [Index(i)]) == t
  {
    CompactedIndex(t, q, i);
  }

  /** One trailing `[]` is ignored: `p[]` removes what `p` removes. */
  lemma TrailingWildcardIgnored(t: Json, p: Path)
    requires p == [] || p[|p| - 1] != Wildcard
    ensures Compacted(t, p + [Wildcard]) == Compacted(t, p)
  {
    var B := BoundOf(t);
    CompactedIs(t, p, B);
    CompactedIs(t, p + [Wildcard], B);
    assert (p + [Wildcard])[..|p|] == p;
  }

  /** A path with no `[]` whose parent is missing changes nothing. */
  lemma MissingParentUnchanged(t: Json, p: Path)
    requires p != [] && !HasWildcard(p) && Get(t, Resolve(p[..|p| - 1])).None?
    ensures Compacted(t, p) == t
  {
    var B := BoundOf(t);
    CompactedIs(t, p, B);
    var q := p[..|p| - 1];
    assert p == q + [p[|p| - 1]];
    WildcardCountAppend(q, [p[|p| - 1]]);
  }

  /** `n` removals, one per element index, in order, each of
      `unsetCompact(start[i] + rest)`. */
  ghost function EachIndex(t: Json, start: Path, rest: Path, i: nat, n: nat): Json
    decreases n - i
  {
    if i < n then EachIndex(Compacted(t, start + [Index(i)] + rest), start, rest, i + 1, n) else t
  }

  /** Rebuilding one element of an array leaves the array's length. */
  lemma ElementSetKeepsLength(t: Json, start: Path, i: nat, x: Json)
    requires start != [] && i < ArrLen(t, start)
    ensures ArrLen(Set(t, start + [Index(i)], x), start) == ArrLen(t, start)
  {
    var a := Get(t, start).value.items;
    SetAppend(t, start, [Index(i)], x);
    assert SetInto(Arr(a), [Index(i)], x) == Arr(a[i := x]);
    ExistingSettable(t, start);
    GetSet(t, start, Arr(a[i := x]));
  }

  lemma {:induction false} EachAgrees(t: Json, start: Path, rest: Path, i: nat, n: nat, B: nat)
    requires Bounded(t, B) && Anchored(start) && !HasWildcard(start)
    requires rest != [] && rest != [Wildcard]
    requires ArrLen(t, Resolve(start)) == n && i <= n
    ensures EachElement(t, start, rest, i, B) == EachIndex(t, start, rest, i, n)
    ensures ArrLen(EachIndex(t, start, rest, i, n), Resolve(start)) == n
    decreases n - i, 2
  {
    if i < n {
      EachAgreesStep(t, start, rest, i, n, B);
    }
  }

  lemma {:induction false} EachAgreesStep(t: Json, start: Path, rest: Path, i: nat, n: nat, B: nat)
    requires Bounded(t, B) && Anchored(start) && !HasWildcard(start)
    requires rest != [] && rest != [Wildcard]
    requires ArrLen(t, Resolve(start)) == n && i < n
    ensures EachElement(t, start, rest, i, B) == EachIndex(t, start, rest, i, n)
    ensures ArrLen(EachIndex(t, start, rest, i, n), Resolve(start)) == n
    decreases n - i, 1
  {
    var t1 := EachStep(t, start, rest, i, B);
    EachAgreesAfter(t, t1, start, rest, i, n, B);
  }

  /** The rest of the loop, once element `i` is done. */
  lemma {:induction false} EachAgreesAfter(t: Json, t1: Json, start: Path, rest: Path, i: nat, n: nat, B: nat)
    requires Bounded(t, B) && Bounded(t1, B) && Anchored(start) && !HasWildcard(start)
    requires rest != [] && rest != [Wildcard]
    requires ArrLen(t1, Resolve(start)) == n && i < n
    requires t1 == Compacted(t, start + [Index(i)] + rest)
    requires EachElement(t, start, rest, i, B) == EachElement(t1, start, rest, i + 1, B)
    ensures EachElement(t, start, rest, i, B) == EachIndex(t, start, rest, i, n)
    ensures ArrLen(EachIndex(t, start, rest, i, n), Resolve(start)) == n
    decreases n - i, 0
  {
    EachAgrees(t1, start, rest, i + 1, n, B);
    EachIndexStep(t, t1, start, rest, i, n);
  }

  /** One pass of the loop: removing below element `i` agrees with
      `Compacted` and keeps the array's length. */
  lemma EachStep(t: Json, start: Path, rest: Path, i: nat, B: nat) returns (t1: Json)
    requires Bounded(t, B) && Anchored(start) && !HasWildcard(start)
    requires rest != [] && rest != [Wildcard] && i < ArrLen(t, Resolve(start))
    ensures Bounded(t1, B) && t1 == Compacted(t, start + [Index(i)] + rest)
    ensures ArrLen(t1, Resolve(start)) == ArrLen(t, Resolve(start))
    ensures EachElement(t, start, rest, i, B) == EachElement(t1, start, rest, i + 1, B)
  {
    ElementPathCount(start, i, rest);
    var q := start + [Index(i)];
    var S := Resolve(start);
    ResolveLast(start);
    ResolveAppend(start, [Index(i)]);
    assert Resolve([Index(i)]) == [Index(i)];
    GetAppend(t, S, [Index(i)]);
    var x := WithinLocal(t, q, rest, B);
    CompactedIs(t, q + rest, B);
    ElementSetKeepsLength(t, S, i, x);
    t1 := CompactedWithin(t, q + rest, B);
    EachUnfold(t, start, rest, i, B);
  }

  /** One step of the specification loop. */
  lemma EachIndexStep(t: Json, t1: Json, start: Path, rest: Path, i: nat, n: nat)
    requires i < n && t1 == Compacted(t, start + [Index(i)] + rest)
    ensures EachIndex(t, start, rest, i, n) == EachIndex(t1, start, rest, i + 1, n)
  {
  }

  /** One pass of the loop over the elements. */
  lemma EachUnfold(t: Json, start: Path, rest: Path, i: nat, B: nat)
    requires Bounded(t, B) && !HasWildcard(start) && i < ArrLen(t, Resolve(start))
    ensures EachElement(t, start, rest, i, B) ==
      EachElement(CompactedWithin(t, start + [Index(i)] + rest, B), start, rest, i + 1, B)
  {
  }

  lemma FirstWildcardAfter(start: Path, rest: Path)
    requires !HasWildcard(start)
    ensures FirstWildcard(start + [Wildcard] + rest) == |start|
    ensures (start + [Wildcard] + rest)[..|start|] == start
    ensures (start + [Wildcard] + rest)[|start| + 1..] == rest
  {
    var p := start + [Wildcard] + rest;
    assert p[|start|] == Wildcard;
    WildcardAfter(start, [Wildcard] + rest, FirstWildcard(p));
    assert p[..|start|] == start;
  }

  /** A final removal whose parent path runs through `[]` changes nothing. */
  lemma RemoveLastThroughWildcard(t: Json, s: Path)
    requires s != [] && HasWildcard(s[..|s| - 1]) && s[|s| - 1] != Wildcard
    ensures RemoveLast(t, s) == t
  {
    ResolveWildcard(s[..|s| - 1]);
    GetThroughWildcard(t, Resolve(s[..|s| - 1]));
  }

  /** With `[]` right after a wildcard-free `start` and a remainder that
      ends in no `[]`, the removal is the loop over the elements alone. */
  lemma WithinWildcard(t: Json, start: Path, rest: Path, B: nat)
    requires Bounded(t, B) && !HasWildcard(start)
    requires rest != [] && rest[|rest| - 1] != Wildcard
    ensures CompactedWithin(t, start + [Wildcard] + rest, B) == EachElement(t, start, rest, 0, B)
  {
    var p := start + [Wildcard] + rest;
    assert Sanitize(p) == p;
    FirstWildcardAfter(start, rest);
    assert p[..|p| - 1][|start|] == Wildcard;
    RemoveLastThroughWildcard(EachElement(t, start, rest, 0, B), p);
  }

  /** `start[].rest` removes `rest` below element 0, 1, ... of the array
      lodash finds at `start`, in order, once per element it had; the array
      keeps its length. Without an array there nothing changes. */
  lemma WildcardEach(t: Json, start: Path, rest: Path)
    requires Anchored(start) && !HasWildcard(start)
    requires rest != [] && rest[|rest| - 1] != Wildcard
    ensures var n := ArrLen(t, Resolve(start));
      Compacted(t, start + [Wildcard] + rest) == EachIndex(t, start, rest, 0, n)
    ensures ArrLen(Compacted(t, start + [Wildcard] + rest), Resolve(start)) == ArrLen(t, Resolve(start))
  {
    var B := BoundOf(t);
    CompactedIs(t, start + [Wildcard] + rest, B);
    WithinWildcard(t, start, rest, B);
    EachAgrees(t, start, rest, 0, ArrLen(t, Resolve(start)), B);
  }
}
