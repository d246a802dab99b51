/** Reading and writing a form tree at a token path, as lodash `get` and
    `set` do for the paths forms use. A key only addresses an object and an
    index only an array; `[]` addresses nothing. */
module Tree {
  import opened JsonValues
  import opened Paths

  /** The child one token addresses. */
  function Child(t: Json, k: Token): Option<Json> {
    match k
    case Key(n) => if t.Obj? && n in t.fields then Some(t.fields[n]) else None
    case Index(i) => if t.Arr? && i < |t.items| then Some(t.items[i]) else None
    case Wildcard => None
  }

  /** The node at path `p`; the empty path addresses the tree itself. */
  function Get(t: Json, p: Path): Option<Json>
    decreases |p|
  {
    if p == [] then Some(t)
    else
      match Child(t, p[0])
      case None => None
      case Some(c) => Get(c, p[1..])
  }

  /** A one-token path reads the child. */
  lemma GetOne(t: Json, k: Token)
    ensures Get(t, [k]) == Child(t, k)
  {
    assert [k][1..] == [];
  }

  /** lodash `get` at a token path: the empty path reads nothing, as lodash
      `get` with `[]` does. */
  function Lookup(t: Json, p: Path): Option<Json> {
    if p == [] then None else Get(t, p)
  }

  /** Length of the array at `p`, 0 when there is none. */
  function ArrLen(t: Json, p: Path): nat {
    match Lookup(t, p)
    case Some(Arr(a)) => |a|
    case _ => 0
  }

  /** The container lodash `set` creates for a missing step: an array when
      the next token is an index, an object otherwise. */
  function Fresh(next: Token): Json {
    if next.Index? then Arr([]) else Obj(map[])
  }

  /** An existing container is descended into; anything else is replaced. */
  function Base(cur: Option<Json>, next: Token): Json {
    match cur
    case Some(c) => if c.IsContainer() then c else Fresh(next)
    case None => Fresh(next)
  }

  /** Extends `a` to length `n` with `undefined`. */
  function Pad(a: seq<Json>, n: nat): (r: seq<Json>)
    ensures |r| == if |a| >= n then |a| else n
    ensures forall j :: 0 <= j < |a| ==> r[j] == a[j]
    ensures forall j :: |a| <= j < |r| ==> r[j] == Undef
  {
    if |a| >= n then a else a + seq(n - |a|, _ => Undef)
  }

  /** lodash `set`: writes `v` at `p`, creating missing containers. */
  function Set(t: Json, p: Path, v: Json): Json
    decreases |p|
  {
    if p == [] then v
    else
      match p[0]
      case Key(k) =>
        if t.Obj? then
          var child := if |p| == 1 then v else Set(Base(Child(t, p[0]), p[1]), p[1..], v);
          Obj(t.fields[k := child])
        else t
      case Index(i) =>
        if t.Arr? then
          var a := Pad(t.items, i + 1);
          var child := if |p| == 1 then v else Set(Base(Some(a[i]), p[1]), p[1..], v);
          Arr(a[i := child])
        else t
      case Wildcard => t
  }

  /** The paths `Set` can write through: every step meets, or creates, a
      container of the kind its token needs. */
  predicate Settable(t: Json, p: Path)
    decreases |p|
  {
    p == [] ||
    match p[0]
    case Key(k) => t.Obj? && (|p| == 1 || Settable(Base(Child(t, p[0]), p[1]), p[1..]))
    case Index(i) => t.Arr? && (|p| == 1 || Settable(Base(Some(Pad(t.items, i + 1)[i]), p[1]), p[1..]))
    case Wildcard => false
  }

  // ---------------------------------------------------------------------
  // Reading back what was written

  lemma {:induction false} GetAppend(t: Json, q: Path, r: Path)
    ensures Get(t, q + r) == match Get(t, q) case None => None case Some(x) => Get(x, r)
    decreases |q|
  {
    if q == [] {
      assert q + r == r;
    } else {
      assert (q + r)[0] == q[0];
      assert (q + r)[1..] == q[1..] + r;
      match Child(t, q[0])
      case None =>
      case Some(c) => GetAppend(c, q[1..], r);
    }
  }

  /** After `set(t, p, v)`, `get(t, p)` is `v`. */
  lemma {:induction false} GetSet(t: Json, p: Path, v: Json)
    requires Settable(t, p)
    ensures Get(Set(t, p, v), p) == Some(v)
    decreases |p|
  {
    if |p| > 1 {
      match p[0]
      case Key(k) => GetSet(Base(Child(t, p[0]), p[1]), p[1..], v);
      case Index(i) => GetSet(Base(Some(Pad(t.items, i + 1)[i]), p[1]), p[1..], v);
    }
  }

  /** A write `set` cannot carry through leaves its path unreadable. */
  lemma {:induction false} UnsettableMissing(t: Json, p: Path, v: Json)
    requires !Settable(t, p)
    ensures Get(Set(t, p, v), p).None?
    decreases |p|
  {
    match p[0]
    case Key(k) =>
      if t.Obj? {
        UnsettableMissing(Base(Child(t, p[0]), p[1]), p[1..], v);
      }
    case Index(i) =>
      if t.Arr? {
        UnsettableMissing(Base(Some(Pad(t.items, i + 1)[i]), p[1]), p[1..], v);
      }
    case Wildcard =>
  }

  /** A path that already leads somewhere can be written through. */
  lemma {:induction false} ExistingSettable(t: Json, p: Path)
    requires Get(t, p).Some?
    ensures Settable(t, p)
    decreases |p|
  {
    if |p| > 1 {
      var c := Child(t, p[0]).value;
      assert Get(c, p[1..]).Some?;
      assert Child(c, p[1]).Some?;
      assert Base(Some(c), p[1]) == c;
      match p[0]
      case Key(k) =>
        ExistingSettable(c, p[1..]);
      case Index(i) =>
        assert Pad(t.items, i + 1)[i] == c;
        ExistingSettable(c, p[1..]);
    }
  }

  /** Replaces the existing child a token addresses. */
  function Put(t: Json, k: Token, x: Json): Json {
    match k
    case Key(n) => if t.Obj? && n in t.fields then Obj(t.fields[n := x]) else t
    case Index(i) => if t.Arr? && i < |t.items| then Arr(t.items[i := x]) else t
    case Wildcard => t
  }

  /** What `set` makes of an existing node `x` when it writes `v` at `r`
      below it: a scalar on the way is replaced by a fresh container. */
  function SetInto(x: Json, r: Path, v: Json): Json {
    if r == [] then v else Set(Base(Some(x), r[0]), r, v)
  }

  /** One step of `set` through an existing child. */
  lemma SetStep(t: Json, p: Path, v: Json)
    requires p != [] && Child(t, p[0]).Some?
    ensures Set(t, p, v) == Put(t, p[0], SetInto(Child(t, p[0]).value, p[1..], v))
  {
    match p[0]
    case Key(k) =>
    case Index(i) =>
      assert Pad(t.items, i + 1) == t.items;
  }

  lemma PutChild(t: Json, k: Token, x: Json)
    requires Child(t, k).Some?
    ensures Child(Put(t, k, x), k) == Some(x)
    ensures Put(Put(t, k, x), k, Child(t, k).value) == t
  {
    match k
    case Key(n) =>
      assert t.fields[n := x][n := t.fields[n]] == t.fields;
    case Index(i) =>
      assert t.items[i := x][i := t.items[i]] == t.items;
  }

  lemma PutTwice(t: Json, k: Token, x: Json, y: Json)
    requires Child(t, k).Some?
    ensures Put(Put(t, k, x), k, y) == Put(t, k, y)
  {
    match k
    case Key(n) =>
      assert t.fields[n := x][n := y] == t.fields[n := y];
    case Index(i) =>
      assert t.items[i := x][i := y] == t.items[i := y];
  }

  /** A write below a container descends into it rather than replacing it. */
  lemma SetIntoExisting(c: Json, r: Path, v: Json)
    requires r != [] && c.IsContainer()
    ensures SetInto(c, r, v) == Set(c, r, v)
  {
  }

  /** Writing back the value already at a path changes nothing. */
  lemma {:induction false} SetSame(t: Json, p: Path)
    requires Get(t, p).Some?
    ensures Set(t, p, Get(t, p).value) == t
    decreases |p|
  {
    if p != [] {
      var c := Child(t, p[0]).value;
      SetStep(t, p, Get(t, p).value);
      if |p| > 1 {
        SetIntoExisting(c, p[1..], Get(t, p).value);
        SetSame(c, p[1..]);
      }
      PutChild(t, p[0], c);
      assert Put(t, p[0], c) == Put(Put(t, p[0], c), p[0], c);
    }
  }

  /** Writing below an existing node is writing the node, rebuilt. */
  lemma {:induction false} SetAppend(t: Json, q: Path, r: Path, v: Json)
    requires q != [] && Get(t, q).Some?
    ensures Set(t, q + r, v) == Set(t, q, SetInto(Get(t, q).value, r, v))
    decreases |q|
  {
    if r == [] {
      assert q + r == q;
    } else {
      var c := Child(t, q[0]).value;
      assert (q + r)[0] == q[0];
      assert (q + r)[1..] == q[1..] + r;
      SetStep(t, q + r, v);
      SetStep(t, q, SetInto(Get(t, q).value, r, v));
      if |q| > 1 {
        SetIntoExisting(c, q[1..] + r, v);
        SetIntoExisting(c, q[1..], SetInto(Get(t, q).value, r, v));
        SetAppend(c, q[1..], r, v);
      } else {
        assert q[1..] + r == r;
      }
    }
  }

  /** A second write at the same existing path overrides the first. */
  lemma {:induction false} SetTwice(t: Json, p: Path, v1: Json, v2: Json)
    requires Get(t, p).Some?
    ensures Set(Set(t, p, v1), p, v2) == Set(t, p, v2)
    decreases |p|
  {
    if p != [] {
      var c := Child(t, p[0]).value;
      var c1 := SetInto(c, p[1..], v1);
      SetStep(t, p, v1);
      var s := Put(t, p[0], c1);
      PutChild(t, p[0], c1);
      SetStep(s, p, v2);
      SetStep(t, p, v2);
      if |p| > 1 {
        SetIntoExisting(c, p[1..], v1);
        SetKeepsKind(c, p[1..], v1);
        SetTwice(c, p[1..], v1, v2);
      }
      PutTwice(t, p[0], c1, SetInto(c1, p[1..], v2));
    }
  }

  /** A non-empty write leaves an array an array and an object an object. */
  lemma SetKeepsKind(c: Json, r: Path, v: Json)
    requires r != []
    ensures Set(c, r, v).Arr? == c.Arr? && Set(c, r, v).Obj? == c.Obj?
  {
  }

  /** Writing strictly below an existing node leaves that node an array
      or an object as it was. */
  lemma SetBelowKeepsKind(t: Json, q: Path, r: Path, v: Json)
    requires q != [] && r != [] && Get(t, q + r).Some?
    ensures Get(t, q).Some? && Get(Set(t, q + r, v), q).Some?
    ensures Get(Set(t, q + r, v), q).value.Arr? == Get(t, q).value.Arr?
    ensures Get(Set(t, q + r, v), q).value.Obj? == Get(t, q).value.Obj?
  {
    GetAppend(t, q, r);
    var x := Get(t, q).value;
    assert Child(x, r[0]).Some?;
    SetAppend(t, q, r, v);
    SetIntoExisting(x, r, v);
    SetKeepsKind(x, r, v);
    ExistingSettable(t, q);
    GetSet(t, q, SetInto(x, r, v));
  }

  /** A write leaves every node off its path where it was. */
  lemma {:induction false} GetSetOther(t: Json, p: Path, q: Path, v: Json, j: nat)
    requires Get(t, q).Some?
    requires j < |p| && j < |q| && p[..j] == q[..j] && p[j] != q[j]
    ensures Get(Set(t, p, v), q) == Get(t, q)
    decreases j
  {
    var c := Child(t, q[0]).value;
    if j == 0 {
      match p[0]
      case Key(k) =>
      case Index(i) =>
      case Wildcard =>
    } else {
      assert p[0] == q[0];
      assert p[1..][..j - 1] == p[..j][1..];
      assert q[1..][..j - 1] == q[..j][1..];
      SetStep(t, p, v);
      PutChild(t, p[0], SetInto(c, p[1..], v));
      assert Child(c, q[1]).Some? && c.IsContainer();
      if |p| > 1 {
        SetIntoExisting(c, p[1..], v);
        GetSetOther(c, p[1..], q[1..], v, j - 1);
      }
    }
  }

  // ---------------------------------------------------------------------
  // A bound on array lengths, used to show that removal loops end

  /** Every array anywhere in `t` has at most `B` elements. */
  predicate Bounded(t: Json, B: nat) {
    match t
    case Arr(a) => |a| <= B && forall j :: 0 <= j < |a| ==> Bounded(a[j], B)
    case Obj(m) => forall k :: k in m ==> Bounded(m[k], B)
    case _ => true
  }

  lemma BoundedMono(t: Json, B: nat, B': nat)
    requires Bounded(t, B) && B <= B'
    ensures Bounded(t, B')
  {
  }

  /** Every tree has such a bound. */
  lemma {:induction false} BoundOf(t: Json) returns (B: nat)
    ensures Bounded(t, B)
    decreases t
  {
    match t
    case Arr(a) =>
      B := |a|;
      for j := 0 to |a|
        invariant B >= |a|
        invariant forall j' :: 0 <= j' < j ==> Bounded(a[j'], B)
      {
        var b := BoundOf(a[j]);
        var nb := if b > B then b else B;
        forall j' | 0 <= j' <= j
          ensures Bounded(a[j'], nb)
        {
          if j' < j { BoundedMono(a[j'], B, nb); } else { BoundedMono(a[j], b, nb); }
        }
        B := nb;
      }
    case Obj(m) =>
      B := 0;
      var ks := m.Keys;
      while ks != {}
        invariant ks <= m.Keys
        invariant forall k :: k in m && k !in ks ==> Bounded(m[k], B)
        decreases ks
      {
        var k :| k in ks;
        var b := BoundOf(m[k]);
        var nb := if b > B then b else B;
        forall k' | k' in m && (k' !in ks || k' == k)
          ensures Bounded(m[k'], nb)
        {
          if k' == k { BoundedMono(m[k], b, nb); } else { BoundedMono(m[k'], B, nb); }
        }
        B := nb;
        ks := ks - {k};
      }
    case _ =>
      B := 0;
  }

  lemma {:induction false} BoundedGet(t: Json, p: Path, B: nat)
    requires Bounded(t, B) && Get(t, p).Some?
    ensures Bounded(Get(t, p).value, B)
    decreases |p|
  {
    if p != [] {
      BoundedGet(Child(t, p[0]).value, p[1..], B);
    }
  }

  /** The array at a path of a bounded tree is within the bound. */
  lemma ArrLenBounded(t: Json, p: Path, B: nat)
    requires Bounded(t, B)
    ensures ArrLen(t, p) <= B
  {
    if Lookup(t, p).Some? {
      BoundedGet(t, p, B);
    }
  }

  /** Replacing an existing node by a bounded value keeps the bound. */
  lemma {:induction false} BoundedSet(t: Json, p: Path, v: Json, B: nat)
    requires Bounded(t, B) && Bounded(v, B) && Get(t, p).Some?
    ensures Bounded(Set(t, p, v), B)
    decreases |p|
  {
    if p != [] {
      var c := Child(t, p[0]).value;
      if |p| > 1 {
        assert Child(c, p[1]).Some?;
        assert Base(Some(c), p[1]) == c;
        BoundedSet(c, p[1..], v, B);
      }
      match p[0]
      case Key(k) =>
      case Index(i) =>
        assert Pad(t.items, i + 1) == t.items;
    }
  }
}
