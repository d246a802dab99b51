/** Path strings in dot/bracket notation (`user.phones[0].number`,
    `contacts[].phone`) and the token sequences they denote.

    Grammar of the modelled subset:
      path    := key tail
      tail    := "" | "." key tail | "[" digits "]" tail | "[]" tail
      key     := any run of characters other than '.', '[' and ']'
      digits  := "0" | a non-zero digit followed by digits
    A key that is empty and directly followed by a bracket yields no token,
    as in lodash's path parser (`[0].a` is `0` then `a`); any other empty key
    (`.a`, `a.`, `a..b`) is the key "". */
module Paths {
  import opened JsonValues

  datatype Token = Key(name: string) | Index(i: nat) | Wildcard {
    /** Written with brackets: `[3]` or `[]`. */
    predicate IsBracket() {
      Index? || Wildcard?
    }
  }

  type Path = seq<Token>

  predicate IsKeyChar(c: char) {
    c != '.' && c != '[' && c != ']'
  }

  predicate IsDigit(c: char) {
    '0' <= c <= '9'
  }

  predicate PlainKey(k: string) {
    forall i :: 0 <= i < |k| ==> IsKeyChar(k[i])
  }

  /** Paths this model can write down and read back: plain keys, and no
      empty key directly before a bracket. */
  predicate WellFormed(p: Path) {
    && |p| >= 1
    && (forall i :: 0 <= i < |p| && p[i].Key? ==> PlainKey(p[i].name))
    && (forall i :: 0 <= i < |p| - 1 && p[i] == Key("") ==> !p[i + 1].IsBracket())
  }

  predicate HasWildcard(p: Path) {
    Wildcard in p
  }

  function WildcardCount(p: Path): nat {
    if p == [] then 0 else (if p[0] == Wildcard then 1 else 0) + WildcardCount(p[1..])
  }

  /** Position of the first `[]` token. */
  function FirstWildcard(p: Path): (w: nat)
    requires HasWildcard(p)
    ensures w < |p| && p[w] == Wildcard && !HasWildcard(p[..w])
  {
    if p[0] == Wildcard then 0 else FirstWildcard(p[1..]) + 1
  }

  lemma {:induction false} WildcardCountAppend(a: Path, b: Path)
    ensures WildcardCount(a + b) == WildcardCount(a) + WildcardCount(b)
    ensures HasWildcard(a + b) <==> HasWildcard(a) || HasWildcard(b)
  {
    if a == [] {
      assert a + b == b;
    } else {
      assert (a + b)[1..] == a[1..] + b;
      WildcardCountAppend(a[1..], b);
      assert a == [a[0]] + a[1..];
    }
  }

  lemma {:induction false} WildcardCountZero(a: Path)
    ensures WildcardCount(a) == 0 <==> !HasWildcard(a)
  {
    if a != [] {
      WildcardCountZero(a[1..]);
      assert a == [a[0]] + a[1..];
    }
  }

  // ---------------------------------------------------------------------
  // Decimal digits

  function DigitChar(d: nat): char
    requires d < 10
  {
    "0123456789"[d]
  }

  function DigitValue(c: char): nat
    requires IsDigit(c)
  {
    (c as int - '0' as int) as nat
  }

  predicate AllDigits(s: string) {
    forall i :: 0 <= i < |s| ==> IsDigit(s[i])
  }

  /** What a bracket may hold for an index: no sign, no leading zero. */
  predicate CanonicalDigits(s: string) {
    |s| >= 1 && AllDigits(s) && (|s| == 1 || s[0] != '0')
  }

  function NatToString(n: nat): (s: string)
    ensures CanonicalDigits(s)
  {
    if n < 10 then [DigitChar(n)]
    else
      var s := NatToString(n / 10) + [DigitChar(n % 10)];
      assert s[0] == NatToString(n / 10)[0];
      s
  }

  function DigitsValue(s: string): nat
    requires AllDigits(s)
  {
    if s == [] then 0 else DigitsValue(s[..|s| - 1]) * 10 + DigitValue(s[|s| - 1])
  }

  lemma {:induction false} DigitsValueOfNatToString(n: nat)
    ensures DigitsValue(NatToString(n)) == n
  {
    if n >= 10 {
      var s := NatToString(n);
      assert s[..|s| - 1] == NatToString(n / 10);
      DigitsValueOfNatToString(n / 10);
    }
  }

  // ---------------------------------------------------------------------
  // Rendering

  function RenderToken(t: Token): string {
    match t
    case Key(k) => "." + k
    case Index(i) => "[" + NatToString(i) + "]"
    case Wildcard => "[]"
  }

  /** Tokens after the first, each with its separator. */
  function RenderTail(q: Path): string {
    if q == [] then "" else RenderToken(q[0]) + RenderTail(q[1..])
  }

  /** The path string of a token sequence; a leading key has no dot. */
  function Render(p: Path): string {
    if p == [] then ""
    else if p[0].Key? then p[0].name + RenderTail(p[1..])
    else RenderTail(p)
  }

  lemma {:induction false} RenderTailAppend(a: Path, b: Path)
    ensures RenderTail(a + b) == RenderTail(a) + RenderTail(b)
  {
    if a != [] {
      assert (a + b)[0] == a[0];
      assert (a + b)[1..] == a[1..] + b;
      RenderTailAppend(a[1..], b);
    } else {
      assert a + b == b;
    }
  }

  lemma RenderAppend(p: Path, q: Path)
    requires |p| >= 1
    ensures Render(p + q) == Render(p) + RenderTail(q)
  {
    assert (p + q)[0] == p[0];
    if p[0].Key? {
      assert (p + q)[1..] == p[1..] + q;
      RenderTailAppend(p[1..], q);
    } else {
      RenderTailAppend(p, q);
    }
  }

  // ---------------------------------------------------------------------
  // Parsing

  /** Length of the key at the front of `s`. */
  function KeyLength(s: string): (n: nat)
    ensures n <= |s| && PlainKey(s[..n]) && (n < |s| ==> !IsKeyChar(s[n]))
  {
    if s == [] || !IsKeyChar(s[0]) then 0
    else
      var n := KeyLength(s[1..]) + 1;
      assert forall i :: 1 <= i < n ==> s[..n][i] == s[1..][..n - 1][i - 1];
      n
  }

  /** Length of the run of digits at the front of `s`. */
  function DigitLength(s: string): (n: nat)
    ensures n <= |s| && AllDigits(s[..n]) && (n < |s| ==> !IsDigit(s[n]))
  {
    if s == [] || !IsDigit(s[0]) then 0
    else
      var n := DigitLength(s[1..]) + 1;
      assert forall i :: 1 <= i < n ==> s[..n][i] == s[1..][..n - 1][i - 1];
      n
  }

  /** Parses what follows the first key: `.key`, `[digits]` and `[]` parts. */
  function ParseTail(s: string): (r: Option<Path>)
    ensures s != [] && r.Some? ==> r.value != []
    decreases |s|
  {
    if s == [] then Some([])
    else if s[0] == '.' then
      var n := KeyLength(s[1..]);
      var k := s[1..][..n];
      var rest := s[1 + n..];
      match ParseTail(rest)
      case None => None
      case Some(t) => if k == "" && rest != [] && rest[0] == '[' then Some(t) else Some([Key(k)] + t)
    else if s[0] == '[' then
      var n := DigitLength(s[1..]);
      if 1 + n < |s| && s[1 + n] == ']' then
        var d := s[1..][..n];
        if d == "" then
          match ParseTail(s[2..])
          case None => None
          case Some(t) => Some([Wildcard] + t)
        else if CanonicalDigits(d) then
          match ParseTail(s[2 + n..])
          case None => None
          case Some(t) => Some([Index(DigitsValue(d))] + t)
        else None
      else None
    else None
  }

  /** The tokens a path string denotes, or None outside the grammar. */
  function Parse(s: string): (r: Option<Path>)
    ensures r.Some? ==> r.value != []
  {
    var n := KeyLength(s);
    var k := s[..n];
    var rest := s[n..];
    match ParseTail(rest)
    case None => None
    case Some(t) => if k == "" && rest != [] && rest[0] == '[' then Some(t) else Some([Key(k)] + t)
  }

  lemma KeyLengthOfPlain(k: string, r: string)
    requires PlainKey(k)
    requires r == [] || !IsKeyChar(r[0])
    ensures KeyLength(k + r) == |k|
    decreases |k|
  {
    if k != [] {
      KeyLengthCons(k, r);
      KeyLengthOfPlain(k[1..], r);
    } else {
      assert k + r == r;
    }
  }

  /** A plain key's first character counts, and the rest is plain. */
  lemma KeyLengthCons(k: string, r: string)
    requires PlainKey(k) && k != []
    ensures PlainKey(k[1..])
    ensures KeyLength(k + r) == KeyLength(k[1..] + r) + 1
  {
    var s := k + r;
    assert s[0] == k[0];
    assert s[1..] == k[1..] + r;
    assert PlainKey(k[1..]) by {
      forall j | 0 <= j < |k| - 1 ensures IsKeyChar(k[1..][j]) {
        assert k[1..][j] == k[j + 1];
      }
    }
  }

  lemma DigitLengthOfDigits(d: string, r: string)
    requires AllDigits(d)
    requires r == [] || !IsDigit(r[0])
    ensures DigitLength(d + r) == |d|
    decreases |d|
  {
    if d != [] {
      DigitLengthCons(d, r);
      DigitLengthOfDigits(d[1..], r);
    } else {
      assert d + r == r;
    }
  }

  /** A digit string's first digit counts, and the rest are digits. */
  lemma DigitLengthCons(d: string, r: string)
    requires AllDigits(d) && d != []
    ensures AllDigits(d[1..])
    ensures DigitLength(d + r) == DigitLength(d[1..] + r) + 1
  {
    var s := d + r;
    assert s[0] == d[0];
    assert s[1..] == d[1..] + r;
    assert AllDigits(d[1..]) by {
      forall j | 0 <= j < |d| - 1 ensures IsDigit(d[1..][j]) {
        assert d[1..][j] == d[j + 1];
      }
    }
  }

  /** Every rendered tail is empty or starts with a separator. */
  lemma RenderTailStart(q: Path)
    ensures RenderTail(q) == [] || RenderTail(q)[0] == '.' || RenderTail(q)[0] == '['
    ensures q != [] && q[0].IsBracket() ==> RenderTail(q) != [] && RenderTail(q)[0] == '['
  {
  }

  lemma ParseTailKey(k: string, r: string)
    requires PlainKey(k)
    requires r == [] || r[0] == '.' || r[0] == '['
    ensures ParseTail("." + k + r) ==
      match ParseTail(r)
      case None => None
      case Some(t) => if k == "" && r != [] && r[0] == '[' then Some(t) else Some([Key(k)] + t)
  {
    var s := "." + k + r;
    assert s[1..] == k + r;
    KeyLengthOfPlain(k, r);
    assert s[1..][..|k|] == k;
    assert s[1 + |k|..] == r;
  }

  lemma ParseTailIndex(i: nat, r: string)
    ensures ParseTail("[" + NatToString(i) + "]" + r) ==
      match ParseTail(r)
      case None => None
      case Some(t) => Some([Index(i)] + t)
  {
    var d := NatToString(i);
    var s := "[" + d + "]" + r;
    assert s[1..] == d + ("]" + r);
    DigitLengthOfDigits(d, "]" + r);
    assert s[1..][..|d|] == d;
    assert s[2 + |d|..] == r;
    DigitsValueOfNatToString(i);
  }

  lemma ParseTailWildcard(r: string)
    ensures ParseTail("[]" + r) ==
      match ParseTail(r)
      case None => None
      case Some(t) => Some([Wildcard] + t)
  {
    var s := "[]" + r;
    assert s[1..] == "]" + r;
    assert s[2..] == r;
  }

  lemma {:induction false} ParseRenderTail(q: Path)
    requires forall i :: 0 <= i < |q| && q[i].Key? ==> PlainKey(q[i].name)
    requires forall i :: 0 <= i < |q| - 1 && q[i] == Key("") ==> !q[i + 1].IsBracket()
    ensures ParseTail(RenderTail(q)) == Some(q)
  {
    if q != [] {
      var r := RenderTail(q[1..]);
      ParseRenderTail(q[1..]);
      RenderTailStart(q[1..]);
      assert q == [q[0]] + q[1..];
      match q[0]
      case Key(k) =>
        assert RenderTail(q) == "." + k + r;
        ParseTailKey(k, r);
        if k == "" && r != [] && r[0] == '[' {
          assert q[1].IsBracket();
        }
      case Index(i) =>
        assert RenderTail(q) == "[" + NatToString(i) + "]" + r;
        ParseTailIndex(i, r);
      case Wildcard =>
        assert RenderTail(q) == "[]" + r;
        ParseTailWildcard(r);
    }
  }

  /** Writing a well-formed path down and parsing it gives it back. */
  lemma ParseRender(p: Path)
    requires WellFormed(p)
    ensures Parse(Render(p)) == Some(p)
  {
    var s := Render(p);
    ParseRenderTail(p[1..]);
    RenderTailStart(p[1..]);
    if p[0].Key? {
      var k := p[0].name;
      var r := RenderTail(p[1..]);
      KeyLengthOfPlain(k, r);
      assert s[..|k|] == k && s[|k|..] == r;
      assert p == [Key(k)] + p[1..];
      if k == "" && |p| > 1 {
        assert p[1].Key?;
        assert p[1..][0] == p[1];
        assert r == RenderToken(p[1]) + RenderTail(p[1..][1..]);
        assert r[0] == '.';
      }
    } else {
      ParseRenderTail(p);
      RenderTailStart(p);
      assert KeyLength(s) == 0;
      assert s[0..] == s;
    }
  }

  /** Appending `[i]` to a rendered path appends an index token, unless the
      path ends in an empty key (which the bracket then swallows). */
  lemma ParseAppendIndex(p: Path, i: nat)
    requires WellFormed(p) && p[|p| - 1] != Key("")
    ensures Parse(Render(p) + "[" + NatToString(i) + "]") == Some(p + [Index(i)])
  {
    AppendIndexWellFormed(p, i);
    RenderAppendIndex(p, i);
    ParseRender(p + [Index(i)]);
  }

  lemma AppendIndexWellFormed(p: Path, i: nat)
    requires WellFormed(p) && p[|p| - 1] != Key("")
    ensures WellFormed(p + [Index(i)])
  {
    var q := p + [Index(i)];
    assert forall j :: 0 <= j < |p| ==> q[j] == p[j];
  }

  lemma RenderAppendIndex(p: Path, i: nat)
    requires |p| >= 1
    ensures Render(p) + "[" + NatToString(i) + "]" == Render(p + [Index(i)])
  {
    RenderAppend(p, [Index(i)]);
    RenderIndexTail(i);
    BracketAssoc(Render(p), NatToString(i));
  }

  lemma RenderIndexTail(i: nat)
    ensures RenderTail([Index(i)]) == "[" + NatToString(i) + "]"
  {
    assert [Index(i)][1..] == [];
  }

  lemma BracketAssoc(r: string, d: string)
    ensures r + "[" + d + "]" == r + ("[" + d + "]")
  {
  }

  /** Tokens `q` in front of a parse result. */
  function Prepend(q: Path, r: Option<Path>): Option<Path> {
    match r
    case None => None
    case Some(t) => Some(q + t)
  }

  lemma PrependCons(q: Path, r: Option<Path>)
    requires q != []
    ensures Prepend([q[0]], Prepend(q[1..], r)) == Prepend(q, r)
  {
    assert q == [q[0]] + q[1..];
    match r
    case None =>
    case Some(t) => assert [q[0]] + (q[1..] + t) == q + t;
  }

  /** One token written before text that starts a new token. */
  lemma ParseTailCons(tok: Token, r: string)
    requires tok.Key? ==> PlainKey(tok.name)
    requires r == [] || r[0] == '.' || r[0] == '['
    requires tok == Key("") ==> r == [] || r[0] != '['
    ensures ParseTail(RenderToken(tok) + r) == Prepend([tok], ParseTail(r))
  {
    match tok
    case Key(k) => ParseTailKey(k, r);
    case Index(i) => ParseTailIndex(i, r);
    case Wildcard => ParseTailWildcard(r);
  }

  /** Parsing a rendered tail followed by more text: the tail's tokens come
      first, unless an empty key at its end meets a bracket. */
  lemma {:induction false} ParseTailThen(q: Path, x: string)
    requires forall i :: 0 <= i < |q| && q[i].Key? ==> PlainKey(q[i].name)
    requires forall i :: 0 <= i < |q| - 1 && q[i] == Key("") ==> !q[i + 1].IsBracket()
    requires x == [] || x[0] == '.' || x[0] == '['
    requires q != [] && q[|q| - 1] == Key("") ==> x == [] || x[0] != '['
    ensures ParseTail(RenderTail(q) + x) == Prepend(q, ParseTail(x))
  {
    if q == [] {
      assert RenderTail(q) + x == x;
      match ParseTail(x)
      case None =>
      case Some(t) => assert q + t == t;
    } else {
      var r := RenderTail(q[1..]) + x;
      assert ParseTail(r) == Prepend(q[1..], ParseTail(x)) by {
        ParseTailThen(q[1..], x);
      }
      assert q[0] == Key("") ==> r == [] || r[0] != '[' by {
        if |q| > 1 {
          assert q[1..][0] == q[1];
          RenderTailStart(q[1..]);
        }
      }
      assert r == [] || r[0] == '.' || r[0] == '[' by {
        RenderTailStart(q[1..]);
      }
      assert q[0].Key? ==> PlainKey(q[0].name);
      ParseTailThenStep(q, x, r);
      RenderTailCons(q, x);
    }
  }

  lemma ParseTailThenStep(q: Path, x: string, r: string)
    requires q != [] && (q[0].Key? ==> PlainKey(q[0].name))
    requires r == [] || r[0] == '.' || r[0] == '['
    requires q[0] == Key("") ==> r == [] || r[0] != '['
    requires ParseTail(r) == Prepend(q[1..], ParseTail(x))
    ensures ParseTail(RenderToken(q[0]) + r) == Prepend(q, ParseTail(x))
  {
    ParseTailCons(q[0], r);
    PrependCons(q, ParseTail(x));
  }

  lemma RenderTailCons(q: Path, x: string)
    requires q != []
    ensures RenderTail(q) + x == RenderToken(q[0]) + (RenderTail(q[1..]) + x)
  {
  }

  /** Parsing a rendered path followed by more text. */
  lemma ParseThen(p: Path, x: string)
    requires WellFormed(p)
    requires x == [] || x[0] == '.' || x[0] == '['
    requires p[|p| - 1] == Key("") ==> x == [] || x[0] != '['
    ensures Parse(Render(p) + x) == Prepend(p, ParseTail(x))
  {
    if p[0].Key? {
      ParseThenKey(p, x);
    } else {
      var s := Render(p) + x;
      ParseTailThen(p, x);
      RenderTailStart(p);
      assert KeyLength(s) == 0;
      assert s[0..] == s;
    }
  }

  lemma ParseThenKey(p: Path, x: string)
    requires WellFormed(p) && p[0].Key?
    requires x == [] || x[0] == '.' || x[0] == '['
    requires p[|p| - 1] == Key("") ==> x == [] || x[0] != '['
    ensures Parse(Render(p) + x) == Prepend(p, ParseTail(x))
  {
    var r := RenderTail(p[1..]) + x;
    ParseAfterFirstKey(p, x);
    KeyTailStart(p, x);
    ParseKeyStep(p, x, r);
    RenderFirstKey(p, x);
  }

  lemma RenderFirstKey(p: Path, x: string)
    requires p != [] && p[0].Key?
    ensures Render(p) + x == p[0].name + (RenderTail(p[1..]) + x)
  {
    var t := RenderTail(p[1..]);
    assert Render(p) == p[0].name + t;
    assert (p[0].name + t) + x == p[0].name + (t + x);
  }

  /** The text after a leading key parses to the remaining tokens. */
  lemma ParseAfterFirstKey(p: Path, x: string)
    requires WellFormed(p)
    requires x == [] || x[0] == '.' || x[0] == '['
    requires p[|p| - 1] == Key("") ==> x == [] || x[0] != '['
    ensures ParseTail(RenderTail(p[1..]) + x) == Prepend(p[1..], ParseTail(x))
  {
    ParseTailThen(p[1..], x);
  }

  /** The text after a leading key starts a new token, and after an empty
      key it does not open a bracket. */
  lemma KeyTailStart(p: Path, x: string)
    requires WellFormed(p)
    requires x == [] || x[0] == '.' || x[0] == '['
    requires p[|p| - 1] == Key("") ==> x == [] || x[0] != '['
    ensures var r := RenderTail(p[1..]) + x; r == [] || r[0] == '.' || r[0] == '['
    ensures var r := RenderTail(p[1..]) + x; p[0] == Key("") ==> r == [] || r[0] != '['
  {
    RenderTailStart(p[1..]);
    if |p| > 1 {
      assert p[1..][0] == p[1];
    }
  }

  lemma ParseKeyStep(p: Path, x: string, r: string)
    requires p != [] && p[0].Key? && PlainKey(p[0].name)
    requires r == [] || r[0] == '.' || r[0] == '['
    requires p[0].name == "" ==> r == [] || r[0] != '['
    requires ParseTail(r) == Prepend(p[1..], ParseTail(x))
    ensures Parse(p[0].name + r) == Prepend(p, ParseTail(x))
  {
    var k := p[0].name;
    KeyLengthOfPlain(k, r);
    assert (k + r)[..|k|] == k && (k + r)[|k|..] == r;
    PrependCons(p, ParseTail(x));
  }

  /** `.[i]` reads as the index alone: the empty key before the bracket is
      dropped. */
  lemma ParseTailDotIndex(i: nat)
    ensures ParseTail(".[" + NatToString(i) + "]") == Some([Index(i)])
  {
    var d := NatToString(i);
    var b := "[" + d + "]";
    ParseTailIndexAlone(i);
    ParseTailKey("", b);
    DotEmptyKeyString(d);
  }

  lemma ParseTailIndexAlone(i: nat)
    ensures ParseTail("[" + NatToString(i) + "]") == Some([Index(i)])
  {
    var b := "[" + NatToString(i) + "]";
    ParseTailIndex(i, "");
    assert b + "" == b;
    assert [Index(i)] + [] == [Index(i)];
  }

  lemma DotEmptyKeyString(d: string)
    ensures "." + "" + ("[" + d + "]") == ".[" + d + "]"
  {
  }

  // ---------------------------------------------------------------------
  // Tokens as written, and how lodash reads them

  /** A key with no dot or bracket reads as that one key. */
  lemma ParsePlainKey(k: string)
    ensures PlainKey(k) ==> Parse(k) == Some([Key(k)])
  {
    if PlainKey(k) {
      assert Render([Key(k)]) == k;
      ParseRender([Key(k)]);
    }
  }

  /** No empty key directly before a bracket. */
  predicate Clean(p: Path) {
    forall i :: 0 <= i < |p| - 1 && p[i] == Key("") ==> !p[i + 1].IsBracket()
  }

  /** A written prefix that ends in something other than an empty key:
      what follows it does not change how it is read. */
  predicate Anchored(q: Path) {
    q != [] && q[|q| - 1] != Key("")
  }

  predicate PlainKeys(p: Path) {
    forall i :: 0 <= i < |p| && p[i].Key? ==> PlainKey(p[i].name)
  }

  /** The tokens lodash reads from the text that `p` spells: an empty key
      directly before a bracket is dropped (`a.[0]` is `a[0]`), any other
      token is kept. */
  function Resolve(p: Path): (r: Path)
    ensures |r| <= |p|
  {
    if p == [] then []
    else if p[0] == Key("") && |p| > 1 && p[1].IsBracket() then Resolve(p[1..])
    else [p[0]] + Resolve(p[1..])
  }

  /** The tokens a path string spells, with every empty key kept: what is
      left when the string is cut just before one of its brackets still
      reads as the same prefix of these tokens. */
  function RawParseTail(s: string): (r: Option<Path>)
    decreases |s|
  {
    if s == [] then Some([])
    else if s[0] == '.' then
      var n := KeyLength(s[1..]);
      Prepend([Key(s[1..][..n])], RawParseTail(s[1 + n..]))
    else if s[0] == '[' then
      var n := DigitLength(s[1..]);
      if 1 + n < |s| && s[1 + n] == ']' then
        var d := s[1..][..n];
        if d == "" then Prepend([Wildcard], RawParseTail(s[2..]))
        else if CanonicalDigits(d) then Prepend([Index(DigitsValue(d))], RawParseTail(s[2 + n..]))
        else None
      else None
    else None
  }

  function RawParse(s: string): (r: Option<Path>) {
    var n := KeyLength(s);
    Prepend([Key(s[..n])], RawParseTail(s[n..]))
  }

  function ResolveOpt(r: Option<Path>): Option<Path> {
    match r
    case None => None
    case Some(p) => Some(Resolve(p))
  }

  lemma ResolveCons(x: Token, q: Path)
    ensures Resolve([x] + q) ==
      if x == Key("") && q != [] && q[0].IsBracket() then Resolve(q) else [x] + Resolve(q)
  {
    assert ([x] + q)[1..] == q;
  }

  /** Resolving distributes over a join that does not put an empty key
      right before a bracket. */
  lemma {:induction false} ResolveAppend(q: Path, r: Path)
    requires !(q != [] && q[|q| - 1] == Key("") && r != [] && r[0].IsBracket())
    ensures Resolve(q + r) == Resolve(q) + Resolve(r)
    decreases |q|
  {
    if q == [] {
      assert q + r == r;
    } else {
      var x, q' := q[0], q[1..];
      ConsSplit(q, r);
      ResolveAppend(q', r);
      ResolveAppendCons(x, q', r);
    }
  }

  /** The step of `ResolveAppend`: one more token in front. */
  lemma ResolveAppendCons(x: Token, q: Path, r: Path)
    requires Resolve(q + r) == Resolve(q) + Resolve(r)
    requires !(q == [] && x == Key("") && r != [] && r[0].IsBracket())
    ensures Resolve([x] + (q + r)) == Resolve([x] + q) + Resolve(r)
  {
    if q == [] {
      ResolveAppendLone(x, r);
    } else if x == Key("") && q[0].IsBracket() {
      ResolveAppendDrop(q, r);
    } else {
      ResolveAppendKeep(x, q, r);
    }
  }

  lemma ResolveAppendLone(x: Token, r: Path)
    requires !(x == Key("") && r != [] && r[0].IsBracket())
    ensures Resolve([x] + ([] + r)) == Resolve([x] + []) + Resolve(r)
  {
    assert [] + r == r;
    ResolveKeep(x, r);
    ResolveKeep(x, []);
  }

  lemma ResolveAppendDrop(q: Path, r: Path)
    requires q != [] && q[0].IsBracket()
    requires Resolve(q + r) == Resolve(q) + Resolve(r)
    ensures Resolve([Key("")] + (q + r)) == Resolve([Key("")] + q) + Resolve(r)
  {
    assert (q + r)[0] == q[0];
    ResolveDrop(q + r);
    ResolveDrop(q);
  }

  lemma ResolveAppendKeep(x: Token, q: Path, r: Path)
    requires q != [] && !(x == Key("") && q[0].IsBracket())
    requires Resolve(q + r) == Resolve(q) + Resolve(r)
    ensures Resolve([x] + (q + r)) == Resolve([x] + q) + Resolve(r)
  {
    KeepFront(x, q, r);
    ResolveKeep(x, q);
    ConsAssoc(x, Resolve(q), Resolve(r));
  }

  lemma KeepFront(x: Token, q: Path, r: Path)
    requires q != [] && !(x == Key("") && q[0].IsBracket())
    ensures Resolve([x] + (q + r)) == [x] + Resolve(q + r)
  {
    assert (q + r)[0] == q[0];
    ResolveKeep(x, q + r);
  }

  lemma ConsAssoc(x: Token, a: Path, b: Path)
    ensures [x] + (a + b) == ([x] + a) + b
  {
  }

  lemma ConsSplit(q: Path, r: Path)
    requires q != []
    ensures q == [q[0]] + q[1..] && q + r == [q[0]] + (q[1..] + r)
    ensures q[1..] == [] ==> q[1..] + r == r
    ensures q[1..] != [] ==> (q[1..] + r)[0] == q[1..][0] && q[1..][|q[1..]| - 1] == q[|q| - 1]
  {
    assert q + r == [q[0]] + (q[1..] + r);
  }

  /** An empty key right before a bracket is dropped. */
  lemma ResolveDrop(q: Path)
    requires q != [] && q[0].IsBracket()
    ensures Resolve([Key("")] + q) == Resolve(q)
  {
    assert ([Key("")] + q)[1..] == q;
  }

  /** Any other first token is kept. */
  lemma ResolveKeep(x: Token, q: Path)
    requires !(x == Key("") && q != [] && q[0].IsBracket())
    ensures Resolve([x] + q) == [x] + Resolve(q)
  {
    assert ([x] + q)[1..] == q;
  }

  /** Tokens with no empty key before a bracket are read as written. */
  lemma {:induction false} ResolveClean(p: Path)
    requires Clean(p)
    ensures Resolve(p) == p
    decreases |p|
  {
    if p != [] {
      assert Clean(p[1..]) by {
        forall i | 0 <= i < |p[1..]| - 1 && p[1..][i] == Key("")
          ensures !p[1..][i + 1].IsBracket()
        {
          assert p[1..][i] == p[i + 1] && p[1..][i + 1] == p[i + 2];
        }
      }
      ResolveClean(p[1..]);
      assert p == [p[0]] + p[1..];
    }
  }

  /** The last token is never dropped. */
  lemma {:induction false} ResolveLast(p: Path)
    requires p != []
    ensures Resolve(p) != [] && Resolve(p)[|Resolve(p)| - 1] == p[|p| - 1]
    decreases |p|
  {
    if |p| > 1 {
      ResolveLast(p[1..]);
    }
  }

  /** Only empty keys are dropped, so `[]` tokens survive. */
  lemma {:induction false} ResolveWildcard(p: Path)
    ensures HasWildcard(Resolve(p)) == HasWildcard(p)
    decreases |p|
  {
    if p != [] {
      ResolveWildcard(p[1..]);
      assert p == [p[0]] + p[1..];
      if !(p[0] == Key("") && |p| > 1 && p[1].IsBracket()) {
        assert Resolve(p) == [p[0]] + Resolve(p[1..]);
      }
    }
  }

  /** A raw tail starts with a bracket token exactly when its text starts
      with a bracket. */
  lemma RawTailStart(s: string)
    requires RawParseTail(s).Some?
    ensures (s != [] && s[0] == '[') <==>
      (RawParseTail(s).value != [] && RawParseTail(s).value[0].IsBracket())
  {
  }

  /** lodash's reading of a path string is the written tokens, resolved. */
  lemma {:induction false} ParseTailResolved(s: string)
    ensures ParseTail(s) == ResolveOpt(RawParseTail(s))
    decreases |s|
  {
    if s == [] {
    } else if s[0] == '.' {
      var n := KeyLength(s[1..]);
      var k := s[1..][..n];
      var rest := s[1 + n..];
      ParseTailResolved(rest);
      match RawParseTail(rest)
      case None =>
      case Some(rt) =>
        RawTailStart(rest);
        ResolveCons(Key(k), rt);
    } else if s[0] == '[' {
      var n := DigitLength(s[1..]);
      if 1 + n < |s| && s[1 + n] == ']' {
        var d := s[1..][..n];
        if d == "" {
          ParseTailResolved(s[2..]);
          match RawParseTail(s[2..])
          case None =>
          case Some(rt) => ResolveCons(Wildcard, rt);
        } else if CanonicalDigits(d) {
          ParseTailResolved(s[2 + n..]);
          match RawParseTail(s[2 + n..])
          case None =>
          case Some(rt) => ResolveCons(Index(DigitsValue(d)), rt);
        }
      }
    }
  }

  lemma ParseResolved(s: string)
    ensures Parse(s) == ResolveOpt(RawParse(s))
  {
    var n := KeyLength(s);
    var rest := s[n..];
    ParseTailResolved(rest);
    match RawParseTail(rest)
    case None =>
    case Some(rt) =>
      RawTailStart(rest);
      ResolveCons(Key(s[..n]), rt);
  }

  lemma RawTailKey(k: string, r: string)
    requires PlainKey(k)
    requires r == [] || r[0] == '.' || r[0] == '['
    ensures RawParseTail("." + k + r) == Prepend([Key(k)], RawParseTail(r))
  {
    var s := "." + k + r;
    assert s[1..] == k + r;
    KeyLengthOfPlain(k, r);
    assert s[1..][..|k|] == k;
    assert s[1 + |k|..] == r;
  }

  lemma RawTailIndex(i: nat, r: string)
    ensures RawParseTail("[" + NatToString(i) + "]" + r) == Prepend([Index(i)], RawParseTail(r))
  {
    var d := NatToString(i);
    var s := "[" + d + "]" + r;
    assert s[1..] == d + ("]" + r);
    DigitLengthOfDigits(d, "]" + r);
    assert s[1..][..|d|] == d;
    assert s[2 + |d|..] == r;
    DigitsValueOfNatToString(i);
  }

  lemma RawTailWildcard(r: string)
    ensures RawParseTail("[]" + r) == Prepend([Wildcard], RawParseTail(r))
  {
    var s := "[]" + r;
    assert s[1..] == "]" + r;
    assert s[2..] == r;
  }

  lemma {:induction false} RawParseRenderTail(q: Path)
    requires PlainKeys(q)
    ensures RawParseTail(RenderTail(q)) == Some(q)
    decreases |q|
  {
    if q != [] {
      var r := RenderTail(q[1..]);
      assert PlainKeys(q[1..]) by {
        forall i | 0 <= i < |q[1..]| && q[1..][i].Key? ensures PlainKey(q[1..][i].name) {
          assert q[1..][i] == q[i + 1];
        }
      }
      RawParseRenderTail(q[1..]);
      RenderTailStart(q[1..]);
      assert q == [q[0]] + q[1..];
      match q[0]
      case Key(k) =>
        assert RenderTail(q) == "." + k + r;
        RawTailKey(k, r);
      case Index(i) =>
        assert RenderTail(q) == "[" + NatToString(i) + "]" + r;
        RawTailIndex(i, r);
      case Wildcard =>
        assert RenderTail(q) == "[]" + r;
        RawTailWildcard(r);
    }
  }

  /** A path that starts with a key is written down and read back as the
      same tokens, empty keys included. */
  lemma RawParseRender(p: Path)
    requires p != [] && p[0].Key? && PlainKeys(p)
    ensures RawParse(Render(p)) == Some(p)
  {
    var k := p[0].name;
    var r := RenderTail(p[1..]);
    assert PlainKeys(p[1..]) by {
      forall i | 0 <= i < |p[1..]| && p[1..][i].Key? ensures PlainKey(p[1..][i].name) {
        assert p[1..][i] == p[i + 1];
      }
    }
    RawParseRenderTail(p[1..]);
    RenderTailStart(p[1..]);
    KeyLengthOfPlain(k, r);
    assert Render(p) == k + r;
    assert (k + r)[..|k|] == k && (k + r)[|k|..] == r;
    assert p == [Key(k)] + p[1..];
  }

  /** A key run that stops inside `x` stops there in `x + y` too. */
  lemma {:induction false} KeyLengthAppend(x: string, y: string)
    requires KeyLength(x) < |x| || y == [] || !IsKeyChar(y[0])
    ensures KeyLength(x + y) == KeyLength(x)
  {
    var n := KeyLength(x);
    var r := x[n..] + y;
    assert x + y == x[..n] + r;
    if n < |x| {
      assert r[0] == x[n];
    } else {
      assert r == y;
    }
    KeyLengthOfPlain(x[..n], r);
  }

  /** A digit run that stops inside `x` stops there in `x + y` too. */
  lemma {:induction false} DigitLengthAppend(x: string, y: string)
    requires DigitLength(x) < |x|
    ensures DigitLength(x + y) == DigitLength(x)
  {
    var n := DigitLength(x);
    var r := x[n..] + y;
    assert x + y == x[..n] + r;
    assert r[0] == x[n];
    DigitLengthOfDigits(x[..n], r);
  }

  /** `.key` then more text, followed by a bracket. */
  lemma {:induction false} RawTailDotStep(x: string, b: string)
    requires x != [] && x[0] == '.' && b != [] && b[0] == '['
    ensures var n := KeyLength(x[1..]);
      RawParseTail(x + b) == Prepend([Key(x[1..][..n])], RawParseTail(x[1 + n..] + b))
  {
    var n := KeyLength(x[1..]);
    DotSplit(x, b);
    RawTailDot(x + b, n, x[1..][..n], x[1 + n..] + b);
  }

  /** Where the key after the dot ends when a bracket follows the text. */
  lemma {:induction false} DotSplit(x: string, b: string)
    requires x != [] && x[0] == '.' && b != [] && b[0] == '['
    ensures var n := KeyLength(x[1..]);
      && 1 + n <= |x|
      && KeyLength((x + b)[1..]) == n
      && (x + b)[1..][..n] == x[1..][..n]
      && (x + b)[1 + n..] == x[1 + n..] + b
  {
    var s := x + b;
    var x1 := x[1..];
    var n := KeyLength(x1);
    assert s[1..] == x1 + b;
    KeyLengthAppend(x1, b);
    assert s[1..][..n] == x1[..n];
    assert s[1 + n..] == x[1 + n..] + b;
  }

  /** One step of reading `.key` from the front of the text. */
  lemma RawTailDot(s: string, n: nat, k: string, rest: string)
    requires s != [] && s[0] == '.' && n == KeyLength(s[1..])
    requires s[1..][..n] == k && s[1 + n..] == rest
    ensures RawParseTail(s) == Prepend([Key(k)], RawParseTail(rest))
  {
  }

  /** `[...]` then more text, followed by anything. */
  lemma {:induction false} RawTailBracketStep(x: string, b: string) returns (tok: Token, rest: string)
    requires x != [] && x[0] == '[' && RawParseTail(x).Some?
    ensures |rest| < |x|
    ensures RawParseTail(x) == Prepend([tok], RawParseTail(rest))
    ensures RawParseTail(x + b) == Prepend([tok], RawParseTail(rest + b))
  {
    var s := x + b;
    var n := DigitLength(x[1..]);
    assert 1 + n < |x| && x[1 + n] == ']';
    assert s[1..] == x[1..] + b;
    DigitLengthAppend(x[1..], b);
    var d := x[1..][..n];
    assert s[1..][..n] == d;
    assert s[0] == '[' && s[1 + n] == ']';
    if d == "" {
      tok, rest := Wildcard, x[2..];
      assert s[2..] == rest + b;
    } else {
      tok, rest := Index(DigitsValue(d)), x[2 + n..];
      assert s[2 + n..] == rest + b;
    }
  }

  lemma {:induction false} RawTailAppendIndex(x: string, i: nat)
    requires RawParseTail(x).Some?
    ensures RawParseTail(x + ("[" + NatToString(i) + "]")) == Some(RawParseTail(x).value + [Index(i)])
    decreases |x|
  {
    var b := "[" + NatToString(i) + "]";
    if x == [] {
      assert x + b == b + "";
      RawTailIndex(i, "");
      assert RawParseTail("") == Some([]);
      assert RawParseTail(x).value == [];
      assert [Index(i)] + [] == [] + [Index(i)];
    } else if x[0] == '.' {
      var n := KeyLength(x[1..]);
      RawTailDotStep(x, b);
      RawTailAppendIndex(x[1 + n..], i);
      var t := RawParseTail(x[1 + n..]).value;
      assert [Key(x[1..][..n])] + (t + [Index(i)]) == ([Key(x[1..][..n])] + t) + [Index(i)];
    } else {
      var tok, rest := RawTailBracketStep(x, b);
      RawTailAppendIndex(rest, i);
      var t := RawParseTail(rest).value;
      assert [tok] + (t + [Index(i)]) == ([tok] + t) + [Index(i)];
    }
  }

  /** `[i]` after any path string appends `Index(i)` to its written
      tokens: no empty key is dropped, whatever comes before the bracket. */
  lemma {:induction false} RawParseAppendIndex(s: string, i: nat)
    requires RawParse(s).Some?
    ensures RawParse(s + "[" + NatToString(i) + "]") == Some(RawParse(s).value + [Index(i)])
  {
    var b := "[" + NatToString(i) + "]";
    var sb := s + b;
    assert s + "[" + NatToString(i) + "]" == sb;
    var n := KeyLength(s);
    KeyLengthAppend(s, b);
    assert sb[..n] == s[..n];
    assert sb[n..] == s[n..] + b;
    RawTailAppendIndex(s[n..], i);
    var t := RawParseTail(s[n..]).value;
    assert RawParse(sb) == Prepend([Key(s[..n])], RawParseTail(s[n..] + b));
    assert [Key(s[..n])] + (t + [Index(i)]) == ([Key(s[..n])] + t) + [Index(i)];
  }
}
