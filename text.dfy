/** First-occurrence search and replacement in strings, as JavaScript's
    `String.prototype.replace` does with a string or a non-global pattern. */
module Text {
  import opened JsonValues

  /** `pat` occurs in `s` starting at `i`. */
  predicate OccursAt(s: string, pat: string, i: nat) {
    i + |pat| <= |s| && s[i..i + |pat|] == pat
  }

  /** The first position, from `i` on, where `pat` occurs in `s`. */
  function FindFrom(s: string, pat: string, i: nat): (r: Option<nat>)
    ensures r.Some? ==> i <= r.value && OccursAt(s, pat, r.value)
    ensures r.Some? ==> forall j :: i <= j < r.value ==> !OccursAt(s, pat, j)
    ensures r.None? ==> forall j :: i <= j ==> !OccursAt(s, pat, j)
    decreases |s| - i
  {
    if i + |pat| > |s| then None
    else if s[i..i + |pat|] == pat then Some(i)
    else FindFrom(s, pat, i + 1)
  }

  /** An occurrence with none before it is the one found. */
  lemma FindFromFirst(s: string, pat: string, m: nat)
    requires OccursAt(s, pat, m)
    requires forall j :: 0 <= j < m ==> !OccursAt(s, pat, j)
    ensures FindFrom(s, pat, 0) == Some(m)
  {
    var r := FindFrom(s, pat, 0);
    assert r.Some? ==> OccursAt(s, pat, r.value);
  }

  /** `s.replace(pat, rep)`: the first occurrence of `pat` becomes `rep`. */
  function ReplaceFirst(s: string, pat: string, rep: string): string {
    match FindFrom(s, pat, 0)
    case None => s
    case Some(i) => s[..i] + rep + s[i + |pat|..]
  }

  /** Without an occurrence nothing changes; with one, the result agrees with
      `s` before it and after it, holds `rep` in its place, and putting `pat`
      back gives `s` again. */
  lemma ReplaceFirstSpec(s: string, pat: string, rep: string)
    ensures FindFrom(s, pat, 0).None? ==> ReplaceFirst(s, pat, rep) == s
    ensures FindFrom(s, pat, 0).Some? ==>
      var i := FindFrom(s, pat, 0).value;
      var r := ReplaceFirst(s, pat, rep);
      && |r| == |s| - |pat| + |rep|
      && r[..i] == s[..i] && r[i..i + |rep|] == rep && r[i + |rep|..] == s[i + |pat|..]
      && r[..i] + pat + r[i + |rep|..] == s
  {
    match FindFrom(s, pat, 0)
    case None =>
    case Some(i) =>
      ReplaceAt(s, pat, rep, i);
  }

  /** Replacing the occurrence of `pat` at `i` by `rep`. */
  lemma ReplaceAt(s: string, pat: string, rep: string, i: nat)
    requires OccursAt(s, pat, i)
    ensures var r := s[..i] + rep + s[i + |pat|..];
      && |r| == |s| - |pat| + |rep|
      && r[..i] == s[..i] && r[i..i + |rep|] == rep && r[i + |rep|..] == s[i + |pat|..]
      && r[..i] + pat + r[i + |rep|..] == s
  {
    var r := s[..i] + rep + s[i + |pat|..];
    assert r[..i] == s[..i];
    assert r[i..i + |rep|] == rep;
    assert r[i + |rep|..] == s[i + |pat|..];
    assert s == s[..i] + s[i..i + |pat|] + s[i + |pat|..];
  }

  /** Number of occurrences of the character `c`. */
  function Count(s: string, c: char): nat {
    multiset(s)[c]
  }

  /** Replacing the first `c` by another character removes one `c` when
      there is one. */
  lemma ReplaceCharCount(s: string, c: char, d: char)
    requires c != d
    ensures Count(ReplaceFirst(s, [c], [d]), c) == if c in s then Count(s, c) - 1 else Count(s, c)
  {
    match FindFrom(s, [c], 0)
    case None =>
      NotFoundAbsent(s, c);
    case Some(i) =>
      CountAt(s, c, d, i);
  }

  lemma NotFoundAbsent(s: string, c: char)
    requires FindFrom(s, [c], 0).None?
    ensures c !in s
  {
    if c in s {
      var j :| 0 <= j < |s| && s[j] == c;
      assert OccursAt(s, [c], j);
    }
  }

  lemma CountAt(s: string, c: char, d: char, i: nat)
    requires c != d && OccursAt(s, [c], i)
    ensures c in s
    ensures Count(s[..i] + [d] + s[i + 1..], c) == Count(s, c) - 1
  {
    assert s[i] == c by { assert s[i..i + 1] == [c]; }
    assert s == s[..i] + [c] + s[i + 1..];
  }
}
