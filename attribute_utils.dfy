/** `stripAttributes` and `coerceArray`. */
module AttributeUtils {
  import opened JsonValues
  import opened Text

  /** `stripAttributes(s, a)`: the first `a.` becomes `.`; the regular
      expression has no global flag, so later ones stay. */
  function StripAttributes(s: string, a: string): string {
    ReplaceFirst(s, a + ".", ".")
  }

  /** Without an `a.` in `s`, nothing changes; with one, the result is
      `|a|` characters shorter, agrees with `s` before the match and after
      it, and putting `a` back at the match gives `s` again. */
  lemma StripAttributesSpec(s: string, a: string)
    ensures FindFrom(s, a + ".", 0).None? ==> StripAttributes(s, a) == s
    ensures FindFrom(s, a + ".", 0).Some? ==>
      var i := FindFrom(s, a + ".", 0).value;
      var r := StripAttributes(s, a);
      && |r| == |s| - |a|
      && r[..i] == s[..i] && r[i] == '.' && r[i + 1..] == s[i + |a| + 1..]
      && r[..i] + a + r[i..] == s
  {
    match FindFrom(s, a + ".", 0)
    case None =>
    case Some(i) =>
      ReplaceAt(s, a + ".", ".", i);
      var r := s[..i] + "." + s[i + |a| + 1..];
      Regroup(r, a, i);
  }

  lemma Regroup(r: string, a: string, i: nat)
    requires i < |r| && r[i] == '.'
    ensures r[..i] + (a + ".") + r[i + 1..] == r[..i] + a + r[i..]
  {
    assert r[i..] == "." + r[i + 1..];
  }

  /** Stripping undoes the renaming of one path segment: with `k` and `a`
      free of dots, `k` + `a` + `.rest` strips to `k.rest`. */
  lemma StripRenamedKey(k: string, a: string, rest: string)
    requires '.' !in k && '.' !in a
    ensures StripAttributes(k + a + "." + rest, a) == k + "." + rest
  {
    var s := k + a + "." + rest;
    var pat := a + ".";
    forall j | 0 <= j < |k|
      ensures !OccursAt(s, pat, j)
    {
      if j + |a| < |k| {
        assert s[j + |a|] == k[j + |a|];
      } else {
        assert s[j + |a|] == a[j + |a| - |k|];
      }
      assert j + |pat| <= |s| ==> s[j..j + |pat|][|a|] == s[j + |a|];
    }
    assert s[|k|..|k| + |pat|] == pat;
    FindFromFirst(s, pat, |k|);
    assert s[..|k|] == k;
    assert s[|k| + |a| + 1..] == rest;
  }

  /** `coerceArray(arg)`: an array as it is, anything else wrapped. */
  function CoerceArray(arg: Json): (r: Json)
    ensures r.Arr?
    ensures arg.Arr? ==> r == arg
    ensures !arg.Arr? ==> r.items == [arg]
  {
    if arg.Arr? then arg else Arr([arg])
  }
}
