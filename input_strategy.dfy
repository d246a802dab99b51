/** `inputStrategy`: the `name` and `id` attributes of an input, built from
    the input's own name and the model (form model plus nested scopes) it
    sits in. Two versions: `src/useInertiaInput/inputStrategy.ts` and the
    older one inside `src/useInertiaInput.ts`. */
module InputStrategy {
  import opened JsonValues
  import opened Paths
  import opened Text

  datatype InputIds = InputIds(inputId: string, inputName: string)

  /** `!model`: no model, or the empty string. */
  predicate Falsy(model: Option<string>) {
    model.None? || model.value == ""
  }

  /** `name.charAt(0) === '['`. */
  predicate StartsWithBracket(name: string) {
    |name| > 0 && name[0] == '['
  }

  /** The `name` attribute under a model: an index or `[]` is appended
      directly, a key after a dot. */
  function InputName(name: string, model: string): string {
    if StartsWithBracket(name) then model + name else model + "." + name
  }

  /** `/\[(\d)\]/` matches at `i`: a bracket, one ASCII digit, a bracket. */
  predicate DigitIndexAt(s: string, i: nat) {
    i + 3 <= |s| && s[i] == '[' && IsDigit(s[i + 1]) && s[i + 2] == ']'
  }

  /** The first match of `/\[(\d)\]/` from `i` on. */
  function FindDigitIndex(s: string, i: nat): (r: Option<nat>)
    ensures r.Some? ==> i <= r.value && DigitIndexAt(s, r.value)
    ensures r.Some? ==> forall j :: i <= j < r.value ==> !DigitIndexAt(s, j)
    ensures r.None? ==> forall j :: i <= j ==> !DigitIndexAt(s, j)
    decreases |s| - i
  {
    if i + 3 > |s| then None
    else if DigitIndexAt(s, i) then Some(i)
    else FindDigitIndex(s, i + 1)
  }

  /** `s.replace(/\[(\d)\]/, '_$1')`: the first one-digit index `[d]`
      becomes `_d`. */
  function ReplaceDigitIndex(s: string): string {
    match FindDigitIndex(s, 0)
    case None => s
    case Some(i) => s[..i] + "_" + [s[i + 1]] + s[i + 3..]
  }

  /** The current `inputStrategy(name, model)`. */
  function Strategy(name: string, model: Option<string>): (r: InputIds)
    ensures Falsy(model) ==> r.inputId == name && r.inputName == name
    ensures !Falsy(model) ==> model.value <= r.inputName
  {
    if Falsy(model) then InputIds(name, name)
    else
      var m := model.value;
      InputIds(ReplaceDigitIndex(ReplaceFirst(m + "_" + name, ".", "_")), InputName(name, m))
  }

  /** The older `inputStrategy(name, model)`: the dot is replaced in the
      model alone, before the name is appended. */
  function LegacyStrategy(name: string, model: Option<string>): (r: InputIds)
    ensures Falsy(model) ==> r.inputId == name && r.inputName == name
    ensures !Falsy(model) ==> model.value <= r.inputName
  {
    if Falsy(model) then InputIds(name, name)
    else
      var m := model.value;
      InputIds(ReplaceDigitIndex(ReplaceFirst(m, ".", "_") + "_" + name), InputName(name, m))
  }

  /** Both versions name the input alike. */
  lemma SameInputName(name: string, model: Option<string>)
    ensures Strategy(name, model).inputName == LegacyStrategy(name, model).inputName
  {
  }

  /** Without a one-digit index nothing changes; with one, `[d]` at the
      first match becomes `_d`, one character shorter, the rest kept. */
  lemma ReplaceDigitIndexSpec(s: string)
    ensures FindDigitIndex(s, 0).None? ==> ReplaceDigitIndex(s) == s
    ensures FindDigitIndex(s, 0).Some? ==>
      var i := FindDigitIndex(s, 0).value;
      var r := ReplaceDigitIndex(s);
      && |r| == |s| - 1
      && r[..i] == s[..i] && r[i] == '_' && r[i + 1] == s[i + 1] && r[i + 2..] == s[i + 3..]
  {
    match FindDigitIndex(s, 0)
    case None =>
    case Some(i) =>
      var r := s[..i] + "_" + [s[i + 1]] + s[i + 3..];
      assert r[..i] == s[..i];
      assert r[i + 2..] == s[i + 3..];
  }

  /** An index of two or more digits is never matched. */
  lemma MultiDigitIndexKept(s: string, i: nat)
    requires i + 4 <= |s| && s[i] == '[' && IsDigit(s[i + 1]) && IsDigit(s[i + 2])
    ensures !DigitIndexAt(s, i)
  {
  }

  /** The index replacement touches no dot. */
  lemma ReplaceDigitIndexDots(s: string)
    ensures Count(ReplaceDigitIndex(s), '.') == Count(s, '.')
  {
    match FindDigitIndex(s, 0)
    case None =>
    case Some(i) =>
      assert s == s[..i] + s[i..i + 3] + s[i + 3..];
      assert s[i..i + 3] == ['[', s[i + 1], ']'];
  }

  /** In the current id the first dot of `model_name` is replaced, wherever
      it is: one dot fewer than model and name hold together. */
  lemma StrategyIdDots(name: string, m: string)
    requires m != ""
    ensures var dots := Count(m, '.') + Count(name, '.');
      Count(Strategy(name, Some(m)).inputId, '.') == if dots > 0 then dots - 1 else 0
  {
    var s := m + "_" + name;
    ReplaceCharCount(s, '.', '_');
    ReplaceDigitIndexDots(ReplaceFirst(s, ".", "_"));
    assert Count(s, '.') == Count(m, '.') + Count(name, '.');
    if '.' !in s {
      assert Count(s, '.') == 0;
    }
  }

  /** In the older id only a dot of the model can be replaced: every dot of
      the name survives. */
  lemma LegacyIdDots(name: string, m: string)
    requires m != ""
    ensures Count(LegacyStrategy(name, Some(m)).inputId, '.') ==
      (if '.' in m then Count(m, '.') - 1 else 0) + Count(name, '.')
  {
    var m1 := ReplaceFirst(m, ".", "_");
    ReplaceCharCount(m, '.', '_');
    ReplaceDigitIndexDots(m1 + "_" + name);
    assert Count(m1 + "_" + name, '.') == Count(m1, '.') + Count(name, '.');
    if '.' !in m {
      assert Count(m, '.') == 0;
    }
  }

  /** The two ids differ exactly in where the dot is looked for: with a dot
      in the model they agree. */
  lemma IdsAgreeWithDottedModel(name: string, m: string)
    requires '.' in m
    ensures Strategy(name, Some(m)).inputId == LegacyStrategy(name, Some(m)).inputId
  {
    var i := FirstDot(m);
    var s := m + "_" + name;
    assert OccursAt(s, ".", i) by { assert s[i..i + 1] == m[i..i + 1]; }
    forall j | 0 <= j < i
      ensures !OccursAt(s, ".", j)
    {
      assert s[j..j + 1] == m[j..j + 1];
    }
    FindFromFirst(s, ".", i);
    assert s[..i] == m[..i];
    assert s[i + 1..] == m[i + 1..] + "_" + name;
    assert ReplaceFirst(s, ".", "_") == ReplaceFirst(m, ".", "_") + "_" + name;
  }

  /** The first dot of `m`, found by `ReplaceFirst`. */
  lemma FirstDot(m: string) returns (i: nat)
    requires '.' in m
    ensures FindFrom(m, ".", 0) == Some(i) && i < |m| && m[i] == '.'
    ensures forall j :: 0 <= j < i ==> m[j] != '.'
  {
    var r := FindFrom(m, ".", 0);
    if r.None? {
      var j :| 0 <= j < |m| && m[j] == '.';
      assert OccursAt(m, ".", j);
    }
    i := r.value;
    assert m[i..i + 1] == ".";
    forall j | 0 <= j < i
      ensures m[j] != '.'
    {
      if m[j] == '.' {
        assert m[j..j + 1] == ".";
        assert OccursAt(m, ".", j);
      }
    }
  }

  /** The input name is the path of the model followed by the path of the
      name: reading it back gives the model's tokens and then the name's. */
  lemma InputNameJoinsPaths(pm: Path, pn: Path)
    requires WellFormed(pm) && WellFormed(pn) && Render(pm) != ""
    requires pn[0].IsBracket() ==> pm[|pm| - 1] != Key("")
    ensures Parse(Strategy(Render(pn), Some(Render(pm))).inputName) == Some(pm + pn)
  {
    InputNameRenders(pm, pn);
    WellFormedAppend(pm, pn);
    ParseRender(pm + pn);
  }

  /** Under a model, the input name is the rendering of both paths. */
  lemma InputNameRenders(pm: Path, pn: Path)
    requires WellFormed(pn) && |pm| >= 1
    ensures InputName(Render(pn), Render(pm)) == Render(pm + pn)
  {
    RenderAppend(pm, pn);
    if pn[0].Key? {
      NameAfterDot(pn);
    } else {
      RenderTailStart(pn);
      assert Render(pn) == RenderTail(pn);
    }
  }

  /** A name that starts with a key is written after a dot. */
  lemma NameAfterDot(pn: Path)
    requires WellFormed(pn) && pn[0].Key?
    ensures !StartsWithBracket(Render(pn)) && "." + Render(pn) == RenderTail(pn)
  {
    KeyFirst(pn);
    if pn[0].name == "" {
      EmptyKeyFirst(pn);
    } else {
      assert IsKeyChar(pn[0].name[0]);
    }
  }

  lemma KeyFirst(pn: Path)
    requires pn != [] && pn[0].Key?
    ensures Render(pn) == pn[0].name + RenderTail(pn[1..])
    ensures RenderTail(pn) == "." + Render(pn)
  {
  }

  /** An empty first key is followed by a key, never by a bracket. */
  lemma EmptyKeyFirst(pn: Path)
    requires WellFormed(pn) && pn[0] == Key("")
    ensures Render(pn) == RenderTail(pn[1..]) && !StartsWithBracket(Render(pn))
  {
    if pn[1..] != [] {
      assert pn[1..][0] == pn[1];
      KeyTokenStart(pn[1..]);
    }
  }

  /** A rendered tail that starts with a key starts with its dot. */
  lemma KeyTokenStart(q: Path)
    requires q != [] && q[0].Key?
    ensures RenderTail(q) != [] && RenderTail(q)[0] == '.'
  {
    assert RenderTail(q) == ("." + q[0].name) + RenderTail(q[1..]);
  }

  lemma WellFormedAppend(pm: Path, pn: Path)
    requires WellFormed(pm) && WellFormed(pn)
    requires pn[0].IsBracket() ==> pm[|pm| - 1] != Key("")
    ensures WellFormed(pm + pn)
  {
    var q := pm + pn;
    assert forall j :: 0 <= j < |pm| ==> q[j] == pm[j];
    assert forall j :: |pm| <= j < |q| ==> q[j] == pn[j - |pm|];
  }
}
