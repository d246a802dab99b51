/** `useDynamicInputs`: a list of records kept at one path of the form data,
    with operations to append a record, remove one by index, and list the
    input paths of the records. Two versions: `src/Inputs/useDynamicInputs.ts`
    (an override for the new record, and `removeInput` returns the removed
    record) and the older `src/useDynamicInputs.ts`. */
module DynamicInputs {
  import opened JsonValues
  import opened Paths
  import opened Tree
  import opened UnsetCompact
  import InertiaForm
  import InputStrategy

  // ---------------------------------------------------------------------
  // Where the records live

  /** The scope the records sit in: the form model, then the nested-fields
      attribute when there is one (`nested` is None outside any nested
      fields). */
  function ScopedName(formModel: Option<string>, nested: Option<string>): string {
    var base := formModel.GetOr("");
    match nested
    case None => base
    case Some(n) => if base != "" then base + "." + n else n
  }

  /** `inputModel`: the scope, a dot, and the model (empty when omitted). */
  function TargetName(formModel: Option<string>, nested: Option<string>, model: Option<string>): string {
    ScopedName(formModel, nested) + "." + model.GetOr("")
  }

  /** `${name}[${i}]`: element `i` of the list named `name`. */
  function ElementName(name: string, i: nat): string {
    name + "[" + NatToString(i) + "]"
  }

  /** A dot and a key after a rendered scope read back as the scope and
      that key. */
  lemma TargetPath(scope: Path, m: string)
    requires WellFormed(scope) && PlainKey(m)
    ensures WellFormed(scope + [Key(m)])
    ensures Parse(Render(scope) + "." + m) == Some(scope + [Key(m)])
  {
    var q := scope + [Key(m)];
    assert forall j :: 0 <= j < |scope| ==> q[j] == scope[j];
    RenderAppend(scope, [Key(m)]);
    assert RenderTail([Key(m)]) == "." + m;
    assert Render(q) == Render(scope) + "." + m;
    ParseRender(q);
  }

  /** Element `i` of a rendered path that does not end in an empty key. */
  lemma ElementOfPath(p: Path, i: nat)
    requires WellFormed(p) && p[|p| - 1] != Key("")
    ensures Parse(ElementName(Render(p), i)) == Some(p + [Index(i)])
  {
    ParseAppendIndex(p, i);
  }

  /** Element `i` of the empty name is the index alone. */
  lemma ElementOfNothing(i: nat)
    ensures Parse(ElementName("", i)) == Some([Index(i)])
  {
    var b := "[" + NatToString(i) + "]";
    assert ElementName("", i) == b;
    ParseTailIndex(i, "");
    assert b + "" == b;
    assert [Index(i)] + [] == [Index(i)];
    assert KeyLength(b) == 0;
    assert b[..0] == "" && b[0..] == b;
  }

  /** Inside a form model and nested fields, the records live at the form
      model's path, then the nested path, then the model's key. */
  lemma TargetInForm(pf: Path, pn: Path, model: Option<string>)
    requires WellFormed(pf) && WellFormed(pn) && Render(pf) != "" && pn[0].Key?
    requires PlainKey(model.GetOr(""))
    ensures Parse(TargetName(Some(Render(pf)), Some(Render(pn)), model)) ==
      Some(pf + pn + [Key(model.GetOr(""))])
  {
    InputStrategy.NameAfterDot(pn);
    RenderAppend(pf, pn);
    assert Render(pf) + "." + Render(pn) == Render(pf + pn);
    InputStrategy.WellFormedAppend(pf, pn);
    TargetPath(pf + pn, model.GetOr(""));
  }

  /** Without a form model, nested fields alone give the scope. */
  lemma TargetNestedOnly(formModel: Option<string>, pn: Path, model: Option<string>)
    requires formModel.None? || formModel.value == ""
    requires WellFormed(pn) && PlainKey(model.GetOr(""))
    ensures Parse(TargetName(formModel, Some(Render(pn)), model)) == Some(pn + [Key(model.GetOr(""))])
  {
    TargetPath(pn, model.GetOr(""));
  }

  /** Outside nested fields the form model alone gives the scope; without a
      form model the scope is the empty key. */
  lemma TargetUnscoped(formModel: Option<string>, pf: Path, model: Option<string>)
    requires WellFormed(pf) && PlainKey(model.GetOr(""))
    requires formModel == Some(Render(pf)) || (formModel.None? && pf == [Key("")])
    ensures Parse(TargetName(formModel, None, model)) == Some(pf + [Key(model.GetOr(""))])
  {
    TargetPath(pf, model.GetOr(""));
  }

  /** With a model, element `i` of the target is the target's path and the
      index `i`. */
  lemma ElementOfTarget(scope: Path, m: string, i: nat)
    requires WellFormed(scope) && PlainKey(m) && m != ""
    ensures Parse(ElementName(Render(scope) + "." + m, i)) == Some(scope + [Key(m), Index(i)])
  {
    var q := scope + [Key(m)];
    assert WellFormed(q) && Render(q) == Render(scope) + "." + m by {
      TargetPath(scope, m);
      RenderAppend(scope, [Key(m)]);
      assert RenderTail([Key(m)]) == "." + m;
    }
    ElementOfPath(q, i);
    assert q + [Index(i)] == scope + [Key(m), Index(i)];
  }

  // ---------------------------------------------------------------------
  // addInput

  /** The override of the current `addInput`: none, fixed fields, or fields
      computed from the records already there. */
  datatype Override =
    | NoOverride
    | Fields(fields: map<string, Json>)
    | FromRecords(compute: seq<Json> -> map<string, Json>)

  /** The fields the override contributes. */
  function Merge(records: seq<Json>, o: Override): map<string, Json> {
    match o
    case NoOverride => map[]
    case Fields(f) => f
    case FromRecords(f) => f(records)
  }

  /** `Object.assign(emptyData, merge)`: the override's fields win. */
  function NewRecord(emptyData: map<string, Json>, o: Override, records: seq<Json>): Json {
    Obj(emptyData + Merge(records, o))
  }

  /** The target already holds an array. */
  predicate HoldsArray(t: Json, target: Path) {
    Lookup(t, target).Some? && Lookup(t, target).value.Arr?
  }

  /** The records at the target: none when it holds no array. */
  function Records(t: Json, target: Path): seq<Json> {
    if HoldsArray(t, target) then Lookup(t, target).value.items else []
  }

  /** The data with an array at the target: what was there, or `[]`. */
  function WithArray(t: Json, target: Path): Json {
    if HoldsArray(t, target) then t else Set(t, target, Arr([]))
  }

  /** The data after `addInput`, or Err where `node.push` would throw
      because no array could be put at the target. */
  function AppendRecord(t: Json, target: Path, emptyData: map<string, Json>, o: Override): Result<Json> {
    if target != [] && Settable(t, target) then
      var records := Records(t, target);
      Ok(Set(WithArray(t, target), target, Arr(records + [NewRecord(emptyData, o, records)])))
    else Err
  }

  /** The `setData` callback of the current `addInput`, on a copy of the
      data. */
  method AddRecord(formData: Json, target: Path, emptyData: map<string, Json>, o: Override)
    returns (r: Result<Json>)
    ensures r == AppendRecord(formData, target, emptyData, o)
  {
    var clone := formData;
    var node := Lookup(clone, target);
    if !(node.Some? && node.value.Arr?) {
      clone := Set(clone, target, Arr([]));
      node := Lookup(clone, target);
      NewArrayFound(formData, target);
    } else {
      ExistingSettable(formData, target);
    }
    match node {
      case Some(Arr(records)) =>
        var merge := Merge(records, o);
        records := records + [Obj(emptyData + merge)];
        clone := Set(clone, target, Arr(records));
        r := Ok(clone);
      case _ =>
        r := Err;
    }
  }

  /** The older `addInput`'s callback: `emptyData` itself is pushed. */
  method AddRecordLegacy(formData: Json, target: Path, emptyData: map<string, Json>)
    returns (r: Result<Json>)
    ensures r == AppendRecord(formData, target, emptyData, NoOverride)
  {
    var clone := formData;
    var node := Lookup(clone, target);
    if !(node.Some? && node.value.Arr?) {
      clone := Set(clone, target, Arr([]));
      node := Lookup(clone, target);
      NewArrayFound(formData, target);
    } else {
      ExistingSettable(formData, target);
    }
    match node {
      case Some(Arr(records)) =>
        assert emptyData + map[] == emptyData;
        records := records + [Obj(emptyData)];
        clone := Set(clone, target, Arr(records));
        r := Ok(clone);
      case _ =>
        r := Err;
    }
  }

  /** Where there is no array yet, `set` then `get` finds an empty one, or
      nothing when the target cannot be written. */
  lemma NewArrayFound(t: Json, target: Path)
    requires !HoldsArray(t, target)
    ensures target != [] && Settable(t, target) ==> Lookup(Set(t, target, Arr([])), target) == Some(Arr([]))
    ensures !(target != [] && Settable(t, target)) ==> Lookup(Set(t, target, Arr([])), target).None?
  {
    if target != [] {
      if Settable(t, target) {
        GetSet(t, target, Arr([]));
      } else {
        UnsettableMissing(t, target, Arr([]));
      }
    }
  }

  /** `addInput` succeeds exactly when the target can be written; then the
      target holds the old records followed by the new one, built from
      `emptyData` and the override given the old records. */
  lemma AppendRecordSpec(t: Json, target: Path, emptyData: map<string, Json>, o: Override)
    ensures AppendRecord(t, target, emptyData, o).Ok? <==> target != [] && Settable(t, target)
    ensures AppendRecord(t, target, emptyData, o).Ok? ==>
      var records := Records(t, target);
      && Lookup(AppendRecord(t, target, emptyData, o).value, target) ==
           Some(Arr(records + [NewRecord(emptyData, o, records)]))
      && Records(AppendRecord(t, target, emptyData, o).value, target) ==
           records + [NewRecord(emptyData, o, records)]
  {
    if target != [] && Settable(t, target) {
      var records := Records(t, target);
      var v := Arr(records + [NewRecord(emptyData, o, records)]);
      if !HoldsArray(t, target) {
        NewArrayFound(t, target);
        ExistingSettable(WithArray(t, target), target);
      }
      GetSet(WithArray(t, target), target, v);
    }
  }

  /** `addInput` leaves every value off the target's path as it was. */
  lemma AppendRecordFrame(t: Json, target: Path, emptyData: map<string, Json>, o: Override, q: Path, j: nat)
    requires AppendRecord(t, target, emptyData, o).Ok?
    requires Get(t, q).Some?
    requires j < |target| && j < |q| && target[..j] == q[..j] && target[j] != q[j]
    ensures Get(AppendRecord(t, target, emptyData, o).value, q) == Get(t, q)
  {
    var records := Records(t, target);
    var v := Arr(records + [NewRecord(emptyData, o, records)]);
    if !HoldsArray(t, target) {
      GetSetOther(t, target, q, Arr([]), j);
    }
    GetSetOther(WithArray(t, target), target, q, v, j);
  }

  /** The older `addInput` appends what the current one does without an
      override. */
  lemma LegacyRecordIsEmptyData(t: Json, target: Path, emptyData: map<string, Json>)
    requires AppendRecord(t, target, emptyData, NoOverride).Ok?
    ensures Lookup(AppendRecord(t, target, emptyData, NoOverride).value, target) ==
      Some(Arr(Records(t, target) + [Obj(emptyData)]))
  {
    AppendRecordSpec(t, target, emptyData, NoOverride);
    assert emptyData + map[] == emptyData;
  }

  /** `addInput(override)` on a form: the callback's result replaces the
      data; where it would throw, the data stays. */
  method AddInput(form: InertiaForm.Form, inputModel: string, emptyData: map<string, Json>, o: Override)
    requires Parse(inputModel).Some?
    modifies form`data
    ensures AppendRecord(old(form.data), Parse(inputModel).value, emptyData, o).Ok? ==>
      form.data == AppendRecord(old(form.data), Parse(inputModel).value, emptyData, o).value
    ensures AppendRecord(old(form.data), Parse(inputModel).value, emptyData, o).Err? ==>
      form.data == old(form.data)
  {
    var r := AddRecord(form.data, Parse(inputModel).value, emptyData, o);
    if r.Ok? {
      form.SetAll(r.value);
    }
  }

  /** The older `addInput()`. */
  method AddInputLegacy(form: InertiaForm.Form, inputModel: string, emptyData: map<string, Json>)
    requires Parse(inputModel).Some?
    modifies form`data
    ensures AppendRecord(old(form.data), Parse(inputModel).value, emptyData, NoOverride).Ok? ==>
      form.data == AppendRecord(old(form.data), Parse(inputModel).value, emptyData, NoOverride).value
    ensures AppendRecord(old(form.data), Parse(inputModel).value, emptyData, NoOverride).Err? ==>
      form.data == old(form.data)
  {
    var r := AddRecordLegacy(form.data, Parse(inputModel).value, emptyData);
    if r.Ok? {
      form.SetAll(r.value);
    }
  }

  // ---------------------------------------------------------------------
  // removeInput

  /** The current `removeInput(i)` as evidently intended: reads element `i`
      of the current data with lodash `get`, unsets it with compaction and
      returns what was read. The read resolves the written tokens;
      `unsetCompact` cuts the text at its brackets and so works on them as
      written. */
  method RemoveInput(form: InertiaForm.Form, inputModel: string, i: nat) returns (record: Option<Json>)
    requires RawParse(ElementName(inputModel, i)).Some?
    modifies form`data
    ensures record == Lookup(old(form.data), Resolve(RawParse(ElementName(inputModel, i)).value))
    ensures form.data == Compacted(old(form.data), RawParse(ElementName(inputModel, i)).value)
  {
    var name := ElementName(inputModel, i);
    ParseResolved(name);
    record := form.GetData(name);
    form.UnsetData(name);
  }

  /** The current `removeInput(i)` as written: the callback is memoised with
      no dependencies, so its `getData` is the one of the hook's first
      render and reads `mountData`, the data that render saw. The unset
      goes through a functional update and so acts on the current data. */
  method RemoveInputAsWritten(form: InertiaForm.Form, inputModel: string, i: nat, mountData: Json)
    returns (record: Option<Json>)
    requires RawParse(ElementName(inputModel, i)).Some?
    modifies form`data
    ensures record == Lookup(mountData, Resolve(RawParse(ElementName(inputModel, i)).value))
    ensures form.data == Compacted(old(form.data), RawParse(ElementName(inputModel, i)).value)
  {
    var name := ElementName(inputModel, i);
    ParseResolved(name);
    record := Lookup(mountData, Parse(name).value);
    form.UnsetData(name);
  }

  /** With the data seen at mount as `t`, `addInput()` and then removing
      the record it added: the memoised read finds nothing, although the
      record is there and the removal takes it out of the list. */
  lemma StaleReadMissesAddedRecord(t: Json, inputModel: string, emptyData: map<string, Json>, o: Override)
    requires RawParse(inputModel).Some?
    requires Anchored(RawParse(inputModel).value) && !HasWildcard(RawParse(inputModel).value)
    requires AppendRecord(t, Resolve(RawParse(inputModel).value), emptyData, o).Ok?
    ensures RawParse(ElementName(inputModel, |Records(t, Resolve(RawParse(inputModel).value))|)).Some?
    ensures var target := Resolve(RawParse(inputModel).value);
      var t1 := AppendRecord(t, target, emptyData, o).value;
      var n := |Records(t, target)|;
      var e := RawParse(ElementName(inputModel, n)).value;
      && Lookup(t, Resolve(e)).None?
      && Lookup(t1, Resolve(e)) == Some(NewRecord(emptyData, o, Records(t, target)))
      && Records(Compacted(t1, e), target) == Records(t, target)
  {
    var target := Resolve(RawParse(inputModel).value);
    var t1 := AppendRecord(t, target, emptyData, o).value;
    var records := Records(t, target);
    var n := |records|;
    AppendRecordSpec(t, target, emptyData, o);
    RemoveInputSpec(t, inputModel, n);
    RemoveInputSpec(t1, inputModel, n);
    var after := records + [NewRecord(emptyData, o, records)];
    assert after[..n] + after[n + 1..] == records;
  }

  /** The older `removeInput(i)`: only the unset. */
  method RemoveInputLegacy(form: InertiaForm.Form, inputModel: string, i: nat)
    requires RawParse(ElementName(inputModel, i)).Some?
    modifies form`data
    ensures form.data == Compacted(old(form.data), RawParse(ElementName(inputModel, i)).value)
  {
    form.UnsetData(ElementName(inputModel, i));
  }

  /** Removing `w[i]`, for the written target `w`, leaves the other
      records of the list lodash finds at `w`, in order. When `w` does not
      end in an empty key, the record read at `w[i]` is the one removed. */
  lemma RemovesElement(t: Json, w: Path, i: nat)
    requires w != [] && !HasWildcard(w)
    requires HoldsArray(t, Resolve(w)) && i < |Records(t, Resolve(w))|
    ensures Records(Compacted(t, w + [Index(i)]), Resolve(w)) ==
      Records(t, Resolve(w))[..i] + Records(t, Resolve(w))[i + 1..]
    ensures Anchored(w) ==> Lookup(t, Resolve(w + [Index(i)])) == Some(Records(t, Resolve(w))[i])
  {
    IndexSpliced(t, w, i);
    if Anchored(w) {
      ElementRead(t, w, i);
    }
  }

  /** The record read at `w[i]`, for a target not ending in an empty key. */
  lemma ElementRead(t: Json, w: Path, i: nat)
    requires Anchored(w) && HoldsArray(t, Resolve(w)) && i < |Records(t, Resolve(w))|
    ensures Lookup(t, Resolve(w + [Index(i)])) == Some(Records(t, Resolve(w))[i])
  {
    ElementResolved(w, i);
    GetAppend(t, Resolve(w), [Index(i)]);
  }

  /** An index after a written target that does not end in an empty key
      is read right after the target. */
  lemma ElementResolved(w: Path, i: nat)
    requires Anchored(w)
    ensures Resolve(w + [Index(i)]) == Resolve(w) + [Index(i)] && Resolve(w) != []
  {
    ResolveAppend(w, [Index(i)]);
    assert Resolve([Index(i)]) == [Index(i)];
    ResolveLast(w);
  }

  /** Removing an element that is not there changes nothing, and, when the
      written target does not end in an empty key, reads nothing. */
  lemma RemovesNothing(t: Json, w: Path, i: nat)
    requires w != [] && !HasWildcard(w)
    requires !(HoldsArray(t, Resolve(w)) && i < |Records(t, Resolve(w))|)
    ensures Compacted(t, w + [Index(i)]) == t
    ensures Anchored(w) ==> Lookup(t, Resolve(w + [Index(i)])).None?
  {
    ResolveLast(w);
    IndexOutOfRange(t, w, i);
    if Anchored(w) {
      ElementResolved(w, i);
      GetAppend(t, Resolve(w), [Index(i)]);
    }
  }

  /** `removeInput(i)` on the list `addInput` grows at `inputModel`. When
      the written `inputModel` does not end in an empty key, the record
      returned is element `i` of that list and the list loses exactly that
      element; a missing element is neither read nor removed. */
  lemma RemoveInputSpec(t: Json, inputModel: string, i: nat)
    requires RawParse(inputModel).Some?
    requires Anchored(RawParse(inputModel).value) && !HasWildcard(RawParse(inputModel).value)
    ensures var w := RawParse(inputModel).value;
      && Parse(inputModel) == Some(Resolve(w))
      && RawParse(ElementName(inputModel, i)) == Some(w + [Index(i)])
    ensures var w := RawParse(inputModel).value;
      var target := Resolve(w);
      var e := RawParse(ElementName(inputModel, i)).value;
      && (HoldsArray(t, target) && i < |Records(t, target)| ==>
            && Lookup(t, Resolve(e)) == Some(Records(t, target)[i])
            && Records(Compacted(t, e), target) == Records(t, target)[..i] + Records(t, target)[i + 1..])
      && (!(HoldsArray(t, target) && i < |Records(t, target)|) ==>
            Lookup(t, Resolve(e)).None? && Compacted(t, e) == t)
  {
    var w := RawParse(inputModel).value;
    ParseResolved(inputModel);
    RawParseAppendIndex(inputModel, i);
    if HoldsArray(t, Resolve(w)) && i < |Records(t, Resolve(w))| {
      RemovesElement(t, w, i);
    } else {
      RemovesNothing(t, w, i);
    }
  }

  // ---------------------------------------------------------------------
  // paths

  /** `paths`: `model[i]` for each record, relative to the nested scope;
      none when the target holds no array. */
  function InputPaths(node: Option<Json>, model: Option<string>): (r: seq<string>)
    ensures node.Some? && node.value.Arr? ==> |r| == |node.value.items|
    ensures !(node.Some? && node.value.Arr?) ==> r == []
  {
    match node
    case Some(Arr(a)) => seq(|a|, i requires 0 <= i < |a| => ElementName(model.GetOr(""), i))
    case _ => []
  }

  /** The path a record's inputs are named under: the model's key and the
      index, or the index alone without a model. */
  function RelativePath(m: string, i: nat): Path {
    if m == "" then [Index(i)] else [Key(m), Index(i)]
  }

  /** One path per record, and path `i` reads back as record `i` under
      the model. */
  lemma InputPathsSpec(node: Option<Json>, model: Option<string>, i: nat)
    requires PlainKey(model.GetOr(""))
    ensures |InputPaths(node, model)| == if node.Some? && node.value.Arr? then |node.value.items| else 0
    ensures i < |InputPaths(node, model)| ==>
      Parse(InputPaths(node, model)[i]) == Some(RelativePath(model.GetOr(""), i))
  {
    var m := model.GetOr("");
    if i < |InputPaths(node, model)| {
      assert InputPaths(node, model)[i] == ElementName(m, i);
      ElementPathParses(m, i);
    }
  }

  lemma ElementPathParses(m: string, i: nat)
    requires PlainKey(m)
    ensures Parse(ElementName(m, i)) == Some(RelativePath(m, i))
  {
    if m == "" {
      ElementOfNothing(i);
    } else {
      assert Render([Key(m)]) == m;
      ElementOfPath([Key(m)], i);
      assert [Key(m)] + [Index(i)] == [Key(m), Index(i)];
    }
  }

  /** After `addInput` there is one path more, for the new record. */
  lemma PathsAfterAdd(t: Json, target: Path, emptyData: map<string, Json>, o: Override, model: Option<string>)
    requires AppendRecord(t, target, emptyData, o).Ok?
    ensures InputPaths(Lookup(AppendRecord(t, target, emptyData, o).value, target), model) ==
      InputPaths(Lookup(t, target), model) + [ElementName(model.GetOr(""), |Records(t, target)|)]
  {
    AppendRecordSpec(t, target, emptyData, o);
  }

  /** After removing an existing record the last path is gone. */
  lemma PathsAfterRemove(t: Json, w: Path, i: nat, model: Option<string>)
    requires w != [] && !HasWildcard(w)
    requires HoldsArray(t, Resolve(w)) && i < |Records(t, Resolve(w))|
    ensures InputPaths(Lookup(Compacted(t, w + [Index(i)]), Resolve(w)), model) ==
      InputPaths(Lookup(t, Resolve(w)), model)[..|Records(t, Resolve(w))| - 1]
  {
    var S := Resolve(w);
    var a := Records(t, S);
    IndexSpliced(t, w, i);
    assert Lookup(Compacted(t, w + [Index(i)]), S) == Some(Arr(a[..i] + a[i + 1..]));
    PathsOfShorter(a, a[..i] + a[i + 1..], model);
  }

  /** A list one record shorter has the paths of the longer one, bar the last. */
  lemma PathsOfShorter(a: seq<Json>, b: seq<Json>, model: Option<string>)
    requires |b| + 1 == |a|
    ensures InputPaths(Some(Arr(b)), model) == InputPaths(Some(Arr(a)), model)[..|a| - 1]
  {
  }

  // ---------------------------------------------------------------------
  // Without a model, removeInput misses the list addInput grows

  /** Without a model the target ends in an empty key, `scope.`, and
      `addInput` grows a list there. `removeInput(i)` then reads
      `scope.[i]` with lodash, which is `scope[i]`: it finds no record and
      returns nothing. Yet `unsetCompact` cuts the text before the bracket,
      finds the list at `scope.`, and splices element `i` out of it. */
  lemma RemoveMissesTargetWithoutModel(
    t: Json, scope: Path, emptyData: map<string, Json>, o: Override, i: nat)
    requires WellFormed(scope) && scope[|scope| - 1] != Key("") && !HasWildcard(scope)
    requires AppendRecord(t, scope + [Key("")], emptyData, o).Ok?
    ensures var name := TargetName(Some(Render(scope)), None, None);
      && Parse(name) == Some(scope + [Key("")])
      && Parse(ElementName(name, i)) == Some(scope + [Index(i)])
      && RawParse(ElementName(name, i)).Some?
    ensures var name := TargetName(Some(Render(scope)), None, None);
      var e := RawParse(ElementName(name, i)).value;
      var t1 := AppendRecord(t, scope + [Key("")], emptyData, o).value;
      var records := Records(t1, scope + [Key("")]);
      && |records| > 0
      && Lookup(t1, Resolve(e)).None?
      && (i < |records| ==>
            Records(Compacted(t1, e), scope + [Key("")]) == records[..i] + records[i + 1..])
  {
    var name := TargetName(Some(Render(scope)), None, None);
    NoModelNames(scope, i);
    ParseResolved(name);
    var w := RawParse(name).value;
    RawParseAppendIndex(name, i);
    ParseResolved(ElementName(name, i));
    NoModelRecordMissed(t, scope, emptyData, o, i);
    ResolveWildcard(w);
    assert !HasWildcard(scope + [Key("")]);
    var t1 := AppendRecord(t, scope + [Key("")], emptyData, o).value;
    if i < |Records(t1, scope + [Key("")])| {
      RemovesElement(t1, w, i);
    }
  }

  /** The names without a model: `scope.` and `scope.[i]`. */
  lemma NoModelNames(scope: Path, i: nat)
    requires WellFormed(scope) && scope[|scope| - 1] != Key("")
    ensures var name := TargetName(Some(Render(scope)), None, None);
      && Parse(name) == Some(scope + [Key("")])
      && Parse(ElementName(name, i)) == Some(scope + [Index(i)])
  {
    var name := TargetName(Some(Render(scope)), None, None);
    TargetPath(scope, "");
    assert name == Render(scope) + "." + "";
    var d := NatToString(i);
    DotThenIndex(Render(scope), d);
    ParseTailDotIndex(i);
    ParseThen(scope, ".[" + d + "]");
  }

  lemma DotThenIndex(r: string, d: string)
    ensures (r + "." + "") + "[" + d + "]" == r + (".[" + d + "]")
  {
    var lhs := (r + "." + "") + "[" + d + "]";
    assert |lhs| == |r| + 3 + |d|;
    forall j | 0 <= j < |lhs|
      ensures lhs[j] == (r + (".[" + d + "]"))[j]
    {
    }
  }

  /** Once the list sits under the empty key of `scope`, `scope` holds an
      object, so index `i` of it is missing. */
  lemma NoModelRecordMissed(t: Json, scope: Path, emptyData: map<string, Json>, o: Override, i: nat)
    requires scope != [] && !HasWildcard(scope)
    requires AppendRecord(t, scope + [Key("")], emptyData, o).Ok?
    ensures var t1 := AppendRecord(t, scope + [Key("")], emptyData, o).value;
      && |Records(t1, scope + [Key("")])| > 0
      && Lookup(t1, scope + [Index(i)]).None?
  {
    var target := scope + [Key("")];
    var t1 := AppendRecord(t, target, emptyData, o).value;
    AppendRecordSpec(t, target, emptyData, o);
    GetAppend(t1, scope, [Key("")]);
    GetAppend(t1, scope, [Index(i)]);
  }

  /** The evidently intended target: the dot and the model only when
      there is a model. */
  function IntendedTargetName(formModel: Option<string>, nested: Option<string>, model: Option<string>): string {
    var scoped := ScopedName(formModel, nested);
    if model.GetOr("") == "" then scoped else scoped + "." + model.value
  }

  /** With the intended target, element `i` is always index `i` of the
      list `addInput` grows, and with a model the name is the one the code
      builds. The written target never ends in an empty key. */
  lemma {:induction false} IntendedElementPath(scope: Path, model: Option<string>, i: nat)
    requires WellFormed(scope) && scope[|scope| - 1] != Key("")
    requires PlainKey(model.GetOr(""))
    ensures var name := IntendedTargetName(Some(Render(scope)), None, model);
      var target := if model.GetOr("") == "" then scope else scope + [Key(model.GetOr(""))];
      && Parse(name) == Some(target)
      && Parse(ElementName(name, i)) == Some(target + [Index(i)])
      && RawParse(name).Some? && Resolve(RawParse(name).value) == target
      && Anchored(RawParse(name).value)
    ensures model.GetOr("") != "" ==>
      IntendedTargetName(Some(Render(scope)), None, model) == TargetName(Some(Render(scope)), None, model)
  {
    var m := model.GetOr("");
    var name := IntendedTargetName(Some(Render(scope)), None, model);
    if m == "" {
      assert name == Render(scope);
      ParseRender(scope);
      ParseAppendIndex(scope, i);
      NameResolves(name, scope);
    } else {
      assert name == Render(scope) + "." + m;
      TargetPath(scope, m);
      ElementOfTarget(scope, m, i);
      assert scope + [Key(m)] + [Index(i)] == scope + [Key(m), Index(i)];
      NameResolves(name, scope + [Key(m)]);
    }
  }

  /** A name lodash reads as a path ending in a non-empty key reads, token
      by token, as a path anchored at that key. */
  lemma {:induction false} NameResolves(name: string, target: Path)
    requires Parse(name) == Some(target) && target != [] && target[|target| - 1] != Key("")
    ensures RawParse(name).Some? && Resolve(RawParse(name).value) == target
    ensures Anchored(RawParse(name).value)
  {
    ParseResolved(name);
    ResolveLast(RawParse(name).value);
  }

  /** With the intended target, `removeInput(i)` returns element `i` of
      the list `addInput` grows and removes exactly that element. */
  lemma {:induction false} IntendedRemoval(scope: Path, model: Option<string>, i: nat, t: Json)
    requires WellFormed(scope) && scope[|scope| - 1] != Key("") && !HasWildcard(scope)
    requires PlainKey(model.GetOr(""))
    ensures var name := IntendedTargetName(Some(Render(scope)), None, model);
      RawParse(ElementName(name, i)).Some?
    ensures var name := IntendedTargetName(Some(Render(scope)), None, model);
      var target := if model.GetOr("") == "" then scope else scope + [Key(model.GetOr(""))];
      var e := RawParse(ElementName(name, i)).value;
      HoldsArray(t, target) && i < |Records(t, target)| ==>
        && Lookup(t, Resolve(e)) == Some(Records(t, target)[i])
        && Records(Compacted(t, e), target) == Records(t, target)[..i] + Records(t, target)[i + 1..]
  {
    var name := IntendedTargetName(Some(Render(scope)), None, model);
    var target := if model.GetOr("") == "" then scope else scope + [Key(model.GetOr(""))];
    IntendedElementPath(scope, model, i);
    var w := RawParse(name).value;
    ResolveWildcard(w);
    assert !HasWildcard(target);
    RemoveInputSpec(t, name, i);
  }
}
