/** `useInertiaForm`: the state behind a form (its data, the defaults it
    resets to, the error map and the submission flags) and the operations
    and submission hooks that change it. */
module InertiaForm {
  import opened JsonValues
  import opened Paths
  import opened Tree
  import opened UnsetCompact
  import FillEmptyValues
  import opened RenameAttributes

  // ---------------------------------------------------------------------
  // Values the form works with

  /** An upload progress event; the form only stores it. */
  datatype Progress = Progress(loaded: nat, total: nat)

  /** The `fields` argument of `reset` and `clearErrors`: absent, one field,
      or a list of fields. */
  datatype FieldsArg = NoFields | Field(name: string) | FieldList(names: seq<string>)

  /** The argument of `setError`: one field and its message, or a map of them. */
  datatype ErrorsArg = FieldError(field: string, value: Json) | ErrorObject(entries: map<string, Json>)

  /** JavaScript truthiness of a form value. */
  predicate Truthy(v: Json) {
    match v
    case Str(s) => s != ""
    case Num(n) => n != 0
    case Bool(b) => b
    case Null => false
    case Undef => false
    case _ => true
  }

  /** `!fields`: nothing given, or the empty string. */
  predicate FieldsFalsy(f: FieldsArg) {
    f.NoFields? || f == Field("")
  }

  /** `coerceArray(fields)`: one field becomes a one-element list. */
  function Listed(f: FieldsArg): seq<string> {
    match f
    case NoFields => []
    case Field(n) => [n]
    case FieldList(ns) => ns
  }

  /** Every name is a path the model can read. */
  predicate AllParse(names: seq<string>) {
    forall i :: 0 <= i < |names| ==> Parse(names[i]).Some?
  }

  function FieldPaths(names: seq<string>): (ps: seq<Path>)
    requires AllParse(names)
    ensures |ps| == |names|
  {
    seq(|names|, i requires 0 <= i < |names| => Parse(names[i]).value)
  }

  // ---------------------------------------------------------------------
  // Errors

  /** `rootModelKey`: the single top-level key of the data when its value
      is a plain object (`Object.keys` of a one-element array is `"0"`). */
  function RootModelKey(data: Json): (r: Option<string>)
    ensures r.Some? ==>
      || (data.Obj? && data.fields.Keys == {r.value} && data.fields[r.value].Obj?)
      || (data.Arr? && |data.items| == 1 && data.items[0].Obj? && r.value == "0")
  {
    match data
    case Obj(m) =>
      if |m| == 1 then
        var k := OnlyKey(m);
        if m[k].Obj? then Some(k) else None
      else None
    case Arr(a) => if |a| == 1 && a[0].Obj? then Some("0") else None
    case _ => None
  }

  /** The key of a one-entry map. */
  function OnlyKey(m: map<string, Json>): (k: string)
    requires |m| == 1
    ensures m.Keys == {k}
  {
    var k :| k in m;
    assert m.Keys == {k} by {
      if exists k' :: k' in m && k' != k {
        var k' :| k' in m && k' != k;
        assert {k, k'} <= m.Keys;
        assert |{k, k'}| == 2;
        SubsetSize({k, k'}, m.Keys);
      }
    }
    k
  }

  lemma SubsetSize(a: set<string>, b: set<string>)
    requires a <= b
    ensures |a| <= |b|
  {
    assert b == a + (b - a);
  }

  /** `rewriteErrorKeys`: with a (non-empty) root model key every error key
      `k` becomes `root.k`; otherwise the errors are kept as they are. */
  function RewriteErrorKeys(errs: map<string, Json>, root: Option<string>): (r: map<string, Json>)
    ensures root.None? || root.value == "" ==> r == errs
    ensures root.Some? && root.value != "" ==>
      forall k :: k in errs ==> Prefixed(root.value, k) in r && r[Prefixed(root.value, k)] == errs[k]
  {
    if root.None? || root.value == "" then errs
    else
      var r := root.value;
      PrefixedInjective(r);
      map k | k in errs :: Prefixed(r, k) := errs[k]
  }

  lemma PrefixedInjective(r: string)
    ensures forall k1, k2 :: Prefixed(r, k1) == Prefixed(r, k2) ==> k1 == k2
  {
    forall k1, k2 | Prefixed(r, k1) == Prefixed(r, k2)
      ensures k1 == k2
    {
      PrefixedInverse(r, k1);
      PrefixedInverse(r, k2);
    }
  }

  function Prefixed(r: string, k: string): string {
    r + "." + k
  }

  /** What `Prefixed(r, _)` put after the root and its dot. */
  function Unprefixed(r: string, k: string): string
    requires |k| > |r|
  {
    k[|r| + 1..]
  }

  lemma PrefixedInverse(r: string, k: string)
    ensures |Prefixed(r, k)| > |r| && Unprefixed(r, Prefixed(r, k)) == k
    ensures Prefixed(r, k)[..|r| + 1] == r + "."
  {
    assert Prefixed(r, k)[|r| + 1..] == k;
  }

  /** `getError(key)`: lodash `get` on the error map, which tries the key
      literally before reading it as a path. */
  function ErrorAt(errors: map<string, Json>, key: string): Option<Json> {
    if key in errors then Some(errors[key])
    else
      match Parse(key)
      case Some(p) => Lookup(Obj(errors), p)
      case None => None
  }

  /** The map `setError` stores: the new entries over the old ones. */
  function NewErrors(errors: map<string, Json>, arg: ErrorsArg): map<string, Json> {
    match arg
    case FieldError(f, v) => errors[f := v]
    case ErrorObject(m) => errors + m
  }

  /** The map `clearErrors(fields)` stores for a non-empty `fields`: the
      entries whose key is not listed. An empty list keeps nothing. */
  function ClearedErrors(errors: map<string, Json>, fields: seq<string>): map<string, Json> {
    if |fields| == 0 then map[]
    else map k | k in errors && k !in fields :: errors[k]
  }

  // ---------------------------------------------------------------------
  // Defaults and reset

  /** The top-level entries an object spread copies out of a value. */
  function Spread(v: Json): map<string, Json> {
    if v.Obj? then v.fields else map[]
  }

  /** `get(defaults, field)`, `undefined` when missing. */
  function DefaultAt(defaults: Json, p: Path): Json {
    Lookup(defaults, p).GetOr(Undef)
  }

  /** The clone `reset(fields)` builds: each listed path, in order, set to
      the value the defaults hold there. */
  function ResetFields(data: Json, defaults: Json, ps: seq<Path>): Json
    decreases |ps|
  {
    if ps == [] then data
    else
      var n := |ps| - 1;
      Set(ResetFields(data, defaults, ps[..n]), ps[n], DefaultAt(defaults, ps[n]))
  }

  /** One more listed name: the clone so far, with that path set to its
      default. */
  lemma ResetFieldsStep(data: Json, defaults: Json, names: seq<string>, i: nat)
    requires AllParse(names) && i < |names|
    ensures var ps := FieldPaths(names); var p := Parse(names[i]).value;
      ResetFields(data, defaults, ps[..i + 1]) == Set(ResetFields(data, defaults, ps[..i]), p, Lookup(defaults, p).GetOr(Undef))
  {
    var ps := FieldPaths(names);
    assert ps[..i + 1][..i] == ps[..i];
    assert ps[..i + 1][i] == ps[i] == Parse(names[i]).value;
  }

  /** `p` and `q` part ways at some token: neither lies on the other. */
  predicate Diverges(p: Path, q: Path) {
    exists j :: 0 <= j < |p| && j < |q| && p[..j] == q[..j] && p[j] != q[j]
  }

  // ---------------------------------------------------------------------
  // Submission status and its hooks

  /** The part of the form the submission hooks change. `timerPending`
      says that the timeout clearing `recentlySuccessful` is scheduled. */
  datatype Status = Status(
    errors: map<string, Json>,
    hasErrors: bool,
    processing: bool,
    progress: Option<Progress>,
    wasSuccessful: bool,
    recentlySuccessful: bool,
    timerPending: bool,
    cancelToken: Option<nat>,
    mounted: bool)

  function Before(s: Status): Status {
    s.(wasSuccessful := false, recentlySuccessful := false, timerPending := false)
  }

  function Started(s: Status): Status {
    s.(processing := true)
  }

  function Progressed(s: Status, e: Progress): Status {
    s.(progress := Some(e))
  }

  function Succeeded(s: Status): Status {
    if s.mounted then
      s.(processing := false, progress := None, errors := map[], hasErrors := false,
         wasSuccessful := true, recentlySuccessful := true, timerPending := true)
    else s
  }

  function Failed(s: Status, errs: map<string, Json>, root: Option<string>): Status {
    if s.mounted then
      s.(processing := false, progress := None, errors := RewriteErrorKeys(errs, root), hasErrors := true)
    else s
  }

  function Cancelled(s: Status): Status {
    if s.mounted then s.(processing := false, progress := None) else s
  }

  function Finished(s: Status): Status {
    var s1 := if s.mounted then s.(processing := false, progress := None) else s;
    s1.(cancelToken := None)
  }

  function TokenReceived(s: Status, token: nat): Status {
    s.(cancelToken := Some(token))
  }

  /** The scheduled timeout fires; a cleared one never does. */
  function TimerFired(s: Status): Status {
    if s.timerPending then
      s.(timerPending := false, recentlySuccessful := if s.mounted then false else s.recentlySuccessful)
    else s
  }

  function Unmounted(s: Status): Status {
    s.(mounted := false)
  }

  /** The events a visit delivers to the form, and unmounting. */
  datatype Event =
    | TokenEvent(token: nat)
    | BeforeEvent
    | StartEvent
    | ProgressEvent(e: Progress)
    | SuccessEvent
    | ErrorEvent(errs: map<string, Json>)
    | CancelEvent
    | FinishEvent
    | TimerEvent
    | UnmountEvent

  /** One event; `root` is the root model key captured by the submission. */
  function Apply(s: Status, root: Option<string>, e: Event): Status {
    match e
    case TokenEvent(t) => TokenReceived(s, t)
    case BeforeEvent => Before(s)
    case StartEvent => Started(s)
    case ProgressEvent(p) => Progressed(s, p)
    case SuccessEvent => Succeeded(s)
    case ErrorEvent(errs) => Failed(s, errs, root)
    case CancelEvent => Cancelled(s)
    case FinishEvent => Finished(s)
    case TimerEvent => TimerFired(s)
    case UnmountEvent => Unmounted(s)
  }

  /** The events in order. `root` is the root model key captured when the
      visit was submitted. */
  function Run(s: Status, root: Option<string>, es: seq<Event>): Status
    decreases |es|
  {
    if es == [] then s else Run(Apply(s, root, es[0]), root, es[1..])
  }

  /** Only a scheduled timer keeps `recentlySuccessful` up, and only a
      success sets it. */
  predicate Consistent(s: Status) {
    (s.timerPending ==> s.recentlySuccessful) && (s.recentlySuccessful ==> s.wasSuccessful)
  }

  /** The progress events of an upload. */
  function Uploads(ps: seq<Progress>): seq<Event> {
    seq(|ps|, i requires 0 <= i < |ps| => ProgressEvent(ps[i]))
  }

  // ---------------------------------------------------------------------
  // The form

  const RailsSuffix := "_attributes"

  class Form {
    var data: Json
    var defaults: Json
    var errors: map<string, Json>
    var hasErrors: bool
    var processing: bool
    var progress: Option<Progress>
    var wasSuccessful: bool
    var recentlySuccessful: bool
    var timerPending: bool
    var cancelToken: Option<nat>
    var mounted: bool
    var transform: Json -> Json
    /** The root model key of the data a submission was made from; its
        `onError` files the server's errors under this key. */
    var errorRoot: Option<string>
    const railsAttributes: bool

    function Snapshot(): Status
      reads this
    {
      Status(errors, hasErrors, processing, progress, wasSuccessful, recentlySuccessful,
        timerPending, cancelToken, mounted)
    }

    /** `isDirty`: lodash `isEqual` is deep equality, which on values is
        `==`. */
    function IsDirty(): (r: bool)
      reads this
      ensures r <==> data != defaults
    {
      data != defaults
    }

    /** `useInertiaForm(initialValues)`: the filled initial values are both
        the data and (when truthy) the defaults; nothing is mounted yet. */
    constructor (initial: Json, railsAttributes: bool)
      ensures data == FillEmptyValues.Fill(initial)
      ensures Truthy(data) ==> defaults == data && !IsDirty()
      ensures !Truthy(data) ==> defaults == Obj(map[])
      ensures Snapshot() == Status(map[], false, false, None, false, false, false, None, false)
      ensures this.railsAttributes == railsAttributes
      ensures forall d :: transform(d) == d
      ensures errorRoot == None
    {
      var filled := FillEmptyValues.FillEmptyValues(initial);
      data := filled;
      defaults := if Truthy(filled) then filled else Obj(map[]);
      errors := map[];
      hasErrors := false;
      processing := false;
      progress := None;
      wasSuccessful := false;
      recentlySuccessful := false;
      timerPending := false;
      cancelToken := None;
      mounted := false;
      transform := d => d;
      errorRoot := None;
      this.railsAttributes := railsAttributes;
    }

    method Mount()
      modifies this`mounted
      ensures mounted
    {
      mounted := true;
    }

    method Unmount()
      modifies this`mounted
      ensures Snapshot() == Unmounted(old(Snapshot()))
    {
      mounted := false;
    }

    // -- data ------------------------------------------------------------

    /** `getData(key)`: lodash `get` on the data. */
    function GetData(key: string): (r: Option<Json>)
      reads this
      requires Parse(key).Some?
      ensures PlainKey(key) && data.Obj? ==>
        r == if key in data.fields then Some(data.fields[key]) else None
    {
      ParsePlainKey(key);
      GetOne(data, Key(key));
      Lookup(data, Parse(key).value)
    }

    /** `setData(key, value)`: the value written into a copy of the data,
        where `getData(key)` then finds it. */
    method SetData(key: string, v: Json)
      requires Parse(key).Some?
      modifies this`data
      ensures data == Set(old(data), Parse(key).value, v)
      ensures Settable(old(data), Parse(key).value) ==> GetData(key) == Some(v)
    {
      var p := Parse(key).value;
      var clone := data;
      clone := Set(clone, p, v);
      data := clone;
      if Settable(old(data), p) {
        GetSet(old(data), p, v);
      }
    }

    /** `setData(object)`. */
    method SetAll(d: Json)
      modifies this`data
      ensures data == d
    {
      data := d;
    }

    /** `setData(callback)`: the callback gets a copy of the data. */
    method Update(f: Json -> Json)
      modifies this`data
      ensures data == f(old(data))
    {
      data := f(data);
    }

    /** `unsetData(key)`: `unsetCompact` applied to a copy of the data.
        `unsetCompact` cuts the key's text at its brackets, so it works on
        the tokens as written. */
    method UnsetData(key: string)
      requires RawParse(key).Some?
      modifies this`data
      ensures data == Compacted(old(data), RawParse(key).value)
    {
      var doc := new Document(data);
      doc.UnsetCompact(RawParse(key).value);
      data := doc.root;
    }

    /** `transform(callback)`: the function applied to the data on submit. */
    method SetTransform(f: Json -> Json)
      modifies this`transform
      ensures transform == f
    {
      transform := f;
    }

    // -- defaults and reset ----------------------------------------------

    /** `setDefaults()`: the defaults become the current data. */
    method SnapshotDefaults()
      modifies this`defaults
      ensures defaults == data && !IsDirty()
    {
      defaults := data;
    }

    /** `setDefaults(key, value)`: `key` is added as a literal top-level key. */
    method SetDefault(key: string, v: Json)
      modifies this`defaults
      ensures defaults == Obj(Spread(old(defaults))[key := v])
    {
      defaults := Obj(Spread(defaults)[key := v]);
    }

    /** `setDefaults(object)`: a shallow merge at the top level. */
    method MergeDefaults(obj: map<string, Json>)
      modifies this`defaults
      ensures defaults == Obj(Spread(old(defaults)) + obj)
    {
      defaults := Obj(Spread(defaults) + obj);
    }

    /** `reset()` restores all data and empties the errors; `reset(fields)`
        restores the listed paths in a copy and clears their errors. */
    method Reset(fields: FieldsArg)
      requires AllParse(Listed(fields))
      modifies this`data, this`errors, this`hasErrors
      ensures FieldsFalsy(fields) ==> data == defaults && !IsDirty() && errors == map[] && hasErrors == old(hasErrors)
      ensures !FieldsFalsy(fields) ==>
        && data == ResetFields(old(data), defaults, FieldPaths(Listed(fields)))
        && errors == ClearedErrors(old(errors), Listed(fields))
        && hasErrors == (|errors| > 0)
    {
      if FieldsFalsy(fields) {
        data := defaults;
        errors := map[];
        return;
      }
      var names := Listed(fields);
      ghost var ps := FieldPaths(names);
      var clone := data;
      for i := 0 to |names|
        invariant clone == ResetFields(old(data), defaults, ps[..i])
        invariant errors == old(errors)
      {
        var p := Parse(names[i]).value;
        ResetFieldsStep(old(data), defaults, names, i);
        clone := Set(clone, p, Lookup(defaults, p).GetOr(Undef));
      }
      assert ps[..|names|] == ps;
      ClearErrors(fields);
      data := clone;
    }

    // -- errors ----------------------------------------------------------

    /** `getError(key)`: a stored key, dotted or not, reads its own entry;
        a plain key that is not stored reads nothing. */
    function GetError(key: string): (r: Option<Json>)
      reads this
      ensures key in errors ==> r == Some(errors[key])
      ensures PlainKey(key) && key !in errors ==> r == None
    {
      ParsePlainKey(key);
      ErrorAt(errors, key)
    }

    /** `setError`: the new entries merged over the errors; `hasErrors`
        says whether any remain. */
    method SetError(arg: ErrorsArg)
      modifies this`errors, this`hasErrors
      ensures errors == NewErrors(old(errors), arg) && hasErrors == (|errors| > 0)
    {
      var newErrors := match arg
        case FieldError(f, v) => errors[f := v]
        case ErrorObject(m) => errors + m;
      hasErrors := |newErrors| > 0;
      errors := newErrors;
    }

    /** `clearErrors()` empties the errors and leaves `hasErrors` alone;
        `clearErrors(fields)` drops the listed keys and recomputes it. */
    method ClearErrors(fields: FieldsArg)
      modifies this`errors, this`hasErrors
      ensures FieldsFalsy(fields) ==> errors == map[] && hasErrors == old(hasErrors)
      ensures !FieldsFalsy(fields) ==>
        errors == ClearedErrors(old(errors), Listed(fields)) && hasErrors == (|errors| > 0)
    {
      if FieldsFalsy(fields) {
        errors := map[];
        return;
      }
      var arrFields := Listed(fields);
      var newErrors := map k | k in errors && |arrFields| > 0 && k !in arrFields :: errors[k];
      hasErrors := |newErrors| > 0;
      errors := newErrors;
    }

    // -- submission --------------------------------------------------------

    /** `submit`: the payload is the transformed copy of the data, renamed
        for Rails when the form asks for it; when renaming throws, no visit
        starts. An async submit fires the before and start hooks itself, a
        router visit fires them later. The hooks file errors under the root
        model key of the data submitted. */
    method Submit(async: bool) returns (payload: Result<Json>)
      modifies this`wasSuccessful, this`recentlySuccessful, this`timerPending, this`processing
      modifies this`errorRoot
      ensures async && payload.Ok? ==> Snapshot() == Started(Before(old(Snapshot())))
      ensures !(async && payload.Ok?) ==> Snapshot() == old(Snapshot())
      ensures errorRoot == RootModelKey(data)
      ensures !railsAttributes ==> payload == Ok(transform(data))
      ensures railsAttributes && transform(data).IsNullish() ==> payload == Err
      ensures railsAttributes && SafeBelow(transform(data), RailsSuffix) ==>
        RenameObjectAs(transform(data), payload, RailsSuffix)
    {
      errorRoot := RootModelKey(data);
      var transformed := transform(data);
      if railsAttributes {
        payload := RenameObjectWithAttributes(transformed, RailsSuffix);
      } else {
        payload := Ok(transformed);
      }
      if async && payload.Ok? {
        OnBefore();
        OnStart();
      }
    }

    method OnCancelToken(token: nat)
      modifies this`cancelToken
      ensures Snapshot() == TokenReceived(old(Snapshot()), token)
    {
      cancelToken := Some(token);
    }

    method OnBefore()
      modifies this`wasSuccessful, this`recentlySuccessful, this`timerPending
      ensures Snapshot() == Before(old(Snapshot()))
    {
      wasSuccessful := false;
      recentlySuccessful := false;
      timerPending := false;
    }

    method OnStart()
      modifies this`processing
      ensures Snapshot() == Started(old(Snapshot()))
    {
      processing := true;
    }

    method OnProgress(e: Progress)
      modifies this`progress
      ensures Snapshot() == Progressed(old(Snapshot()), e)
    {
      progress := Some(e);
    }

    method OnSuccess()
      modifies this`processing, this`progress, this`errors, this`hasErrors
      modifies this`wasSuccessful, this`recentlySuccessful, this`timerPending
      ensures Snapshot() == Succeeded(old(Snapshot()))
    {
      if mounted {
        processing := false;
        progress := None;
        errors := map[];
        hasErrors := false;
        wasSuccessful := true;
        recentlySuccessful := true;
        timerPending := true;
      }
    }

    /** `onError`: the server's errors, keyed under the root model of the
        data that were submitted. */
    method OnError(errs: map<string, Json>)
      modifies this`processing, this`progress, this`errors, this`hasErrors
      ensures Snapshot() == Failed(old(Snapshot()), errs, errorRoot)
    {
      if mounted {
        processing := false;
        progress := None;
        errors := RewriteErrorKeys(errs, errorRoot);
        hasErrors := true;
      }
    }

    method OnCancel()
      modifies this`processing, this`progress
      ensures Snapshot() == Cancelled(old(Snapshot()))
    {
      if mounted {
        processing := false;
        progress := None;
      }
    }

    method OnFinish()
      modifies this`processing, this`progress, this`cancelToken
      ensures Snapshot() == Finished(old(Snapshot()))
    {
      if mounted {
        processing := false;
        progress := None;
      }
      cancelToken := None;
    }

    /** The timeout scheduled by a success fires. */
    method ExpireRecentlySuccessful()
      modifies this`timerPending, this`recentlySuccessful
      ensures Snapshot() == TimerFired(old(Snapshot()))
    {
      if timerPending {
        timerPending := false;
        if mounted {
          recentlySuccessful := false;
        }
      }
    }

    /** `cancel()`: the token of the visit in flight, if any, is the one
        to cancel (`CancelTokenOfRun` says which one that is); the visit
        then reports through `onCancel`. */
    method Cancel() returns (token: Option<nat>)
      ensures token == cancelToken
    {
      token := cancelToken;
    }
  }
}
