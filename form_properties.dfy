/** What the form's operations and hooks promise, stated on the functions
    that specify them. */
module FormProperties {
  import opened JsonValues
  import opened Paths
  import opened Tree
  import opened InertiaForm

  // ---------------------------------------------------------------------
  // Root model key and server errors

  /** The root model key is the one key of an object holding a plain
      object, or `"0"` for a one-element array holding one. */
  lemma RootModelKeySpec(data: Json, k: string)
    ensures RootModelKey(data) == Some(k) <==>
      || (data.Obj? && data.fields.Keys == {k} && data.fields[k].Obj?)
      || (data.Arr? && |data.items| == 1 && data.items[0].Obj? && k == "0")
  {
    if data.Obj? && data.fields.Keys == {k} {
      assert |data.fields| == |data.fields.Keys| == 1;
      assert OnlyKey(data.fields) == k;
    }
  }

  /** Under a root model key `r` every server error `k` is filed as `r.k`,
      and every stored key is such an `r.k` holding the error of `k`. */
  lemma RewriteErrorKeysSpec(errs: map<string, Json>, r: string)
    requires r != ""
    ensures forall k :: k in errs ==>
      Prefixed(r, k) in RewriteErrorKeys(errs, Some(r)) && RewriteErrorKeys(errs, Some(r))[Prefixed(r, k)] == errs[k]
    ensures forall k' :: k' in RewriteErrorKeys(errs, Some(r)) ==>
      && |k'| > |r| && k'[..|r| + 1] == r + "."
      && Unprefixed(r, k') in errs
      && RewriteErrorKeys(errs, Some(r))[k'] == errs[Unprefixed(r, k')]
  {
    var out := RewriteErrorKeys(errs, Some(r));
    forall k' | k' in out
      ensures |k'| > |r| && k'[..|r| + 1] == r + "."
      ensures Unprefixed(r, k') in errs && out[k'] == errs[Unprefixed(r, k')]
    {
      var k :| k in errs && k' == Prefixed(r, k);
      PrefixedInverse(r, k);
    }
  }

  /** Without a usable root model key the server's errors are stored as
      they come. */
  lemma ErrorsWithoutRoot(data: Json, errs: map<string, Json>)
    requires RootModelKey(data).None? || RootModelKey(data) == Some("")
    ensures RewriteErrorKeys(errs, RootModelKey(data)) == errs
  {
  }

  // ---------------------------------------------------------------------
  // setError, getError, clearErrors

  /** After `setError(field, value)` the field's error reads back, the
      other errors stay, and `hasErrors` holds. */
  lemma SetErrorThenGet(errors: map<string, Json>, f: string, v: Json)
    ensures ErrorAt(NewErrors(errors, FieldError(f, v)), f) == Some(v)
    ensures forall k :: k in errors && k != f ==> NewErrors(errors, FieldError(f, v))[k] == errors[k]
    ensures NewErrors(errors, FieldError(f, v)).Keys == errors.Keys + {f}
    ensures |NewErrors(errors, FieldError(f, v))| > 0
  {
    assert f in NewErrors(errors, FieldError(f, v));
  }

  /** `setError(object)` keeps every old key and lets the new entries win. */
  lemma SetErrorsMerge(errors: map<string, Json>, m: map<string, Json>)
    ensures NewErrors(errors, ErrorObject(m)).Keys == errors.Keys + m.Keys
    ensures forall k :: k in m ==> ErrorAt(NewErrors(errors, ErrorObject(m)), k) == Some(m[k])
    ensures forall k :: k in errors && k !in m ==> NewErrors(errors, ErrorObject(m))[k] == errors[k]
  {
  }

  /** `clearErrors(fields)` keeps exactly the errors whose key is not listed;
      an empty list keeps none. */
  lemma ClearedErrorsSpec(errors: map<string, Json>, fields: seq<string>)
    ensures |fields| > 0 ==>
      && (forall k :: k in ClearedErrors(errors, fields) <==> k in errors && k !in fields)
      && (forall k :: k in ClearedErrors(errors, fields) ==> ClearedErrors(errors, fields)[k] == errors[k])
    ensures |fields| == 0 ==> ClearedErrors(errors, fields) == map[]
  {
  }

  // ---------------------------------------------------------------------
  // setDefaults(key, value)

  /** `setDefaults(key, value)` writes one top-level key, named `key`
      literally, and leaves every path that starts elsewhere as it was. */
  lemma SetDefaultTopLevel(defaults: Json, k: string, v: Json, q: Path)
    requires defaults.Obj? && q != [] && q[0] != Key(k) && Get(defaults, q).Some?
    ensures Get(Obj(Spread(defaults)[k := v]), [Key(k)]) == Some(v)
    ensures Get(Obj(Spread(defaults)[k := v]), q) == Get(defaults, q)
  {
    assert Child(Obj(Spread(defaults)[k := v]), q[0]) == Child(defaults, q[0]);
  }

  /** A dotted key such as `user.username` is not the path it spells: the
      first token of that path is not the whole key. */
  lemma DottedKeyIsNotItsPath(k: string)
    requires '.' in k && Parse(k).Some?
    ensures Parse(k).value[0] != Key(k)
  {
    var n := KeyLength(k);
    var rest := k[n..];
    var j :| 0 <= j < |k| && k[j] == '.';
    PlainPrefix(k, n);
    assert n <= j;
    assert rest != [];
    var t := ParseTail(rest).value;
    if k[..n] == "" && rest[0] == '[' {
      BracketFirst(rest);
    } else {
      assert Parse(k).value[0] == Key(k[..n]);
      assert |k[..n]| < |k|;
    }
  }

  lemma PlainPrefix(k: string, n: nat)
    requires n <= |k| && PlainKey(k[..n])
    ensures forall i :: 0 <= i < n ==> IsKeyChar(k[i])
  {
    forall i | 0 <= i < n
      ensures IsKeyChar(k[i])
    {
      assert k[..n][i] == k[i];
    }
  }

  lemma BracketFirst(s: string)
    requires s != [] && s[0] == '[' && ParseTail(s).Some?
    ensures ParseTail(s).value[0].IsBracket()
  {
  }

  /** So `setDefaults("user.username", v)` leaves the nested
      `user.username` of the defaults untouched. */
  lemma SetDefaultDottedKey(defaults: Json, k: string, v: Json)
    requires defaults.Obj? && '.' in k && Parse(k).Some? && Get(defaults, Parse(k).value).Some?
    ensures Get(Obj(Spread(defaults)[k := v]), Parse(k).value) == Get(defaults, Parse(k).value)
  {
    DottedKeyIsNotItsPath(k);
    SetDefaultTopLevel(defaults, k, v, Parse(k).value);
  }

  // ---------------------------------------------------------------------
  // reset(fields)

  lemma {:induction false} ResetFieldsAppend(d: Json, defaults: Json, a: seq<Path>, b: seq<Path>)
    ensures ResetFields(d, defaults, a + b) == ResetFields(ResetFields(d, defaults, a), defaults, b)
    decreases |b|
  {
    if b == [] {
      assert a + b == a;
    } else {
      var n := |b| - 1;
      assert (a + b)[..|a + b| - 1] == a + b[..n];
      ResetFieldsAppend(d, defaults, a, b[..n]);
    }
  }

  /** `reset(fields)` leaves alone every path that parts ways with all the
      listed ones. */
  lemma {:induction false} ResetFieldsFrame(d: Json, defaults: Json, ps: seq<Path>, q: Path)
    requires Get(d, q).Some?
    requires forall l :: 0 <= l < |ps| ==> Diverges(ps[l], q)
    ensures Get(ResetFields(d, defaults, ps), q) == Get(d, q)
    decreases |ps|
  {
    if ps != [] {
      var n := |ps| - 1;
      ResetFieldsFrame(d, defaults, ps[..n], q);
      var j :| 0 <= j < |ps[n]| && j < |q| && ps[n][..j] == q[..j] && ps[n][j] != q[j];
      GetSetOther(ResetFields(d, defaults, ps[..n]), ps[n], q, DefaultAt(defaults, ps[n]), j);
    }
  }

  /** A listed path that `set` can write when its turn comes, and that no
      later listed path overlaps, reads its default after `reset(fields)`,
      whether or not it was present before. */
  lemma ResetFieldsReads(d: Json, defaults: Json, ps: seq<Path>, j: nat)
    requires j < |ps| && ps[j] != [] && Settable(ResetFields(d, defaults, ps[..j]), ps[j])
    requires forall l :: j < l < |ps| ==> Diverges(ps[l], ps[j])
    ensures Lookup(ResetFields(d, defaults, ps), ps[j]) == Some(DefaultAt(defaults, ps[j]))
  {
    var p := ps[j];
    ResetPrefixReads(d, defaults, ps, j);
    var mid := ResetFields(d, defaults, ps[..j + 1]);
    var rest := ps[j + 1..];
    assert forall l :: 0 <= l < |rest| ==> Diverges(rest[l], p) by {
      forall l | 0 <= l < |rest| ensures Diverges(rest[l], p) {
        assert rest[l] == ps[j + 1 + l];
      }
    }
    ResetFieldsFrame(mid, defaults, rest, p);
    SplitAt(ps, j + 1);
    ResetFieldsAppend(d, defaults, ps[..j + 1], rest);
    assert Get(ResetFields(d, defaults, ps), p) == Get(mid, p);
  }

  /** A listed path present in the data, apart from every other listed
      path, can be written when its turn comes. */
  lemma PresentSettable(d: Json, defaults: Json, ps: seq<Path>, j: nat)
    requires j < |ps| && Get(d, ps[j]).Some?
    requires forall l :: 0 <= l < j ==> Diverges(ps[l], ps[j])
    ensures Settable(ResetFields(d, defaults, ps[..j]), ps[j])
  {
    var pre := ps[..j];
    assert forall l :: 0 <= l < |pre| ==> Diverges(pre[l], ps[j]) by {
      forall l | 0 <= l < |pre| ensures Diverges(pre[l], ps[j]) {
        assert pre[l] == ps[l];
      }
    }
    ResetFieldsFrame(d, defaults, pre, ps[j]);
    ExistingSettable(ResetFields(d, defaults, pre), ps[j]);
  }

  lemma SplitAt(ps: seq<Path>, i: nat)
    requires i <= |ps|
    ensures ps[..i] + ps[i..] == ps
  {
  }

  /** Right after its own step, the listed path reads its default. */
  lemma ResetPrefixReads(d: Json, defaults: Json, ps: seq<Path>, j: nat)
    requires j < |ps| && Settable(ResetFields(d, defaults, ps[..j]), ps[j])
    ensures Get(ResetFields(d, defaults, ps[..j + 1]), ps[j]) == Some(DefaultAt(defaults, ps[j]))
  {
    var before := ResetFields(d, defaults, ps[..j]);
    GetSet(before, ps[j], DefaultAt(defaults, ps[j]));
    assert ps[..j + 1][..j] == ps[..j];
  }

  // ---------------------------------------------------------------------
  // Submission hooks

  lemma {:induction false} RunAppend(s: Status, root: Option<string>, a: seq<Event>, b: seq<Event>)
    ensures Run(s, root, a + b) == Run(Run(s, root, a), root, b)
    decreases |a|
  {
    if a == [] {
      assert a + b == b;
    } else {
      assert (a + b)[0] == a[0];
      assert (a + b)[1..] == a[1..] + b;
      RunAppend(Apply(s, root, a[0]), root, a[1..], b);
    }
  }

  /** Every hook keeps `timerPending ==> recentlySuccessful ==>
      wasSuccessful`, so no sequence of events breaks it. */
  lemma {:induction false} RunConsistent(s: Status, root: Option<string>, es: seq<Event>)
    requires Consistent(s)
    ensures Consistent(Run(s, root, es))
    decreases |es|
  {
    if es != [] {
      ApplyConsistent(s, root, es[0]);
      RunConsistent(Apply(s, root, es[0]), root, es[1..]);
    }
  }

  /** Each hook on its own keeps `Consistent`. */
  lemma ApplyConsistent(s: Status, root: Option<string>, e: Event)
    requires Consistent(s)
    ensures Consistent(Apply(s, root, e))
  {
    match e
    case SuccessEvent =>
    case TimerEvent =>
    case BeforeEvent =>
    case _ =>
  }

  /** Upload progress only moves `progress`, to the latest event. */
  lemma {:induction false} UploadsOnlyProgress(s: Status, root: Option<string>, ps: seq<Progress>)
    ensures Run(s, root, Uploads(ps)) == if ps == [] then s else s.(progress := Some(ps[|ps| - 1]))
    decreases |ps|
  {
    if ps != [] {
      var n := |ps| - 1;
      assert Uploads(ps) == Uploads(ps[..n]) + [ProgressEvent(ps[n])];
      RunAppend(s, root, Uploads(ps[..n]), [ProgressEvent(ps[n])]);
      UploadsOnlyProgress(s, root, ps[..n]);
    }
  }

  /** An async submission that succeeds while mounted: before, start, any
      uploads, success, finish. It ends idle, successful, without errors
      and without a cancel token, with the `recentlySuccessful` timer set. */
  lemma AsyncSuccess(s: Status, root: Option<string>, ps: seq<Progress>)
    requires s.mounted
    ensures var r := Run(s, root, [BeforeEvent, StartEvent] + Uploads(ps) + [SuccessEvent, FinishEvent]);
      && !r.processing && r.progress.None?
      && r.errors == map[] && !r.hasErrors
      && r.wasSuccessful && r.recentlySuccessful && r.timerPending
      && r.cancelToken.None? && r.mounted
  {
    var started := Started(Before(s));
    assert Run(s, root, [BeforeEvent, StartEvent]) == started;
    RunAppend(s, root, [BeforeEvent, StartEvent], Uploads(ps));
    UploadsOnlyProgress(started, root, ps);
    RunAppend(s, root, [BeforeEvent, StartEvent] + Uploads(ps), [SuccessEvent, FinishEvent]);
    RunTwo(Run(s, root, [BeforeEvent, StartEvent] + Uploads(ps)), root, SuccessEvent, FinishEvent);
  }

  lemma RunTwo(s: Status, root: Option<string>, e1: Event, e2: Event)
    ensures Run(s, root, [e1, e2]) == Apply(Apply(s, root, e1), root, e2)
  {
    assert [e1, e2][1..] == [e2];
    assert [e2][1..] == [];
    var s1 := Apply(s, root, e1);
    assert Run(s1, root, [e2]) == Run(Apply(s1, root, e2), root, []);
  }

  /** An async submission the server rejects while mounted ends idle, not
      successful, without a cancel token, holding the server's errors
      under the root model key. */
  lemma AsyncError(s: Status, root: Option<string>, ps: seq<Progress>, errs: map<string, Json>)
    requires s.mounted
    ensures var r := Run(s, root, [BeforeEvent, StartEvent] + Uploads(ps) + [ErrorEvent(errs), FinishEvent]);
      && !r.processing && r.progress.None?
      && r.errors == RewriteErrorKeys(errs, root) && r.hasErrors
      && !r.wasSuccessful && !r.recentlySuccessful && !r.timerPending
      && r.cancelToken.None?
  {
    var started := Started(Before(s));
    assert Run(s, root, [BeforeEvent, StartEvent]) == started;
    RunAppend(s, root, [BeforeEvent, StartEvent], Uploads(ps));
    UploadsOnlyProgress(started, root, ps);
    RunAppend(s, root, [BeforeEvent, StartEvent] + Uploads(ps), [ErrorEvent(errs), FinishEvent]);
    RunTwo(Run(s, root, [BeforeEvent, StartEvent] + Uploads(ps)), root, ErrorEvent(errs), FinishEvent);
  }

  /** The token `cancel()` acts on, read off the events: the one the latest
      `onCancelToken` delivered, unless `onFinish` came after it. */
  function LatestToken(init: Option<nat>, es: seq<Event>): Option<nat>
    decreases |es|
  {
    if es == [] then init
    else
      match es[|es| - 1]
      case TokenEvent(t) => Some(t)
      case FinishEvent => None
      case _ => LatestToken(init, es[..|es| - 1])
  }

  /** The form's cancel token after any sequence of hooks is the latest
      token no `onFinish` has dropped since. */
  lemma {:induction false} CancelTokenOfRun(s: Status, root: Option<string>, es: seq<Event>)
    ensures Run(s, root, es).cancelToken == LatestToken(s.cancelToken, es)
    decreases |es|
  {
    if es != [] {
      var n := |es| - 1;
      var init := es[..n];
      assert es == init + [es[n]];
      RunAppend(s, root, init, [es[n]]);
      CancelTokenOfRun(s, root, init);
      var before := Run(s, root, init);
      assert Run(before, root, [es[n]]) == Apply(before, root, es[n]) by {
        assert [es[n]][1..] == [];
      }
      ApplyToken(before, root, es[n]);
    }
  }

  /** `onCancelToken` stores its token, `onFinish` drops it, and no other
      hook touches it. */
  lemma ApplyToken(s: Status, root: Option<string>, e: Event)
    ensures Apply(s, root, e).cancelToken ==
      match e
      case TokenEvent(t) => Some(t)
      case FinishEvent => None
      case _ => s.cancelToken
  {
  }

  /** Once unmounted, no event touches the errors or `hasErrors`, and the
      form stays unmounted. */
  lemma {:induction false} UnmountedKeepsErrors(s: Status, root: Option<string>, es: seq<Event>)
    requires !s.mounted
    ensures Run(s, root, es).errors == s.errors && Run(s, root, es).hasErrors == s.hasErrors
    ensures !Run(s, root, es).mounted
    decreases |es|
  {
    if es != [] {
      UnmountedStep(s, root, es[0]);
      UnmountedKeepsErrors(Apply(s, root, es[0]), root, es[1..]);
    }
  }

  /** One event on an unmounted form. */
  lemma UnmountedStep(s: Status, root: Option<string>, e: Event)
    requires !s.mounted
    ensures Apply(s, root, e).errors == s.errors && Apply(s, root, e).hasErrors == s.hasErrors
    ensures !Apply(s, root, e).mounted
  {
    match e
    case SuccessEvent =>
    case ErrorEvent(_) =>
    case _ =>
  }

  /** While mounted, the timer a success schedules clears
      `recentlySuccessful` and keeps `wasSuccessful`; a new submission in
      between clears the timer, so it no longer fires. */
  lemma SuccessTimer(s: Status, root: Option<string>)
    requires s.mounted
    ensures var r := Run(s, root, [SuccessEvent, TimerEvent]);
      r.wasSuccessful && !r.recentlySuccessful && !r.timerPending
    ensures Run(s, root, [SuccessEvent, BeforeEvent, TimerEvent]) == Run(s, root, [SuccessEvent, BeforeEvent])
  {
  }
}
