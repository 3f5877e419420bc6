/**
 * Two targets that differ only in the ids they generate. Whole runs are equal up to the renaming,
 * fail at the same places, and leave identical records once every moved string has surfaced as an id.
 */
module Simulation {
  import opened Assoc
  import opened Json
  import opened Matching
  import opened Renaming
  import opened Iteration
  import opened Runner

  /** Two targets, the contexts they are called with, the renaming and the relation between their states. */
  datatype Twins<!S, !T> =
    Twins(one: Target<S>, two: Target<T>, base1: Ctx, base2: Ctx, rho: Rename, rel: (S, T) -> bool)

  function RenamedRequests(calls: seq<Request>, rho: Rename): (r: seq<Request>)
    ensures |r| == |calls|
    ensures forall i :: 0 <= i < |calls| ==> r[i] == Request(calls[i].op, MapStrings(calls[i].input, rho))
  {
    seq(|calls|, i requires 0 <= i < |calls| => Request(calls[i].op, MapStrings(calls[i].input, rho)))
  }

  ghost predicate CallTwins<S, T>(p: Twins<S, T>, s: S, t: T, op: string, input: Value, patch: CtxPatch) {
    var (s', r) := p.one.call(s, op, input, Overlay(p.base1, patch));
    var (t', q) := p.two.call(t, op, MapStrings(input, p.rho), Overlay(p.base2, patch));
    p.rel(s', t') && q == RenamedResult(r, p.rho)
  }

  ghost predicate RaceTwins<S, T>(p: Twins<S, T>, s: S, t: T, calls: seq<Request>) {
    var calls' := RenamedRequests(calls, p.rho);
    && p.rel(p.one.race(s, calls, p.base1), p.two.race(t, calls', p.base2))
    && forall i: nat :: i < |calls| ==>
         p.two.outcome(t, calls', p.base2, i) == RenamedResult(p.one.outcome(s, calls, p.base1, i), p.rho)
  }

  ghost predicate TransferTwins<S, T>(p: Twins<S, T>, s: S, t: T, signed: Value, text: Option<string>)
    requires p.one.transfer.Some? && p.two.transfer.Some?
  {
    var (s', r) := p.one.transfer.value(s, signed, text);
    var (t', q) := p.two.transfer.value(t, MapStrings(signed, p.rho), text);
    p.rel(s', t') && q == r
  }

  /** The second target answers every renamed input with the renamed answer. */
  ghost predicate AnswersRenamed<S(!new), T(!new)>(p: Twins<S, T>) {
    && Lawful(p.rho)
    && (forall s, t :: p.rel(p.one.reset(s), p.two.reset(t)))
    && (forall s, t, op, input, patch :: p.rel(s, t) ==> CallTwins(p, s, t, op, input, patch))
    && (forall s, t, calls :: p.rel(s, t) ==> RaceTwins(p, s, t, calls))
    && p.one.transfer.Some? == p.two.transfer.Some?
    && (p.one.transfer.Some? ==> forall s, t, signed, text :: p.rel(s, t) ==> TransferTwins(p, s, t, signed, text))
  }

  /** The renaming moves no literal the step writes down. */
  ghost predicate LiteralsFixed(step: Step, rho: Rename) {
    match step
    case CallStep(_, _, input, _, want, _) => Fixed(input, rho) && (want.ExpectOk? ==> Fixed(want.ok, rho))
    case RaceStep(_, racers, _, _) => forall i :: 0 <= i < |RequestsOf(racers)| ==>
      Fixed(RequestsOf(racers)[i].input, rho)
    case TransferStep(_, from, _, _, _) => rho(from) == from
  }

  /** Equal records; an error, which is kept as it came, is renamed. */
  ghost predicate SameRecord(r: CallResult, q: CallResult, rho: Rename) {
    q == if r.Err? then RenamedResult(r, rho) else r
  }

  ghost predicate SameRecords(m: seq<Entry<CallResult>>, m': seq<Entry<CallResult>>, rho: Rename) {
    |m'| == |m| && forall i :: 0 <= i < |m| ==> m'[i].key == m[i].key && SameRecord(m[i].value, m'[i].value, rho)
  }

  /** Twin worlds. The records are compared only where `strict` asks for it. */
  ghost predicate TwinWorlds<S, T>(p: Twins<S, T>, w: World<S>, v: World<T>, strict: bool) {
    && p.rel(w.state, v.state)
    && RenamedRaw(w.raw, v.raw, p.rho)
    && v.ids == RenamedIds(w.ids, p.rho)
    && SamePlaces(v.failures, w.failures)
    && (strict ==> SameRecords(w.results, v.results, p.rho))
  }

  /** After a call step of the first run, every moved string its result shows has surfaced as an id. */
  ghost predicate ResultSurfaced<S>(w: World<S>, step: Step, rho: Rename) {
    step.CallStep? && step.name in w.raw && w.raw[step.name].Ok? ==> Surfaced(w.raw[step.name].value, w.ids, rho)
  }

  // ------------------------------------------------------------- ingredients

  lemma {:induction false} RenamedIdsGrow(ids: seq<string>, x: string, rho: Rename)
    requires Injective(rho)
    ensures rho(x) in RenamedIds(ids, rho) <==> x in ids
    ensures RenamedIds(ids + [x], rho) == RenamedIds(ids, rho) + [rho(x)]
  {
    if x in ids {
      var i :| 0 <= i < |ids| && ids[i] == x;
      assert RenamedIds(ids, rho)[i] == rho(x);
    }
  }

  lemma {:induction false} FreshIdRenamed(r: CallResult, ids: seq<string>, rho: Rename)
    requires Injective(rho)
    ensures FreshId(RenamedResult(r, rho), RenamedIds(ids, rho))
         == match FreshId(r, ids) case Some(x) => Some(rho(x)) case None => None
  {
    if r.Ok? && r.value.Obj? {
      var fs, id := r.value.fields, Lookup(r.value.fields, "id");
      LookupMap(fs, rho, "id");
      assert MapStrings(r.value, rho).fields == MapFields(fs, rho);
      if id.Str? {
        RenamedIdsGrow(ids, id.s, rho);
      }
    }
  }

  lemma {:induction false} CaptureRenamed(r: CallResult, ids: seq<string>, rho: Rename)
    requires Injective(rho)
    ensures CaptureId(RenamedResult(r, rho), RenamedIds(ids, rho)) == RenamedIds(CaptureId(r, ids), rho)
  {
    FreshIdRenamed(r, ids, rho);
    if FreshId(r, ids).Some? {
      RenamedIdsGrow(ids, FreshId(r, ids).value, rho);
    }
  }

  lemma {:induction false} PutSame(m: seq<Entry<CallResult>>, m': seq<Entry<CallResult>>, k: string, r: CallResult,
                                   q: CallResult, rho: Rename)
    requires SameRecords(m, m', rho) && SameRecord(r, q, rho)
    ensures SameRecords(Put(m, k, r), Put(m', k, q), rho)
  {
    if m != [] {
      assert m'[0].key == m[0].key;
      SameTail(m, m', rho);
      if m[0].key == k {
        SameCons(Entry(k, r), Entry(k, q), m[1..], m'[1..], rho);
      } else {
        PutSame(m[1..], m'[1..], k, r, q, rho);
        SameCons(m[0], m'[0], Put(m[1..], k, r), Put(m'[1..], k, q), rho);
      }
    }
  }

  lemma {:induction false} SameTail(m: seq<Entry<CallResult>>, m': seq<Entry<CallResult>>, rho: Rename)
    requires m != [] && SameRecords(m, m', rho)
    ensures SameRecords(m[1..], m'[1..], rho)
  {
  }

  lemma {:induction false} SameCons(e: Entry<CallResult>, e': Entry<CallResult>, m: seq<Entry<CallResult>>,
                                    m': seq<Entry<CallResult>>, rho: Rename)
    requires SameRecords(m, m', rho) && e'.key == e.key && SameRecord(e.value, e'.value, rho)
    ensures SameRecords([e] + m, [e'] + m', rho)
  {
  }

  /** The differences an expectation finds sit at the same places in both runs. */
  lemma {:induction false} OkDiffsTwins(step: Step, e: Value, v: Value, raw: Raw, raw': Raw, ids: seq<string>,
                                        rho: Rename)
    requires Lawful(rho) && RenamedRaw(raw, raw', rho) && Fixed(e, rho)
    ensures SamePlaces(OkDiffs(step, e, MapStrings(v, rho), raw', RenamedIds(ids, rho)), OkDiffs(step, e, v, raw, ids))
  {
    ResolveRenamed(e, raw, raw', ids, false, rho);
    NormalizeRenamed(Resolve(e, raw, ids, false), ids, rho);
    NormalizeRenamed(v, ids, rho);
    DiffsMap(Normalize(Resolve(e, raw, ids, false), ids), Normalize(v, ids), rho, "", step.name);
  }

  lemma {:induction false} AcceptsTwins(step: Step, r: CallResult, raw: Raw, raw': Raw, ids: seq<string>, rho: Rename)
    requires step.CallStep? && LiteralsFixed(step, rho) && Lawful(rho) && RenamedRaw(raw, raw', rho)
    ensures Accepts(step, RenamedResult(r, rho), raw', RenamedIds(ids, rho)) == Accepts(step, r, raw, ids)
  {
    if step.want.ExpectOk? && r.Ok? {
      OkDiffsTwins(step, step.want.ok, r.value, raw, raw', ids, rho);
    }
  }

  lemma {:induction false} VerdictTwins(step: Step, r: CallResult, raw: Raw, raw': Raw, ids: seq<string>, rho: Rename)
    requires step.CallStep? && LiteralsFixed(step, rho) && Lawful(rho) && RenamedRaw(raw, raw', rho)
    ensures SamePlaces(Verdict(step, RenamedResult(r, rho), raw', RenamedIds(ids, rho)), Verdict(step, r, raw, ids))
  {
    if step.want.ExpectOk? && r.Ok? {
      OkDiffsTwins(step, step.want.ok, r.value, raw, raw', ids, rho);
    }
  }

  // -------------------------------------------------------------------- calls

  ghost predicate TwinPolled<S, T>(p: Twins<S, T>, a: Polled<S>, b: Polled<T>) {
    p.rel(a.state, b.state) && b.result == RenamedResult(a.result, p.rho) && a.calls == b.calls
  }

  lemma {:induction false} PollTwins<S(!new), T(!new)>(p: Twins<S, T>, step: Step, input: Value, raw: Raw, raw': Raw,
                                                       ids: seq<string>, attempts: int, s: S, t: T, r: CallResult,
                                                       i: nat)
    requires AnswersRenamed(p) && step.CallStep? && LiteralsFixed(step, p.rho) && RenamedRaw(raw, raw', p.rho)
             && p.rel(s, t)
    ensures TwinPolled(p,
              Poll(p.one, step, input, Overlay(p.base1, step.ctx), raw, ids, attempts, s, r, i),
              Poll(p.two, step, MapStrings(input, p.rho), Overlay(p.base2, step.ctx), raw', RenamedIds(ids, p.rho),
                   attempts, t, RenamedResult(r, p.rho), i))
    decreases attempts - i
  {
    AcceptsTwins(step, r, raw, raw', ids, p.rho);
    if i < attempts && !Accepts(step, r, raw, ids) {
      assert CallTwins(p, s, t, step.op, input, step.ctx);
      var (s', r') := p.one.call(s, step.op, input, Overlay(p.base1, step.ctx));
      var (t', _) := p.two.call(t, step.op, MapStrings(input, p.rho), Overlay(p.base2, step.ctx));
      PollTwins(p, step, input, raw, raw', ids, attempts, s', t', r', i + 1);
    }
  }

  lemma {:induction false} CalledTwins<S(!new), T(!new)>(p: Twins<S, T>, w: World<S>, v: World<T>, step: Step,
                                                         strict: bool)
    requires AnswersRenamed(p) && TwinWorlds(p, w, v, strict) && step.CallStep? && LiteralsFixed(step, p.rho)
    ensures TwinPolled(p, Called(w, p.one, p.base1, step), Called(v, p.two, p.base2, step))
  {
    var input := Resolve(step.input, w.raw, w.ids, true);
    ResolveRenamed(step.input, w.raw, v.raw, w.ids, true, p.rho);
    assert CallTwins(p, w.state, v.state, step.op, input, step.ctx);
    if step.eventually.Some? {
      var (s, r) := p.one.call(w.state, step.op, input, Overlay(p.base1, step.ctx));
      var (t, _) := p.two.call(v.state, step.op, MapStrings(input, p.rho), Overlay(p.base2, step.ctx));
      PollTwins(p, step, input, w.raw, v.raw, w.ids, step.eventually.value, s, t, r, 1);
    }
  }

  /** A call record does not show the renaming once its moved strings have surfaced. */
  lemma {:induction false} RecordTwins(r: CallResult, ids: seq<string>, rho: Rename)
    requires Lawful(rho) && (r.Ok? ==> Surfaced(r.value, ids, rho))
    ensures SameRecord(CallRecord(r, ids), CallRecord(RenamedResult(r, rho), RenamedIds(ids, rho)), rho)
  {
    if r.Ok? {
      NormalizeRenamed(r.value, ids, rho);
      SurfacedErases(r.value, ids, rho);
    }
  }

  lemma {:induction false} AfterCallTwins<S(!new), T(!new)>(p: Twins<S, T>, w: World<S>, v: World<T>, step: Step,
                                                            strict: bool)
    requires AnswersRenamed(p) && TwinWorlds(p, w, v, strict) && step.CallStep? && LiteralsFixed(step, p.rho)
    requires strict ==> ResultSurfaced(AfterCall(w, p.one, p.base1, step), step, p.rho)
    ensures TwinWorlds(p, AfterCall(w, p.one, p.base1, step), AfterCall(v, p.two, p.base2, step), strict)
  {
    CalledTwins(p, w, v, step, strict);
    var a, b := Called(w, p.one, p.base1, step), Called(v, p.two, p.base2, step);
    var ids, raw, raw' := CaptureId(a.result, w.ids), w.raw[step.name := a.result], v.raw[step.name := b.result];
    CaptureRenamed(a.result, w.ids, p.rho);
    VerdictTwins(step, a.result, raw, raw', ids, p.rho);
    PlacesConcat(v.failures, w.failures, Verdict(step, b.result, raw', RenamedIds(ids, p.rho)),
                 Verdict(step, a.result, raw, ids));
    if strict {
      CallRecordsSame(w.results, v.results, step.name, a.result, ids, p.rho);
    }
  }

  lemma {:induction false} PlacesConcat(fs: seq<Failure>, gs: seq<Failure>, fs': seq<Failure>, gs': seq<Failure>)
    requires SamePlaces(fs, gs) && SamePlaces(fs', gs')
    ensures SamePlaces(fs + fs', gs + gs')
  {
  }

  lemma {:induction false} CallRecordsSame(m: seq<Entry<CallResult>>, m': seq<Entry<CallResult>>, name: string,
                                           r: CallResult, ids: seq<string>, rho: Rename)
    requires Lawful(rho) && SameRecords(m, m', rho) && (r.Ok? ==> Surfaced(r.value, ids, rho))
    ensures SameRecords(Put(m, name, CallRecord(r, ids)),
                        Put(m', name, CallRecord(RenamedResult(r, rho), RenamedIds(ids, rho))), rho)
  {
    RecordTwins(r, ids, rho);
    PutSame(m, m', name, CallRecord(r, ids), CallRecord(RenamedResult(r, rho), RenamedIds(ids, rho)), rho);
  }

  // -------------------------------------------------------------------- races

  function RenamedResults(rs: seq<CallResult>, rho: Rename): (r: seq<CallResult>)
    ensures |r| == |rs|
    ensures forall i :: 0 <= i < |rs| ==> r[i] == RenamedResult(rs[i], rho)
  {
    seq(|rs|, i requires 0 <= i < |rs| => RenamedResult(rs[i], rho))
  }

  lemma {:induction false} TallyTwins(step: Step, rs: seq<CallResult>, rho: Rename)
    requires step.RaceStep?
    ensures var qs := RenamedResults(rs, rho);
            && Successes(qs) == Successes(rs) && Codes(qs) == Codes(rs)
            && SamePlaces(CodeFailures(step, qs), CodeFailures(step, rs))
            && Winner(qs) == (match Winner(rs) case Some(r) => Some(RenamedResult(r, rho)) case None => None)
  {
    if rs != [] {
      TallyTwins(step, rs[1..], rho);
      assert RenamedResults(rs, rho)[1..] == RenamedResults(rs[1..], rho);
    }
  }

  lemma {:induction false} OutcomesTwins<S(!new), T(!new)>(p: Twins<S, T>, w: World<S>, v: World<T>, step: Step,
                                                           strict: bool)
    requires AnswersRenamed(p) && TwinWorlds(p, w, v, strict) && step.RaceStep? && LiteralsFixed(step, p.rho)
    ensures var calls, calls' := Resolved(RequestsOf(step.racers), w.raw, w.ids),
            Resolved(RequestsOf(step.racers), v.raw, v.ids);
            && p.rel(p.one.race(w.state, calls, p.base1), p.two.race(v.state, calls', p.base2))
            && Outcomes(p.two, v.state, calls', p.base2)
              == RenamedResults(Outcomes(p.one, w.state, calls, p.base1), p.rho)
  {
    var reqs := RequestsOf(step.racers);
    var calls, calls' := Resolved(reqs, w.raw, w.ids), Resolved(reqs, v.raw, v.ids);
    forall i | 0 <= i < |reqs| ensures calls'[i] == RenamedRequests(calls, p.rho)[i] {
      ResolveRenamed(reqs[i].input, w.raw, v.raw, w.ids, true, p.rho);
    }
    assert calls' == RenamedRequests(calls, p.rho);
    assert RaceTwins(p, w.state, v.state, calls);
  }

  lemma {:induction false} RaceRecordTwins(step: Step, rs: seq<CallResult>, rho: Rename)
    requires step.RaceStep?
    ensures RaceRecord(RenamedResults(rs, rho)) == RaceRecord(rs)
  {
    TallyTwins(step, rs, rho);
  }

  lemma {:induction false} AfterRaceTwins<S(!new), T(!new)>(p: Twins<S, T>, w: World<S>, v: World<T>, step: Step,
                                                            strict: bool)
    requires AnswersRenamed(p) && TwinWorlds(p, w, v, strict) && step.RaceStep? && LiteralsFixed(step, p.rho)
    ensures TwinWorlds(p, AfterRace(w, p.one, p.base1, step), AfterRace(v, p.two, p.base2, step), strict)
  {
    OutcomesTwins(p, w, v, step, strict);
    var rs := Outcomes(p.one, w.state, Resolved(RequestsOf(step.racers), w.raw, w.ids), p.base1);
    var w', v' := AfterRace(w, p.one, p.base1, step), AfterRace(v, p.two, p.base2, step);
    TallyTwins(step, rs, p.rho);
    assert SamePlaces(v'.failures, w'.failures);
    assert v'.ids == RenamedIds(w'.ids, p.rho) && RenamedRaw(w'.raw, v'.raw, p.rho) by {
      if Winner(rs).Some? {
        CaptureRenamed(Winner(rs).value, w.ids, p.rho);
      }
    }
    if strict {
      RaceRecordTwins(step, rs, p.rho);
      PutSame(w.results, v.results, step.name, RaceRecord(rs), RaceRecord(RenamedResults(rs, p.rho)), p.rho);
    }
  }

  // ---------------------------------------------------------------- transfers

  lemma {:induction false} AfterTransferTwins<S(!new), T(!new)>(p: Twins<S, T>, w: World<S>, v: World<T>, step: Step,
                                                                strict: bool)
    requires AnswersRenamed(p) && TwinWorlds(p, w, v, strict) && step.TransferStep? && LiteralsFixed(step, p.rho)
    ensures TwinWorlds(p, AfterTransfer(w, p.one, step), AfterTransfer(v, p.two, step), strict)
  {
    if p.one.transfer.Some? {
      var signed := Resolve(Str(step.from), w.raw, w.ids, true);
      ResolveRenamed(Str(step.from), w.raw, v.raw, w.ids, true, p.rho);
      assert TransferTwins(p, w.state, v.state, signed, step.text);
      var (s, r) := p.one.transfer.value(w.state, signed, step.text);
      if strict {
        var record := Ok(Obj([Field("status", Num(r.status as real))]));
        PutSame(w.results, v.results, step.name, record, record, p.rho);
      }
    }
  }

  // --------------------------------------------------------------------- runs

  lemma {:induction false} AfterStepTwins<S(!new), T(!new)>(p: Twins<S, T>, w: World<S>, v: World<T>, step: Step,
                                                            strict: bool)
    requires AnswersRenamed(p) && TwinWorlds(p, w, v, strict) && LiteralsFixed(step, p.rho)
    requires strict ==> ResultSurfaced(AfterStep(w, p.one, p.base1, step), step, p.rho)
    ensures TwinWorlds(p, AfterStep(w, p.one, p.base1, step), AfterStep(v, p.two, p.base2, step), strict)
  {
    match step
    case TransferStep(_, _, _, _, _) => AfterTransferTwins(p, w, v, step, strict);
    case RaceStep(_, _, _, _) => AfterRaceTwins(p, w, v, step, strict);
    case CallStep(_, _, _, _, _, _) => AfterCallTwins(p, w, v, step, strict);
  }

  ghost predicate ScenarioFixed(sc: Scenario, rho: Rename) {
    forall i :: 0 <= i < |sc.steps| ==> LiteralsFixed(sc.steps[i], rho)
  }

  /** Whatever the ids, both runs fail at exactly the same steps and paths and know corresponding ids. */
  lemma {:induction false} RunsFailAlike<S(!new), T(!new)>(p: Twins<S, T>, sc: Scenario, s: S, t: T)
    requires AnswersRenamed(p) && ScenarioFixed(sc, p.rho)
    ensures var w, v := Run(sc, p.one, p.base1, s), Run(sc, p.two, p.base2, t);
            && SamePlaces(v.failures, w.failures)
            && v.ids == RenamedIds(w.ids, p.rho)
            && RenamedRaw(w.raw, v.raw, p.rho)
  {
    var f, g := Stepper(p.one, p.base1, sc.steps), Stepper(p.two, p.base2, sc.steps);
    var rel := (w: World<S>, v: World<T>, i: nat) => TwinWorlds(p, w, v, false);
    forall w: World<S>, v: World<T>, i: nat | i < |sc.steps| && rel(w, v, i) ensures rel(f(w, i), g(v, i), i + 1) {
      AfterStepTwins(p, w, v, sc.steps[i], false);
    }
    Induction2(f, Start(p.one, s), g, Start(p.two, t), rel, |sc.steps|);
  }

  /** Every renamed string of the first run surfaces as a captured id before a record could show it. */
  ghost predicate RunSurfaced<S>(p: Target<S>, base: Ctx, sc: Scenario, s: S, rho: Rename) {
    forall n: nat :: n < |sc.steps| ==> ResultSurfaced(RunTo(p, base, sc.steps, s, n + 1), sc.steps[n], rho)
  }

  /** The first world is that of the run after `i` steps, and the second is its twin. */
  ghost predicate OnCourse<S, T>(p: Twins<S, T>, sc: Scenario, s: S, w: World<S>, v: World<T>, i: nat) {
    w == RunTo(p.one, p.base1, sc.steps, s, i) && TwinWorlds(p, w, v, true)
  }

  lemma {:induction false} NextTwins<S(!new), T(!new)>(p: Twins<S, T>, sc: Scenario, s: S, w: World<S>, v: World<T>,
                                                       i: nat)
    requires AnswersRenamed(p) && ScenarioFixed(sc, p.rho) && RunSurfaced(p.one, p.base1, sc, s, p.rho)
    requires i < |sc.steps| && OnCourse(p, sc, s, w, v, i)
    ensures OnCourse(p, sc, s, AfterStep(w, p.one, p.base1, sc.steps[i]), AfterStep(v, p.two, p.base2, sc.steps[i]),
                     i + 1)
  {
    assert ResultSurfaced(RunTo(p.one, p.base1, sc.steps, s, i + 1), sc.steps[i], p.rho);
    AfterStepTwins(p, w, v, sc.steps[i], true);
  }

  /**
   * The reports of both runs carry identical records for ok calls, races and transfers, errors equal up to
   * the renaming, and failures at the same places.
   */
  lemma {:induction false} RunsRecordAlike<S(!new), T(!new)>(p: Twins<S, T>, sc: Scenario, s: S, t: T)
    requires AnswersRenamed(p) && ScenarioFixed(sc, p.rho)
    requires RunSurfaced(p.one, p.base1, sc, s, p.rho)
    ensures var a, b := ReportOf(sc, p.one, Run(sc, p.one, p.base1, s)),
            ReportOf(sc, p.two, Run(sc, p.two, p.base2, t));
            SameRecords(a.results, b.results, p.rho) && SamePlaces(b.failures, a.failures)
  {
    var f, g := Stepper(p.one, p.base1, sc.steps), Stepper(p.two, p.base2, sc.steps);
    var rel := (w: World<S>, v: World<T>, i: nat) => OnCourse(p, sc, s, w, v, i);
    forall w: World<S>, v: World<T>, i: nat | i < |sc.steps| && rel(w, v, i) ensures rel(f(w, i), g(v, i), i + 1) {
      NextTwins(p, sc, s, w, v, i);
    }
    TwinStart(p, s, t);
    assert RunTo(p.one, p.base1, sc.steps, s, 0) == Start(p.one, s);
    Induction2(f, Start(p.one, s), g, Start(p.two, t), rel, |sc.steps|);
  }

  lemma {:induction false} TwinStart<S(!new), T(!new)>(p: Twins<S, T>, s: S, t: T)
    requires AnswersRenamed(p)
    ensures TwinWorlds(p, Start(p.one, s), Start(p.two, t), true)
  {
  }
}
