/**
 * When two profiles that differ in their generated ids drift: the verdict of the differential is read off the
 * records of one of them.
 */
module TwinDrift {
  import opened Assoc
  import opened Json
  import opened Matching
  import opened Renaming
  import opened Iteration
  import opened Runner
  import opened RunLaws
  import opened Simulation
  import opened Surfacing
  import opened Walk
  import opened Agreement
  import opened Differential
  import opened Drift

  // -------------------------------------------------- a value and its renaming

  /** The renaming moves a string of `v` that no explained key excuses; `under` says that one is in force. */
  ghost predicate Shows(v: Value, under: bool, rho: Rename)
    decreases Height(v)
  {
    match v
    case Str(s) => !under && rho(s) != s
    case Arr(xs) => exists i :: 0 <= i < |xs| && Shows(xs[i], under, rho)
    case Obj(fs) =>
      exists k :: k in KeysOf(fs) && Height(Lookup(fs, k)) < Height(v) && Shows(Lookup(fs, k), k in EXPLAINED_KEYS, rho)
    case _ => false
  }

  /** A value agrees with its renaming exactly when nothing shows. */
  lemma {:induction false} ShowsExactly(v: Value, under: bool, rho: Rename)
    ensures Agrees(v, MapStrings(v, rho), under, EXPLAINED_KEYS) <==> !Shows(v, under, rho)
    decreases Height(v)
  {
    var m := MapStrings(v, rho);
    match v
    case Arr(xs) =>
      forall i | 0 <= i < |xs|
        ensures Agrees(xs[i], m.items[i], under, EXPLAINED_KEYS) <==> !Shows(xs[i], under, rho)
      {
        ShowsExactly(xs[i], under, rho);
      }
    case Obj(fs) =>
      AgreesByKeys(v, m, under, EXPLAINED_KEYS);
      assert OwnKeys(m) == OwnKeys(v);
      forall k | k in KeysOf(fs)
        ensures Height(Lookup(fs, k)) < Height(v)
        ensures Agrees(Get(v, k), Get(m, k), k in EXPLAINED_KEYS, EXPLAINED_KEYS)
                <==> !Shows(Lookup(fs, k), k in EXPLAINED_KEYS, rho)
      {
        GetLower(v, k);
        GetMap(v, rho, k);
        ShowsExactly(Lookup(fs, k), k in EXPLAINED_KEYS, rho);
      }
    case _ =>
  }

  ghost predicate AgreeAt(a: Value, b: Value, k: string)
    requires IsContainer(a) && IsContainer(b)
  {
    Agrees(Get(a, k), Get(b, k), k in EXPLAINED_KEYS, EXPLAINED_KEYS)
  }

  lemma {:induction false} AgreeingByKeys(a: Value, b: Value)
    requires a.Obj? && b.Obj? && KeysOf(a.fields) == KeysOf(b.fields)
    ensures Agreeing(a, b) <==> forall k :: k in KeysOf(a.fields) ==> AgreeAt(a, b, k)
  {
    WalkAgrees(a, b, "", None);
    AgreesByKeys(a, b, false, EXPLAINED_KEYS);
    var ks := BothKeys(a, b);
    assert forall k :: k in ks <==> k in KeysOf(a.fields);
    assert forall k :: k in ks ==>
      (AgreeAt(a, b, k) <==> Agrees(Get(a, k), Get(b, k), k in EXPLAINED_KEYS, EXPLAINED_KEYS));
  }

  /** Objects that differ at most in the value of their last key, which is not an explained one. */
  lemma {:induction false} LastFieldDecides(front: seq<Field>, f: Field, g: Field)
    requires f.key == g.key && f.key !in EXPLAINED_KEYS && f.key !in KeysOf(front)
    ensures Agreeing(Obj(front + [f]), Obj(front + [g])) <==> Agrees(f.val, g.val, false, EXPLAINED_KEYS)
  {
    var fs, gs := front + [f], front + [g];
    assert KeysOf(fs) == KeysOf(front) + [f.key] == KeysOf(gs);
    AgreeingByKeys(Obj(fs), Obj(gs));
    assert fs[..|front|] == front == gs[..|front|];
    assert Lookup(fs, f.key) == f.val && Lookup(gs, f.key) == g.val;
    forall k | k in KeysOf(front) ensures AgreeAt(Obj(fs), Obj(gs), k) {
      AgreesReflexive(Lookup(front, k), k in EXPLAINED_KEYS, EXPLAINED_KEYS);
    }
  }

  /** What a record shows of the answer. */
  function Payload(r: CallResult): Value {
    match r case Ok(v) => v case Err(_, detail) => detail
  }

  lemma {:induction false} ValueAgrees(v: Value, v': Value)
    ensures Agreeing(ResultValue(Ok(v)), ResultValue(Ok(v'))) <==> Agrees(v, v', false, EXPLAINED_KEYS)
  {
    var front := [Field("ok", Bool(true))];
    LastFieldDecides(front, Field("value", v), Field("value", v'));
    assert ResultValue(Ok(v)).fields == front + [Field("value", v)];
    assert ResultValue(Ok(v')).fields == front + [Field("value", v')];
  }

  lemma {:induction false} DetailAgrees(code: string, d: Value, d': Value)
    requires d == Undefined <==> d' == Undefined
    ensures Agreeing(ResultValue(Err(code, d)), ResultValue(Err(code, d'))) <==> Agrees(d, d', false, EXPLAINED_KEYS)
  {
    if d == Undefined {
      AgreeingReflexive(ResultValue(Err(code, d)));
    } else {
      var front := [Field("ok", Bool(false)), Field("code", Str(code))];
      LastFieldDecides(front, Field("detail", d), Field("detail", d'));
      assert ResultValue(Err(code, d)).fields == front + [Field("detail", d)];
      assert ResultValue(Err(code, d')).fields == front + [Field("detail", d')];
    }
  }

  /** A record agrees with its renaming exactly when nothing shows in its value or detail. */
  lemma {:induction false} RecordAgrees(r: CallResult, rho: Rename)
    ensures Agreeing(ResultValue(r), ResultValue(RenamedResult(r, rho))) <==> !Shows(Payload(r), false, rho)
  {
    var v := Payload(r);
    ShowsExactly(v, false, rho);
    if r.Ok? {
      ValueAgrees(v, MapStrings(v, rho));
    } else {
      DetailAgrees(r.code, v, MapStrings(v, rho));
    }
  }

  // ------------------------------------------------------- records of twin runs

  /** The record of a race is the same in both runs, any other one is renamed. */
  ghost predicate TwinRecord(races: seq<string>, k: string, r: CallResult, q: CallResult, rho: Rename) {
    q == if k in races then r else RenamedResult(r, rho)
  }

  ghost predicate TwinRecords(m: seq<Entry<CallResult>>, m': seq<Entry<CallResult>>, races: seq<string>, rho: Rename) {
    if m == [] || m' == [] then m == m'
    else
      && m'[0].key == m[0].key && TwinRecord(races, m[0].key, m[0].value, m'[0].value, rho)
      && TwinRecords(m[1..], m'[1..], races, rho)
  }

  lemma {:induction false} PutTwin(m: seq<Entry<CallResult>>, m': seq<Entry<CallResult>>, races: seq<string>,
                                   rho: Rename, k: string, r: CallResult, q: CallResult)
    requires TwinRecords(m, m', races, rho) && TwinRecord(races, k, r, q, rho)
    ensures TwinRecords(Put(m, k, r), Put(m', k, q), races, rho)
  {
    if m != [] && m[0].key != k {
      PutTwin(m[1..], m'[1..], races, rho, k, r, q);
      ConsTwinRecords(m[0], m'[0], Put(m[1..], k, r), Put(m'[1..], k, q), races, rho);
    } else if m != [] {
      ConsTwinRecords(Entry(k, r), Entry(k, q), m[1..], m'[1..], races, rho);
    }
  }

  lemma {:induction false} ConsTwinRecords(e: Entry<CallResult>, e': Entry<CallResult>, m: seq<Entry<CallResult>>,
                                           m': seq<Entry<CallResult>>, races: seq<string>, rho: Rename)
    requires e'.key == e.key && TwinRecord(races, e.key, e.value, e'.value, rho) && TwinRecords(m, m', races, rho)
    ensures TwinRecords([e] + m, [e'] + m', races, rho)
  {
    assert ([e] + m)[1..] == m && ([e'] + m')[1..] == m';
  }

  lemma {:induction false} FindTwin(m: seq<Entry<CallResult>>, m': seq<Entry<CallResult>>, races: seq<string>,
                                    rho: Rename, k: string)
    requires TwinRecords(m, m', races, rho) && k !in races
    ensures Find(m', k) == match Find(m, k) case Some(r) => Some(RenamedResult(r, rho)) case None => None
  {
    if m != [] && m[0].key != k {
      FindTwin(m[1..], m'[1..], races, rho, k);
    }
  }

  lemma {:induction false} CallRecordRenamed(r: CallResult, ids: seq<string>, rho: Rename)
    requires Lawful(rho)
    ensures CallRecord(RenamedResult(r, rho), RenamedIds(ids, rho)) == RenamedResult(CallRecord(r, ids), rho)
  {
    if r.Ok? {
      NormalizeRenamed(r.value, ids, rho);
    }
  }

  lemma {:induction false} StatusRenamed(status: nat, rho: Rename)
    ensures var r := Ok(Obj([Field("status", Num(status as real))])); RenamedResult(r, rho) == r
  {
    var v := Obj([Field("status", Num(status as real))]);
    assert MapStrings(v, rho).fields == v.fields;
  }

  lemma {:induction false} CallTwin<S(!new), T(!new)>(p: Twins<S, T>, w: World<S>, v: World<T>, step: Step,
                                                      races: seq<string>)
    requires AnswersRenamed(p) && TwinWorlds(p, w, v, false) && step.CallStep? && LiteralsFixed(step, p.rho)
    requires TwinRecords(w.results, v.results, races, p.rho) && step.name !in races
    ensures TwinRecords(AfterCall(w, p.one, p.base1, step).results, AfterCall(v, p.two, p.base2, step).results, races,
                        p.rho)
  {
    CalledTwins(p, w, v, step, false);
    var a, b := Called(w, p.one, p.base1, step), Called(v, p.two, p.base2, step);
    CaptureRenamed(a.result, w.ids, p.rho);
    var ids := CaptureId(a.result, w.ids);
    CallRecordRenamed(a.result, ids, p.rho);
    PutTwin(w.results, v.results, races, p.rho, step.name, CallRecord(a.result, ids),
            CallRecord(b.result, RenamedIds(ids, p.rho)));
  }

  lemma {:induction false} RaceTwin<S(!new), T(!new)>(p: Twins<S, T>, w: World<S>, v: World<T>, step: Step,
                                                      races: seq<string>)
    requires AnswersRenamed(p) && TwinWorlds(p, w, v, false) && step.RaceStep? && LiteralsFixed(step, p.rho)
    requires TwinRecords(w.results, v.results, races, p.rho) && step.name in races
    ensures TwinRecords(AfterRace(w, p.one, p.base1, step).results, AfterRace(v, p.two, p.base2, step).results, races,
                        p.rho)
  {
    OutcomesTwins(p, w, v, step, false);
    var rs := Outcomes(p.one, w.state, Resolved(RequestsOf(step.racers), w.raw, w.ids), p.base1);
    RaceRecordTwins(step, rs, p.rho);
    PutTwin(w.results, v.results, races, p.rho, step.name, RaceRecord(rs), RaceRecord(RenamedResults(rs, p.rho)));
  }

  lemma {:induction false} TransferTwin<S(!new), T(!new)>(p: Twins<S, T>, w: World<S>, v: World<T>, step: Step,
                                                          races: seq<string>)
    requires AnswersRenamed(p) && TwinWorlds(p, w, v, false) && step.TransferStep? && LiteralsFixed(step, p.rho)
    requires TwinRecords(w.results, v.results, races, p.rho) && step.name !in races
    ensures TwinRecords(AfterTransfer(w, p.one, step).results, AfterTransfer(v, p.two, step).results, races, p.rho)
  {
    if p.one.transfer.Some? {
      var signed := Resolve(Str(step.from), w.raw, w.ids, true);
      ResolveRenamed(Str(step.from), w.raw, v.raw, w.ids, true, p.rho);
      assert TransferTwins(p, w.state, v.state, signed, step.text);
      var (s, r) := p.one.transfer.value(w.state, signed, step.text);
      var record := Ok(Obj([Field("status", Num(r.status as real))]));
      StatusRenamed(r.status, p.rho);
      PutTwin(w.results, v.results, races, p.rho, step.name, record, record);
    }
  }

  ghost predicate TwinsSoFar<S, T>(p: Twins<S, T>, w: World<S>, v: World<T>, races: seq<string>) {
    TwinWorlds(p, w, v, false) && TwinRecords(w.results, v.results, races, p.rho)
  }

  lemma {:induction false} NextTwin<S(!new), T(!new)>(p: Twins<S, T>, w: World<S>, v: World<T>, step: Step,
                                                      races: seq<string>)
    requires AnswersRenamed(p) && LiteralsFixed(step, p.rho) && TwinsSoFar(p, w, v, races)
    requires step.name in races <==> step.RaceStep?
    ensures TwinsSoFar(p, AfterStep(w, p.one, p.base1, step), AfterStep(v, p.two, p.base2, step), races)
  {
    AfterStepTwins(p, w, v, step, false);
    match step
    case TransferStep(_, _, _, _, _) => TransferTwin(p, w, v, step, races);
    case RaceStep(_, _, _, _) => RaceTwin(p, w, v, step, races);
    case CallStep(_, _, _, _, _, _) => CallTwin(p, w, v, step, races);
  }

  /** Before the first race each record of the second run is the renamed one of the first. */
  lemma {:induction false} RunTwins<S(!new), T(!new)>(p: Twins<S, T>, sc: Scenario, s: S, t: T)
    requires AnswersRenamed(p) && ScenarioFixed(sc, p.rho) && Distinct(StepNames(sc.steps))
    ensures TwinsSoFar(p, Run(sc, p.one, p.base1, s), Run(sc, p.two, p.base2, t), RaceNames(sc.steps))
  {
    var races := RaceNames(sc.steps);
    var f, g := Stepper(p.one, p.base1, sc.steps), Stepper(p.two, p.base2, sc.steps);
    var rel := (w: World<S>, v: World<T>, i: nat) => TwinsSoFar(p, w, v, races);
    forall w: World<S>, v: World<T>, i: nat | i < |sc.steps| && rel(w, v, i) ensures rel(f(w, i), g(v, i), i + 1) {
      RaceByName(sc.steps, i);
      NextTwin(p, w, v, sc.steps[i], races);
    }
    Induction2(f, Start(p.one, s), g, Start(p.two, t), rel, |sc.steps|);
  }

  // ----------------------------------------------------------- twin profiles

  /** The two targets as they meet in one scenario. */
  function TwinsIn<S, T>(one: Target<S>, two: Target<T>, a: string, b: string, rho: Rename, rel: (S, T) -> bool,
                         id: string): Twins<S, T>
  {
    Twins(one, two, BaseCtx(Tenant(a, id)), BaseCtx(Tenant(b, id)), rho, rel)
  }

  /** In every scenario the second target answers every renamed input with the renamed answer. */
  ghost predicate TwinTargets<S(!new), T(!new)>(one: Target<S>, two: Target<T>, a: string, b: string, rho: Rename,
                                                rel: (S, T) -> bool, scs: seq<Scenario>)
  {
    forall k :: 0 <= k < |scs| ==>
      && AnswersRenamed(TwinsIn(one, two, a, b, rho, rel, scs[k].id))
      && ScenarioFixed(scs[k], rho) && Distinct(StepNames(scs[k].steps))
  }

  ghost predicate TwinReport(x: Report, y: Report, sc: Scenario, rho: Rename) {
    TwinRecords(x.results, y.results, RaceNames(sc.steps), rho) && SamePlaces(y.failures, x.failures)
  }

  ghost predicate TwinReports(xs: seq<Report>, ys: seq<Report>, scs: seq<Scenario>, rho: Rename) {
    |xs| == |ys| == |scs| && forall k :: 0 <= k < |scs| ==> TwinReport(xs[k], ys[k], scs[k], rho)
  }

  lemma {:induction false} ReportsTwin<S(!new), T(!new)>(one: Target<S>, two: Target<T>, a: string, b: string,
                                                         rho: Rename,
                                                         rel: (S, T) -> bool, scs: seq<Scenario>, s: S, t: T)
    requires TwinTargets(one, two, a, b, rho, rel, scs)
    ensures TwinReports(RunAll(one, a, scs, s), RunAll(two, b, scs, t), scs, rho)
    decreases |scs|
  {
    if scs != [] {
      var p := TwinsIn(one, two, a, b, rho, rel, scs[0].id);
      RunTwins(p, scs[0], s, t);
      var w, v := Run(scs[0], one, p.base1, s), Run(scs[0], two, p.base2, t);
      assert forall k :: 0 <= k < |scs[1..]| ==> scs[1..][k] == scs[k + 1];
      ReportsTwin(one, two, a, b, rho, rel, scs[1..], w.state, v.state);
      ConsTwin(scs, ReportOf(scs[0], one, w), ReportOf(scs[0], two, v),
               RunAll(one, a, scs[1..], w.state), RunAll(two, b, scs[1..], v.state), rho);
    }
  }

  lemma {:induction false} ConsTwin(scs: seq<Scenario>, x: Report, y: Report, xs: seq<Report>, ys: seq<Report>,
                                    rho: Rename)
    requires scs != [] && TwinReport(x, y, scs[0], rho) && TwinReports(xs, ys, scs[1..], rho)
    ensures TwinReports([x] + xs, [y] + ys, scs, rho)
  {
    forall k | 0 <= k < |scs| ensures TwinReport(([x] + xs)[k], ([y] + ys)[k], scs[k], rho) {
      if k > 0 {
        assert scs[k] == scs[1..][k - 1];
      }
    }
  }

  // ------------------------------------------------------------- the verdict

  /** Nothing of the renaming shows in the record, if there is one. */
  ghost predicate RecordHides(r: Option<CallResult>, rho: Rename) {
    r.Some? ==> !Shows(Payload(r.value), false, rho)
  }

  /** In these reports nothing of the renaming shows before the first races. */
  ghost predicate Hidden(xs: seq<Report>, scs: seq<Scenario>, rho: Rename)
    requires |xs| == |scs|
  {
    forall k: nat, n: nat :: k < |scs| && n < |scs[k].steps| && BeforeRace(scs[k].steps, n) ==>
      RecordHides(Find(xs[k].results, scs[k].steps[n].name), rho)
  }

  lemma {:induction false} ConcurAtExactly(xs: seq<Report>, ys: seq<Report>, scs: seq<Scenario>, rho: Rename, k: nat,
                                           n: nat)
    requires TwinReports(xs, ys, scs, rho) && k < |scs| && n < |scs[k].steps| && BeforeRace(scs[k].steps, n)
    requires Distinct(StepNames(scs[k].steps))
    ensures ConcurAt(xs, ys, scs, k, n) <==> RecordHides(Find(xs[k].results, scs[k].steps[n].name), rho)
  {
    var name, r := scs[k].steps[n].name, Find(xs[k].results, scs[k].steps[n].name);
    RaceByName(scs[k].steps, n);
    assert TwinReport(xs[k], ys[k], scs[k], rho);
    FindTwin(xs[k].results, ys[k].results, RaceNames(scs[k].steps), rho, name);
    if r.Some? {
      RecordAgrees(r.value, rho);
    } else {
      AgreeingReflexive(Undefined);
    }
  }

  lemma {:induction false} ReportsConcur(xs: seq<Report>, ys: seq<Report>, scs: seq<Scenario>, rho: Rename)
    requires TwinReports(xs, ys, scs, rho) && forall k :: 0 <= k < |scs| ==> Distinct(StepNames(scs[k].steps))
    ensures Concur(xs, ys, scs) <==> Hidden(xs, scs, rho)
  {
    forall k: nat, n: nat | k < |scs| && n < |scs[k].steps| && BeforeRace(scs[k].steps, n)
      ensures ConcurAt(xs, ys, scs, k, n) <==> RecordHides(Find(xs[k].results, scs[k].steps[n].name), rho)
    {
      ConcurAtExactly(xs, ys, scs, rho, k, n);
    }
  }

  lemma {:induction false} ReportsClean(xs: seq<Report>, ys: seq<Report>, scs: seq<Scenario>, rho: Rename)
    requires TwinReports(xs, ys, scs, rho)
    ensures Clean(xs) <==> Clean(ys)
  {
    forall k | 0 <= k < |scs| ensures xs[k].failures == [] <==> ys[k].failures == [] {
      assert TwinReport(xs[k], ys[k], scs[k], rho);
    }
  }

  /** Twin profiles concur exactly when nothing of the renaming shows in the records of the first. */
  lemma {:induction false} TwinsConcurExactly<S(!new), T(!new)>(one: Target<S>, two: Target<T>, a: string, b: string,
                                                                rho: Rename,
                                                                rel: (S, T) -> bool, scs: seq<Scenario>, s: S, t: T)
    requires TwinTargets(one, two, a, b, rho, rel, scs)
    ensures var xs, ys := RunAll(one, a, scs, s), RunAll(two, b, scs, t);
            && TwinReports(xs, ys, scs, rho)
            && (Concur(xs, ys, scs) <==> Hidden(xs, scs, rho))
            && (Clean(xs) <==> Clean(ys))
  {
    ReportsTwin(one, two, a, b, rho, rel, scs, s, t);
    var xs, ys := RunAll(one, a, scs, s), RunAll(two, b, scs, t);
    ReportsConcur(xs, ys, scs, rho);
    ReportsClean(xs, ys, scs, rho);
  }

  /**
   * The verdict on two twin profiles, read off one of them: no drift exactly when the first run has no failure and
   * shows no renamed string in a record before the first races, except under an explained key.
   */
  lemma {:induction false} TwinVerdict<S(!new)>(c: Candidate<S>, d: Candidate<S>, rho: Rename, rel: (S, S) -> bool,
                                                scs: seq<Scenario>, identity: Identity, at: int)
    requires c.target.Some? && d.target.Some? && c.name != d.name && WellNamed(scs)
    requires TwinTargets(c.target.value, d.target.value, c.name, d.name, rho, rel, scs)
    ensures |ReportsOf(c, scs)| == |scs|
    ensures Differentiate([c, d], scs, identity, at).driftNone
            <==> Clean(ReportsOf(c, scs)) && Hidden(ReportsOf(c, scs), scs, rho)
  {
    TwinsConcurExactly(c.target.value, d.target.value, c.name, d.name, rho, rel, scs, c.state, d.state);
    PairDrift(c, d, scs, identity, at);
  }

  // ------------------------------------------------------------ surfaced runs

  /** In every scenario each renamed string surfaces as an id before a record shows it. */
  ghost predicate AllSurfaced<S>(t: Target<S>, name: string, scs: seq<Scenario>, s: S, rho: Rename)
    decreases |scs|
  {
    scs != [] ==>
      var base := BaseCtx(Tenant(name, scs[0].id));
      RunSurfaced(t, base, scs[0], s, rho) && AllSurfaced(t, name, scs[1..], Run(scs[0], t, base, s).state, rho)
  }

  ghost predicate AlikeReports(xs: seq<Report>, ys: seq<Report>, scs: seq<Scenario>, rho: Rename) {
    |xs| == |ys| == |scs| && forall k :: 0 <= k < |scs| ==> SameRecords(xs[k].results, ys[k].results, rho)
  }

  lemma {:induction false} ReportsAlike<S(!new), T(!new)>(one: Target<S>, two: Target<T>, a: string, b: string,
                                                          rho: Rename,
                                                          rel: (S, T) -> bool, scs: seq<Scenario>, s: S, t: T)
    requires TwinTargets(one, two, a, b, rho, rel, scs) && AllSurfaced(one, a, scs, s, rho)
    ensures AlikeReports(RunAll(one, a, scs, s), RunAll(two, b, scs, t), scs, rho)
    decreases |scs|
  {
    if scs != [] {
      var p := TwinsIn(one, two, a, b, rho, rel, scs[0].id);
      RunsRecordAlike(p, scs[0], s, t);
      var w, v := Run(scs[0], one, p.base1, s), Run(scs[0], two, p.base2, t);
      assert forall k :: 0 <= k < |scs[1..]| ==> scs[1..][k] == scs[k + 1];
      ReportsAlike(one, two, a, b, rho, rel, scs[1..], w.state, v.state);
    }
  }

  /** Only the details of errors, which are stored as they come, can show the renaming. */
  ghost predicate ErrorsHide(xs: seq<Report>, scs: seq<Scenario>, rho: Rename)
    requires |xs| == |scs|
  {
    forall k: nat, n: nat :: k < |scs| && n < |scs[k].steps| && BeforeRace(scs[k].steps, n) ==>
      DetailHides(Find(xs[k].results, scs[k].steps[n].name), rho)
  }

  ghost predicate DetailHides(r: Option<CallResult>, rho: Rename) {
    r.Some? && r.value.Err? ==> !Shows(r.value.detail, false, rho)
  }

  lemma {:induction false} OkHides(xs: seq<Report>, ys: seq<Report>, scs: seq<Scenario>, rho: Rename, k: nat, n: nat)
    requires TwinReports(xs, ys, scs, rho) && AlikeReports(xs, ys, scs, rho)
    requires k < |scs| && n < |scs[k].steps| && BeforeRace(scs[k].steps, n) && Distinct(StepNames(scs[k].steps))
    ensures var r := Find(xs[k].results, scs[k].steps[n].name); DetailHides(r, rho) <==> RecordHides(r, rho)
  {
    var name := scs[k].steps[n].name;
    RaceByName(scs[k].steps, n);
    assert TwinReport(xs[k], ys[k], scs[k], rho);
    FindTwin(xs[k].results, ys[k].results, RaceNames(scs[k].steps), rho, name);
    FindSame(xs[k].results, ys[k].results, name, rho);
    var r := Find(xs[k].results, name);
    if r.Some? && r.value.Ok? {
      ShowsExactly(r.value.value, false, rho);
      AgreesReflexive(r.value.value, false, EXPLAINED_KEYS);
    }
  }

  /** Once the renamed strings surface in time, twin profiles concur exactly when no error detail shows one. */
  lemma {:induction false} SurfacedConcurExactly<S(!new), T(!new)>(one: Target<S>, two: Target<T>, a: string, b: string,
                                                                   rho: Rename,
                                                                   rel: (S, T) -> bool, scs: seq<Scenario>, s: S, t: T)
    requires TwinTargets(one, two, a, b, rho, rel, scs) && AllSurfaced(one, a, scs, s, rho)
    ensures var xs, ys := RunAll(one, a, scs, s), RunAll(two, b, scs, t);
            Concur(xs, ys, scs) <==> ErrorsHide(xs, scs, rho)
  {
    TwinsConcurExactly(one, two, a, b, rho, rel, scs, s, t);
    ReportsAlike(one, two, a, b, rho, rel, scs, s, t);
    ErrorsDecide(RunAll(one, a, scs, s), RunAll(two, b, scs, t), scs, rho);
  }

  lemma {:induction false} ErrorsDecide(xs: seq<Report>, ys: seq<Report>, scs: seq<Scenario>, rho: Rename)
    requires TwinReports(xs, ys, scs, rho) && AlikeReports(xs, ys, scs, rho)
    requires forall k :: 0 <= k < |scs| ==> Distinct(StepNames(scs[k].steps))
    ensures ErrorsHide(xs, scs, rho) <==> Hidden(xs, scs, rho)
  {
    forall k: nat, n: nat | k < |scs| && n < |scs[k].steps| && BeforeRace(scs[k].steps, n)
      ensures var r := Find(xs[k].results, scs[k].steps[n].name); DetailHides(r, rho) <==> RecordHides(r, rho)
    {
      OkHides(xs, ys, scs, rho, k, n);
    }
  }

  // ------------------------------------------------- an id in an error's detail

  /** A target that refuses every call, its own id being the detail. */
  function Refuser(name: string, id: string): Target<int> {
    Target(name,
           (s: int) => s,
           (s: int, op: string, v: Value, ctx: Ctx) => (s, Err("REFUSED", Str(id))),
           (s: int, calls: seq<Request>, ctx: Ctx) => s,
           (s: int, calls: seq<Request>, ctx: Ctx, i: nat) => Err("REFUSED", Str(id)),
           None)
  }

  function RefuserCandidate(name: string, id: string): Candidate<int> {
    Candidate(name, Some(Refuser(name, id)), None, 0)
  }

  const REFUSAL: Step := CallStep("get", "op", Null, CtxPatch(None, None, None), ExpectError("REFUSED"), None)
  const REFUSED: Scenario := Scenario("s", [REFUSAL])

  lemma {:induction false} RefusersAreTwins(a: string, b: string, x: string, y: string, id: string)
    requires !IsPlaceholder(x) && !IsPlaceholder(y)
    ensures AnswersRenamed(TwinsIn(Refuser(a, x), Refuser(b, y), a, b, Swap(x, y), (s: int, t: int) => true, id))
  {
    var p := TwinsIn(Refuser(a, x), Refuser(b, y), a, b, Swap(x, y), (s: int, t: int) => true, id);
    assert Lawful(p.rho);
    forall s, t, op, input, patch ensures CallTwins(p, s, t, op, input, patch) { }
    forall s, t, calls ensures RaceTwins(p, s, t, calls) { }
  }

  lemma {:induction false} RefusalFixed(rho: Rename)
    ensures ScenarioFixed(REFUSED, rho) && WellNamed([REFUSED])
  {
  }

  lemma {:induction false} RefuserRun(name: string, x: string, base: Ctx, s: int)
    ensures var w := Run(REFUSED, Refuser(name, x), base, s);
            w.failures == [] && w.results == [Entry("get", Err("REFUSED", Str(x)))]
  {
    var t := Refuser(name, x);
    var w0 := Start(t, s);
    assert Called(w0, t, base, REFUSAL) == Polled(s, Err("REFUSED", Str(x)), 1);
    NextRun(t, base, REFUSED.steps, s, 0);
    assert RunTo(t, base, REFUSED.steps, s, 0) == w0;
  }

  /** The one report of such a target: no failure, and the id in the record. */
  ghost predicate RefusedReports(xs: seq<Report>, x: string) {
    |xs| == 1 && xs[0].failures == [] && xs[0].results == [Entry("get", Err("REFUSED", Str(x)))]
  }

  lemma {:induction false} RefuserReports(name: string, x: string)
    ensures RefusedReports(ReportsOf(RefuserCandidate(name, x), [REFUSED]), x)
  {
    RefuserRun(name, x, BaseCtx(Tenant(name, "s")), 0);
  }

  lemma {:induction false} RefusedShows(xs: seq<Report>, x: string, rho: Rename)
    requires RefusedReports(xs, x) && rho(x) != x
    ensures Clean(xs) && !Hidden(xs, [REFUSED], rho)
  {
    assert BeforeRace([REFUSED][0].steps, 0);
    assert Find(xs[0].results, "get") == Some(Err("REFUSED", Str(x)));
    assert !RecordHides(Find(xs[0].results, [REFUSED][0].steps[0].name), rho);
  }

  /**
   * Two profiles that differ in nothing but their generated ids, and answer as expected, drift all the same when an
   * expected error carries the id in its detail.
   */
  lemma {:induction false} ErrorIdsDrift(a: string, b: string, x: string, y: string, identity: Identity, at: int)
    requires a != b && x != y && !IsPlaceholder(x) && !IsPlaceholder(y)
    ensures var c, d := RefuserCandidate(a, x), RefuserCandidate(b, y);
            && TwinTargets(Refuser(a, x), Refuser(b, y), a, b, Swap(x, y), (s: int, t: int) => true, [REFUSED])
            && Clean(ReportsOf(c, [REFUSED])) && Clean(ReportsOf(d, [REFUSED]))
            && !Differentiate([c, d], [REFUSED], identity, at).driftNone
  {
    var rho, rel := Swap(x, y), (s: int, t: int) => true;
    RefusersAreTwins(a, b, x, y, "s");
    RefusalFixed(rho);
    RefuserReports(a, x);
    RefuserReports(b, y);
    RefusedShows(ReportsOf(RefuserCandidate(a, x), [REFUSED]), x, rho);
    RefusedShows(ReportsOf(RefuserCandidate(b, y), [REFUSED]), y, rho);
    TwinVerdict(RefuserCandidate(a, x), RefuserCandidate(b, y), rho, rel, [REFUSED], identity, at);
  }
}
