/**
 * When two runs that differ in their generated ids leave the same records: exactly when every renamed string has
 * surfaced as an id. And a pair of targets for which it does.
 */
module Surfacing {
  import opened Assoc
  import opened Json
  import opened Matching
  import opened Renaming
  import opened Iteration
  import opened Runner
  import opened RunLaws
  import opened Simulation

  // ------------------------------------------------------- what a step leaves

  lemma {:induction false} OthersStay<S>(w: World<S>, t: Target<S>, base: Ctx, step: Step, k: string)
    requires k != step.name
    ensures Find(AfterStep(w, t, base, step).results, k) == Find(w.results, k)
  {
    match step
    case TransferStep(_, _, _, _, _) =>
      if t.transfer.Some? {
        var (s, r) := t.transfer.value(w.state, Resolve(Str(step.from), w.raw, w.ids, true), step.text);
        FindPut(w.results, step.name, Ok(Obj([Field("status", Num(r.status as real))])), k);
      }
    case RaceStep(_, _, _, _) =>
      FindPut(w.results, step.name,
              RaceRecord(Outcomes(t, w.state, Resolved(RequestsOf(step.racers), w.raw, w.ids), base)), k);
    case CallStep(_, _, _, _, _, _) =>
      var p := Called(w, t, base, step);
      FindPut(w.results, step.name, CallRecord(p.result, CaptureId(p.result, w.ids)), k);
  }

  /** After a call step its record is made from its raw result and the ids known then. */
  ghost predicate Recorded<S>(w: World<S>, name: string) {
    name in w.raw && Find(w.results, name) == Some(CallRecord(w.raw[name], w.ids))
  }

  lemma {:induction false} CallRecorded<S>(w: World<S>, t: Target<S>, base: Ctx, step: Step)
    requires step.CallStep?
    ensures Recorded(AfterStep(w, t, base, step), step.name)
  {
    var p := Called(w, t, base, step);
    FindPut(w.results, step.name, CallRecord(p.result, CaptureId(p.result, w.ids)), step.name);
  }

  lemma {:induction false} NextRun<S>(t: Target<S>, base: Ctx, steps: seq<Step>, s: S, n: nat)
    requires n < |steps|
    ensures RunTo(t, base, steps, s, n + 1) == AfterStep(RunTo(t, base, steps, s, n), t, base, steps[n])
  {
  }

  /** Under distinct step names a record stays. */
  lemma {:induction false} RecordStays<S(!new)>(t: Target<S>, base: Ctx, steps: seq<Step>, s: S, n: nat,
                                                r: Option<CallResult>)
    requires n < |steps| && Distinct(StepNames(steps))
    requires Find(RunTo(t, base, steps, s, n + 1).results, steps[n].name) == r
    ensures Find(RunTo(t, base, steps, s, |steps|).results, steps[n].name) == r
  {
    var name := steps[n].name;
    var inv := (w: World<S>, i: nat) => Find(w.results, name) == r;
    forall w: World<S>, i: nat | n + 1 <= i < |steps| && inv(w, i) ensures inv(AfterStep(w, t, base, steps[i]), i + 1) {
      assert StepNames(steps)[n] != StepNames(steps)[i];
      OthersStay(w, t, base, steps[i], name);
    }
    InductionFrom(Stepper(t, base, steps), Start(t, s), inv, n + 1, |steps|);
  }

  lemma {:induction false} FindSame(m: seq<Entry<CallResult>>, m': seq<Entry<CallResult>>, k: string, rho: Rename)
    requires SameRecords(m, m', rho)
    ensures match Find(m, k)
            case None => Find(m', k).None?
            case Some(r) => Find(m', k).Some? && SameRecord(r, Find(m', k).value, rho)
  {
    if m != [] {
      assert m[0].key == m'[0].key;
      if m[0].key != k {
        forall i | 0 <= i < |m[1..]|
          ensures m'[1..][i].key == m[1..][i].key && SameRecord(m[1..][i].value, m'[1..][i].value, rho)
        {
          assert m[1..][i] == m[i + 1] && m'[1..][i] == m'[i + 1];
        }
        FindSame(m[1..], m'[1..], k, rho);
      }
    }
  }

  // ----------------------------------------------------------------- the iff

  /** At every point of the two runs the worlds are twins, records aside. */
  lemma {:induction false} TwinsAt<S(!new), T(!new)>(p: Twins<S, T>, sc: Scenario, s: S, t: T, n: nat)
    requires AnswersRenamed(p) && ScenarioFixed(sc, p.rho) && n <= |sc.steps|
    ensures TwinWorlds(p, RunTo(p.one, p.base1, sc.steps, s, n), RunTo(p.two, p.base2, sc.steps, t, n), false)
  {
    var f, g := Stepper(p.one, p.base1, sc.steps), Stepper(p.two, p.base2, sc.steps);
    var rel := (w: World<S>, v: World<T>, i: nat) => TwinWorlds(p, w, v, false);
    forall w: World<S>, v: World<T>, i: nat | i < n && rel(w, v, i) ensures rel(f(w, i), g(v, i), i + 1) {
      AfterStepTwins(p, w, v, sc.steps[i], false);
    }
    Induction2(f, Start(p.one, s), g, Start(p.two, t), rel, n);
  }

  /** Equal records of one call betray that its moved strings have surfaced. */
  lemma {:induction false} RecordSurfaced(r: CallResult, ids: seq<string>, rho: Rename)
    requires Lawful(rho) && r.Ok?
             && SameRecord(CallRecord(r, ids), CallRecord(RenamedResult(r, rho), RenamedIds(ids, rho)), rho)
    ensures Surfaced(r.value, ids, rho)
  {
    NormalizeRenamed(r.value, ids, rho);
    SurfacedErases(r.value, ids, rho);
  }

  lemma {:induction false} StepSurfaced<S(!new), T(!new)>(p: Twins<S, T>, sc: Scenario, s: S, t: T, n: nat)
    requires AnswersRenamed(p) && ScenarioFixed(sc, p.rho) && Distinct(StepNames(sc.steps)) && n < |sc.steps|
    requires SameRecords(Run(sc, p.one, p.base1, s).results, Run(sc, p.two, p.base2, t).results, p.rho)
    ensures ResultSurfaced(RunTo(p.one, p.base1, sc.steps, s, n + 1), sc.steps[n], p.rho)
  {
    var step, w, v := sc.steps[n], RunTo(p.one, p.base1, sc.steps, s, n + 1), RunTo(p.two, p.base2, sc.steps, t, n + 1);
    if step.CallStep? {
      NextRun(p.one, p.base1, sc.steps, s, n);
      NextRun(p.two, p.base2, sc.steps, t, n);
      CallRecorded(RunTo(p.one, p.base1, sc.steps, s, n), p.one, p.base1, step);
      CallRecorded(RunTo(p.two, p.base2, sc.steps, t, n), p.two, p.base2, step);
      TwinsAt(p, sc, s, t, n + 1);
      RecordStays(p.one, p.base1, sc.steps, s, n, Find(w.results, step.name));
      RecordStays(p.two, p.base2, sc.steps, t, n, Find(v.results, step.name));
      FindSame(Run(sc, p.one, p.base1, s).results, Run(sc, p.two, p.base2, t).results, step.name, p.rho);
      if w.raw[step.name].Ok? {
        RecordSurfaced(w.raw[step.name], w.ids, p.rho);
      }
    }
  }

  /**
   * With distinct step names the two reports carry the same records, errors equal up to the renaming, if and only
   * if every renamed string of the first run surfaces as an id before a record could show it.
   */
  lemma {:induction false} RecordsAlikeExactly<S(!new), T(!new)>(p: Twins<S, T>, sc: Scenario, s: S, t: T)
    requires AnswersRenamed(p) && ScenarioFixed(sc, p.rho) && Distinct(StepNames(sc.steps))
    ensures var a, b := ReportOf(sc, p.one, Run(sc, p.one, p.base1, s)),
            ReportOf(sc, p.two, Run(sc, p.two, p.base2, t));
            SameRecords(a.results, b.results, p.rho) <==> RunSurfaced(p.one, p.base1, sc, s, p.rho)
  {
    if RunSurfaced(p.one, p.base1, sc, s, p.rho) {
      RunsRecordAlike(p, sc, s, t);
    }
    if SameRecords(Run(sc, p.one, p.base1, s).results, Run(sc, p.two, p.base2, t).results, p.rho) {
      forall n: nat | n < |sc.steps|
        ensures ResultSurfaced(RunTo(p.one, p.base1, sc.steps, s, n + 1), sc.steps[n], p.rho)
      {
        StepSurfaced(p, sc, s, t, n);
      }
    }
  }

  // ------------------------------------------------------------- two targets

  /** A target that answers every call with a record of one id, and the same id under `ref` or another string. */
  function Minted(id: string, other: string): CallResult {
    Ok(Obj([Field("id", Str(id)), Field("ref", Str(other))]))
  }

  function Mint(name: string, id: string, other: string): Target<int> {
    Target(name,
           (s: int) => s,
           (s: int, op: string, v: Value, ctx: Ctx) => (s, Minted(id, other)),
           (s: int, calls: seq<Request>, ctx: Ctx) => s,
           (s: int, calls: seq<Request>, ctx: Ctx, i: nat) => Minted(id, other),
           None)
  }

  function Swap(x: string, y: string): Rename {
    (s: string) => if s == x then y else if s == y then x else s
  }

  function MintTwins(x: string, y: string, u: string, v: string, base: Ctx): Twins<int, int> {
    Twins(Mint("one", x, u), Mint("two", y, v), base, base, Swap(x, y), (s: int, t: int) => true)
  }

  lemma {:induction false} MintedRenamed(x: string, u: string, rho: Rename)
    ensures RenamedResult(Minted(x, u), rho) == Minted(rho(x), rho(u))
  {
    assert MapStrings(Minted(x, u).value, rho).fields == Minted(rho(x), rho(u)).value.fields;
  }

  /** The two targets are twins under the swap of their ids. */
  lemma {:induction false} MintsAreTwins(x: string, y: string, u: string, base: Ctx)
    requires !IsPlaceholder(x) && !IsPlaceholder(y)
    ensures AnswersRenamed(MintTwins(x, y, u, Swap(x, y)(u), base))
  {
    var p := MintTwins(x, y, u, Swap(x, y)(u), base);
    MintedRenamed(x, u, p.rho);
    assert Lawful(p.rho);
    forall s, t, op, input, patch ensures CallTwins(p, s, t, op, input, patch) { }
    forall s, t, calls ensures RaceTwins(p, s, t, calls) { }
  }

  const GET: Step := CallStep("get", "op", Null, CtxPatch(None, None, None), ExpectOk(Obj([])), None)
  const ONCE: Scenario := Scenario("s", [GET])

  lemma {:induction false} MintRun(name: string, x: string, u: string, base: Ctx, s: int)
    ensures var w := RunTo(Mint(name, x, u), base, ONCE.steps, s, 1);
            "get" in w.raw && w.raw["get"] == Minted(x, u) && w.ids == [x]
  {
    var t := Mint(name, x, u);
    var w0 := Start(t, s);
    assert Called(w0, t, base, GET) == Polled(s, Minted(x, u), 1);
    var v := Minted(x, u).value;
    assert v.fields[..1][..0] == [] && v.fields[..1][0] == Field("id", Str(x));
    assert Lookup(v.fields, "id") == Str(x);
    assert CaptureId(Minted(x, u), []) == [x];
    NextRun(t, base, ONCE.steps, s, 0);
    assert RunTo(t, base, ONCE.steps, s, 0) == w0;
  }

  /**
   * Two targets whose ids really differ: their records are the same if the second string of the answer is the id
   * or a string that the renaming leaves alone, and only then.
   */
  lemma {:induction false} MintsAlike(x: string, y: string, u: string, base: Ctx)
    requires !IsPlaceholder(x) && !IsPlaceholder(y) && x != y
    ensures var p := MintTwins(x, y, u, Swap(x, y)(u), base);
            && AnswersRenamed(p) && ScenarioFixed(ONCE, p.rho) && p.rho(x) != x
            && (SameRecords(Run(ONCE, p.one, base, 0).results, Run(ONCE, p.two, base, 0).results, p.rho) <==> u != y)
  {
    var p := MintTwins(x, y, u, Swap(x, y)(u), base);
    MintsAreTwins(x, y, u, base);
    assert ScenarioFixed(ONCE, p.rho) by {
      assert MapStrings(Obj([]), p.rho) == Obj([]);
    }
    RecordsAlikeExactly(p, ONCE, 0, 0);
    MintRun("one", x, u, base, 0);
    MintSurfaced(x, y, u);
    var w := RunTo(p.one, base, ONCE.steps, 0, 1);
    assert ONCE.steps[0] == GET;
    if RunSurfaced(p.one, base, ONCE, 0, p.rho) {
      assert ResultSurfaced(RunTo(p.one, base, ONCE.steps, 0, 0 + 1), ONCE.steps[0], p.rho);
    }
  }

  lemma {:induction false} MintSurfaced(x: string, y: string, u: string)
    requires x != y
    ensures Surfaced(Minted(x, u).value, [x], Swap(x, y)) <==> u != y
  {
    var v := Minted(x, u).value;
    var i, r := Field("id", Str(x)), Field("ref", Str(u));
    assert v.fields == [i, r] && i in v.fields && r in v.fields;
    forall s ensures Occurs(s, v) <==> s == x || s == u {
      assert Occurs(s, i.val) <==> s == x;
      assert Occurs(s, r.val) <==> s == u;
    }
    if u == y {
      assert Occurs(y, v) && y !in [x];
    }
  }
}
