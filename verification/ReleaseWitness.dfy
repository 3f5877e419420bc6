/** The hypotheses of the certification theorems can be met: two profiles certify each other. */
module ReleaseWitness {
  import opened Assoc
  import opened Json
  import opened Matching
  import opened Runner
  import opened Iteration
  import opened Agreement
  import opened Differential
  import opened Drift
  import opened Manifest
  import opened Release

  /** A target that answers every call with `null`. */
  function Echo(name: string): Target<int> {
    Target(name,
           (s: int) => s,
           (s: int, op: string, v: Value, ctx: Ctx) => (s, Ok(Null)),
           (s: int, calls: seq<Request>, ctx: Ctx) => s,
           (s: int, calls: seq<Request>, ctx: Ctx, i: nat) => Ok(Null),
           None)
  }

  const STEP: Step := CallStep("get", "op", Null, CtxPatch(None, None, None), ExpectOk(Null), None)
  const SCENARIO: Scenario := Scenario("s", [STEP])

  lemma {:induction false} EchoRun(name: string, base: Ctx, s: int)
    ensures var w := Run(SCENARIO, Echo(name), base, s); w.failures == [] && w.results == [Entry("get", Ok(Null))]
  {
    var w0 := Start(Echo(name), s);
    assert Called(w0, Echo(name), base, STEP) == Polled(s, Ok(Null), 1);
    var w1 := AfterCall(w0, Echo(name), base, STEP);
    assert w1.failures == [] && w1.results == [Entry("get", Ok(Null))];
    var f := Stepper(Echo(name), base, SCENARIO.steps);
    assert Iterate(f, w0, 1) == f(Iterate(f, w0, 0), 0) == w1;
  }

  function EchoCandidate(name: string): Candidate<int> {
    Candidate(name, Some(Echo(name)), None, 0)
  }

  /** The one report of an echo target. */
  ghost predicate Echoed(rs: seq<Report>) {
    |rs| == 1 && rs[0].failures == [] && rs[0].results == [Entry("get", Ok(Null))]
  }

  lemma {:induction false} EchoReports(name: string)
    ensures Echoed(ReportsOf(EchoCandidate(name), [SCENARIO]))
  {
    EchoRun(name, BaseCtx(Tenant(name, "s")), 0);
  }

  lemma {:induction false} SingleNamed()
    ensures WellNamed([SCENARIO]) && AnyStep([SCENARIO])
  {
    assert [SCENARIO][0].steps != [];
  }

  lemma {:induction false} EchoRecord(results: seq<Entry<CallResult>>)
    requires results == [Entry("get", Ok(Null))]
    ensures RecordValue(results, "get") == ResultValue(Ok(Null))
  {
  }

  /** Every record of the report is `v`. */
  ghost predicate Records(r: Report, sc: Scenario, v: Value) {
    forall n: nat :: n < |sc.steps| ==> RecordValue(r.results, sc.steps[n].name) == v
  }

  lemma {:induction false} EqualRecordsConcur(ra: Report, rb: Report, sc: Scenario, v: Value)
    requires Records(ra, sc, v) && Records(rb, sc, v)
    ensures Concur([ra], [rb], [sc])
  {
    AgreeingReflexive(v);
    forall k: nat, n: nat | k < 1 && n < |sc.steps| ensures ConcurAt([ra], [rb], [sc], k, n) { }
  }

  lemma {:induction false} EchoedConcur(ra: seq<Report>, rb: seq<Report>)
    requires Echoed(ra) && Echoed(rb)
    ensures Clean(ra) && Concur(ra, rb, [SCENARIO])
  {
    EchoRecord(ra[0].results);
    EchoRecord(rb[0].results);
    EqualRecordsConcur(ra[0], rb[0], SCENARIO, ResultValue(Ok(Null)));
    assert ra == [ra[0]] && rb == [rb[0]];
  }

  lemma {:induction false} EchoesConcur(a: string, b: string)
    ensures var ra, rb := ReportsOf(EchoCandidate(a), [SCENARIO]), ReportsOf(EchoCandidate(b), [SCENARIO]);
            Clean(ra) && Concur(ra, rb, [SCENARIO])
  {
    EchoReports(a);
    EchoReports(b);
    EchoedConcur(ReportsOf(EchoCandidate(a), [SCENARIO]), ReportsOf(EchoCandidate(b), [SCENARIO]));
  }

  lemma {:induction false} TwoCandidates(a: string, b: string)
    requires a != b
    ensures var cs := [EchoCandidate(a), EchoCandidate(b)];
            Distinct(CandidateNames(cs)) && AllClean(cs, [SCENARIO]) && AllConcur(cs, [SCENARIO])
  {
    assert CandidateNames([EchoCandidate(a), EchoCandidate(b)]) == [a, b];
    EchoesConcur(a, b);
    EchoesConcur(b, a);
    PairVerdict(EchoCandidate(a), EchoCandidate(b), [SCENARIO]);
  }

  lemma {:induction false} EchoNoDrift(a: string, b: string, identity: Identity, at: int)
    requires a != b
    ensures Differentiate([EchoCandidate(a), EchoCandidate(b)], [SCENARIO], identity, at).driftNone
  {
    TwoCandidates(a, b);
    SingleNamed();
    DriftMeaning([EchoCandidate(a), EchoCandidate(b)], [SCENARIO], identity, at);
  }

  /** Two such targets, run under any two names, certify each other. */
  lemma {:induction false} CertificationHappens(a: string, b: string, now: int)
    returns (e: Evidence, cs: seq<Candidate<int>>)
    requires a != b
    ensures FromRun(e, cs, [SCENARIO], now) && Distinct(CandidateNames(cs)) && WellNamed([SCENARIO])
    ensures |cs| == 2 && cs[0].name == a && cs[1].name == b
    ensures LocalReason(e, Some(now), a).None? && LocalReason(e, Some(now), b).None?
  {
    cs := [EchoCandidate(a), EchoCandidate(b)];
    var identity := Identity("build", "source", "node", ["s"]);
    TwoCandidates(a, b);
    EchoNoDrift(a, b, identity, now);
    SingleNamed();
    e := Evidence(identity, None, None, Some(Retained(Differentiate(cs, [SCENARIO], identity, now))));
    RunCertifies(e, cs, [SCENARIO], now, Some(now), 0, 1);
    RunCertifies(e, cs, [SCENARIO], now, Some(now), 1, 0);
  }
}
