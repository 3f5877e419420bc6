/** Which differences two runs have, what a profile is charged with, and whose tenant a scenario runs in. */
module Comparison {
  import opened Assoc
  import opened Json
  import opened Runner
  import opened RunLaws
  import opened Walk
  import opened Differential
  import opened Drift

  // ------------------------------------------------------------ the differences

  /** The `i`-th report is the first one of its scenario. */
  ghost predicate FirstOf(rs: seq<Report>, i: nat, scenario: string) {
    i < |rs| && rs[i].scenario == scenario && forall j :: 0 <= j < i ==> rs[j].scenario != scenario
  }

  ghost predicate Absent(rs: seq<Report>, scenario: string) {
    forall i :: 0 <= i < |rs| ==> rs[i].scenario != scenario
  }

  lemma {:induction false} FindExact(rs: seq<Report>, scenario: string)
    ensures FindReport(rs, scenario).None? <==> Absent(rs, scenario)
    ensures forall i: nat :: FirstOf(rs, i, scenario) ==> FindReport(rs, scenario) == Some(rs[i])
    ensures FindReport(rs, scenario).Some? ==> exists i: nat :: FirstOf(rs, i, scenario)
  {
    if rs != [] {
      var rest := rs[1..];
      assert forall i :: 0 < i < |rs| ==> rs[i] == rest[i - 1];
      FindExact(rest, scenario);
      if rs[0].scenario == scenario {
        assert FirstOf(rs, 0, scenario);
      } else {
        forall i: nat | FirstOf(rs, i, scenario) ensures FindReport(rs, scenario) == Some(rs[i]) {
          assert FirstOf(rest, i - 1, scenario);
        }
        if i: nat :| FirstOf(rest, i, scenario) {
          assert FirstOf(rs, i + 1, scenario);
        }
      }
    }
  }

  /** Among the first `n` steps of the run is a race. */
  ghost predicate Raced(steps: seq<string>, races: seq<string>, n: nat)
    requires n <= |steps|
  {
    exists j :: 0 <= j < n && steps[j] in races
  }

  lemma {:induction false} RacedNext(steps: seq<string>, races: seq<string>, n: nat)
    requires n < |steps|
    ensures Raced(steps, races, n + 1) <==> Raced(steps, races, n) || steps[n] in races
  {
  }

  /** The difference `d` of the `i`-th step, which counts as explained once a step has raced. */
  ghost predicate StepReports(x: StepDifference, ra: Report, rb: Report, races: seq<string>, i: nat, d: Difference)
    requires i < |ra.results|
  {
    var steps := Keys(ra.results);
    && x.scenario == ra.scenario && x.step == steps[i]
    && d in Walks(RecordValue(ra.results, steps[i]), RecordValue(rb.results, steps[i]), "", None)
    && x.d.path == d.path && x.d.a == d.a && x.d.b == d.b
    && (x.d.explained <==> d.explained || Raced(steps, races, i + 1))
    && x.d.key == if Raced(steps, races, i + 1) then Some("race") else d.key
  }

  /** It is a difference of the `i`-th step. */
  ghost predicate AtStep(x: StepDifference, ra: Report, rb: Report, races: seq<string>, i: nat)
    requires i < |ra.results|
  {
    exists d :: StepReports(x, ra, rb, races, i, d)
  }

  lemma {:induction false} TagExact(x: StepDifference, scenario: string, step: string, after: bool, ds: seq<Difference>)
    ensures x in TagAll(scenario, step, after, ds) <==> exists d :: d in ds && x == Tag(scenario, step, after, d)
  {
  }

  /** It is a difference of a step from position `i` on. */
  ghost predicate FromStep(x: StepDifference, ra: Report, rb: Report, races: seq<string>, i: nat) {
    exists k: nat :: i <= k < |ra.results| && AtStep(x, ra, rb, races, k)
  }

  lemma {:induction false} FromNext(x: StepDifference, ra: Report, rb: Report, races: seq<string>, i: nat)
    requires i < |ra.results|
    ensures FromStep(x, ra, rb, races, i) <==> AtStep(x, ra, rb, races, i) || FromStep(x, ra, rb, races, i + 1)
  {
  }

  /** The differences from position `i` on, `after` saying whether a step before has raced. */
  lemma {:induction false} StepsExact(x: StepDifference, ra: Report, rb: Report, races: seq<string>, i: nat,
                                      after: bool)
    requires i <= |ra.results| && (after <==> Raced(Keys(ra.results), races, i))
    ensures x in CompareSteps(ra.scenario, Keys(ra.results)[i..], ra.results, rb.results, races, after)
            <==> FromStep(x, ra, rb, races, i)
    decreases |ra.results| - i
  {
    var steps := Keys(ra.results);
    if i < |steps| {
      var after' := after || steps[i] in races;
      NextStep(ra.scenario, steps, i, ra.results, rb.results, races, after);
      RacedNext(steps, races, i);
      StepsExact(x, ra, rb, races, i + 1, after');
      OneStep(x, ra, rb, races, i, after');
      FromNext(x, ra, rb, races, i);
    }
  }

  lemma {:induction false} OneStep(x: StepDifference, ra: Report, rb: Report, races: seq<string>, i: nat, after: bool)
    requires i < |ra.results| && (after <==> Raced(Keys(ra.results), races, i + 1))
    ensures x in CompareStep(ra.scenario, Keys(ra.results)[i], ra.results, rb.results, after)
            <==> AtStep(x, ra, rb, races, i)
  {
    var step := Keys(ra.results)[i];
    var ds := Walks(RecordValue(ra.results, step), RecordValue(rb.results, step), "", None);
    TagExact(x, ra.scenario, step, after, ds);
    forall d | d in ds ensures x == Tag(ra.scenario, step, after, d) <==> StepReports(x, ra, rb, races, i, d) { }
  }

  /** The one difference of a scenario that the other run does not have. */
  ghost predicate Missing(x: StepDifference, scenario: string) {
    && x.scenario == scenario && x.step == "*" && x.d.path == "" && x.d.key == None
    && x.d.a == Str("present") && x.d.b == Str("absent") && !x.d.explained
  }

  ghost predicate ReportReports(x: StepDifference, ra: Report, b: seq<Report>, races: RaceSteps) {
    if Absent(b, ra.scenario) then Missing(x, ra.scenario)
    else exists k: nat :: FirstOf(b, k, ra.scenario) && FromStep(x, ra, b[k], RacesOf(races, ra.scenario), 0)
  }

  lemma {:induction false} OneExact(x: StepDifference, ra: Report, b: seq<Report>, races: RaceSteps)
    ensures x in CompareOne(ra, b, races) <==> ReportReports(x, ra, b, races)
  {
    FindExact(b, ra.scenario);
    var found := FindReport(b, ra.scenario);
    if found.Some? {
      StepsExact(x, ra, found.value, RacesOf(races, ra.scenario), 0, false);
      assert Keys(ra.results)[0..] == Keys(ra.results);
    }
  }

  /**
   * Two runs have exactly these differences: those of the records of each step of each report of the first, explained
   * from the scenario's first race on, and one for each scenario that the second does not have.
   */
  lemma {:induction false} CompareExact(x: StepDifference, a: seq<Report>, b: seq<Report>, races: RaceSteps)
    ensures x in Compare(a, b, races) <==> exists i :: 0 <= i < |a| && ReportReports(x, a[i], b, races)
  {
    if a != [] {
      OneExact(x, a[0], b, races);
      CompareExact(x, a[1..], b, races);
      assert forall i :: 0 < i < |a| ==> a[i] == a[1..][i - 1];
    }
  }

  // ------------------------------------------------------------------- the runs

  /** The state a target is left in by scenarios that are run one after the other. */
  ghost function StateAfter<S>(t: Target<S>, name: string, scs: seq<Scenario>, s: S): S {
    if scs == [] then s
    else
      var n := |scs| - 1;
      Run(scs[n], t, BaseCtx(Tenant(name, scs[n].id)), StateAfter(t, name, scs[..n], s)).state
  }

  lemma {:induction false} StateFirst<S>(t: Target<S>, name: string, scs: seq<Scenario>, s: S)
    requires scs != []
    ensures StateAfter(t, name, scs, s)
         == StateAfter(t, name, scs[1..], Run(scs[0], t, BaseCtx(Tenant(name, scs[0].id)), s).state)
    decreases |scs|
  {
    var n := |scs| - 1;
    if n == 0 {
      assert scs[..0] == [] && scs[1..] == [];
    } else {
      StateFirst(t, name, scs[..n], s);
      assert scs[..n][1..] == scs[1..][..n - 1] && scs[1..][n - 1] == scs[n];
    }
  }

  /** The report of each scenario is that of its run from the state the ones before have left. */
  lemma {:induction false} RunsThread<S>(t: Target<S>, name: string, scs: seq<Scenario>, s: S, k: nat)
    requires k < |scs|
    ensures var w := Run(scs[k], t, BaseCtx(Tenant(name, scs[k].id)), StateAfter(t, name, scs[..k], s));
            RunAll(t, name, scs, s)[k] == Report(scs[k].id, t.name, |scs[k].steps|, w.failures, w.results)
    decreases k
  {
    if k == 0 {
      assert scs[..0] == [];
    } else {
      var s' := Run(scs[0], t, BaseCtx(Tenant(name, scs[0].id)), s).state;
      RunsThread(t, name, scs[1..], s', k - 1);
      StateFirst(t, name, scs[..k], s);
      assert scs[..k][1..] == scs[1..][..k - 1] && scs[..k][0] == scs[0] && scs[1..][k - 1] == scs[k];
    }
  }

  // ------------------------------------------------------------------ the counts

  /** Failures and records of a profile are those of its reports, one after the other. */
  lemma {:induction false} CountsAdd(xs: seq<Report>, ys: seq<Report>)
    ensures FailureCount(xs + ys) == FailureCount(xs) + FailureCount(ys)
    ensures RecordCount(xs + ys) == RecordCount(xs) + RecordCount(ys)
  {
    if xs == [] {
      assert xs + ys == ys;
    } else {
      assert (xs + ys)[1..] == xs[1..] + ys;
      CountsAdd(xs[1..], ys);
    }
  }

  lemma {:induction false} CountsOne(r: Report)
    ensures FailureCount([r]) == |r.failures| && RecordCount([r]) == |r.results|
  {
    assert [r][1..] == [];
  }

  ghost function ExplainedAt(ds: seq<StepDifference>, explained: bool): set<nat> {
    set i: nat | i < |ds| && ds[i].d.explained == explained
  }

  lemma {:induction false} CountAppend(ds: seq<StepDifference>, d: StepDifference, explained: bool)
    ensures CountExplained(ds + [d], explained)
         == CountExplained(ds, explained) + if d.d.explained == explained then 1 else 0
  {
    if ds == [] {
      assert [] + [d] == [d] && [d][1..] == [];
    } else {
      assert (ds + [d])[1..] == ds[1..] + [d];
      CountAppend(ds[1..], d, explained);
    }
  }

  lemma {:induction false} ExplainedAppend(ds: seq<StepDifference>, d: StepDifference, explained: bool)
    ensures |ExplainedAt(ds + [d], explained)|
         == |ExplainedAt(ds, explained)| + if d.d.explained == explained then 1 else 0
  {
    var n := |ds|;
    assert ExplainedAt(ds + [d], explained)
      == ExplainedAt(ds, explained) + if d.d.explained == explained then {n} else {};
  }

  /** A pair counts its explained and its unexplained differences. */
  lemma {:induction false} CountsExactly(ds: seq<StepDifference>, explained: bool)
    ensures CountExplained(ds, explained) == |ExplainedAt(ds, explained)|
  {
    if ds == [] {
      assert ExplainedAt(ds, explained) == {};
    } else {
      var n := |ds| - 1;
      var front, last := ds[..n], ds[n];
      CountsExactly(front, explained);
      CountAppend(front, last, explained);
      ExplainedAppend(front, last, explained);
      assert ds == front + [last];
    }
  }

  /** All steps of all scenarios. */
  ghost function StepCount(scs: seq<Scenario>): nat {
    if scs == [] then 0 else |scs[0].steps| + StepCount(scs[1..])
  }

  lemma {:induction false} CompleteCount(rs: seq<Report>, scs: seq<Scenario>)
    requires Complete(rs, scs)
    ensures RecordCount(rs) == StepCount(scs)
  {
    if scs != [] {
      assert |rs[0].results| == |Keys(rs[0].results)| == |scs[0].steps|;
      assert Complete(rs[1..], scs[1..]) by {
        forall k | 0 <= k < |scs[1..]|
          ensures rs[1..][k].scenario == scs[1..][k].id && Keys(rs[1..][k].results) == StepNames(scs[1..][k].steps)
        {
          assert rs[1..][k] == rs[k + 1] && scs[1..][k] == scs[k + 1];
        }
      }
      CompleteCount(rs[1..], scs[1..]);
    }
  }

  /** A pair names its two runs, compares every step if the first is complete, and counts what it found. */
  lemma {:induction false} PairExact(x: Entry<seq<Report>>, y: Entry<seq<Report>>, races: RaceSteps, scs: seq<Scenario>)
    requires Complete(x.value, scs)
    ensures var pair, ds := PairOf(x, y, races), Compare(x.value, y.value, races);
            && pair.a == x.key && pair.b == y.key && pair.compared == StepCount(scs)
            && pair.explained == |ExplainedAt(ds, true)| && pair.unexplained == |ExplainedAt(ds, false)|
  {
    CompleteCount(x.value, scs);
    CountsExactly(Compare(x.value, y.value, races), true);
    CountsExactly(Compare(x.value, y.value, races), false);
  }

  /** A profile without a target is listed with the reason given, or as unavailable, and is charged with nothing. */
  lemma {:induction false} SkippedExact<S>(cs: seq<Candidate<S>>, scs: seq<Scenario>, i: nat)
    requires i < |cs|
    ensures var c, p := cs[i], ProfilesOf(cs, scs)[i];
            && p.name == c.name && (p.ran <==> c.target.Some?)
            && (!p.ran ==> p.scenarios == 0 && p.failures == 0)
            && (!p.ran && c.reason.Some? ==> p.reason == c.reason)
            && (!p.ran && c.reason.None? ==> p.reason == Some("unavailable"))
            && (p.ran ==> p.scenarios == |scs| && p.reason.None?)
  {
  }

  // ------------------------------------------------------------------ the tenants

  lemma {:induction false} SamePrefix(a: string, s: string, t: string)
    ensures a + s == a + t ==> s == t
  {
    assert (a + s)[|a|..] == s && (a + t)[|a|..] == t;
  }

  lemma {:induction false} SameSuffix(s: string, t: string, a: string)
    ensures s + a == t + a ==> s == t
  {
    if s + a == t + a {
      assert |s| == |t|;
      assert (s + a)[..|s|] == s && (t + a)[..|t|] == t;
    }
  }

  /** A profile runs each scenario in a tenant of its own, and two profiles run the same scenario in different ones. */
  lemma {:induction false} TenantsDiffer(a: string, b: string, s: string, t: string)
    ensures Tenant(a, s) == Tenant(a, t) ==> s == t
    ensures Tenant(a, s) == Tenant(b, s) ==> a == b
    ensures var ctx := BaseCtx(Tenant(a, s));
            Some(ctx.tenant) == Tenant(a, s) && ctx.actor == "operator" && ctx.idempotencyKey.None?
  {
    SamePrefix("diff-" + a + "-", s, t);
    Concat("diff-", a, "-" + s);
    Concat("diff-", b, "-" + s);
    Concat("diff-" + a, "-", s);
    Concat("diff-" + b, "-", s);
    SameSuffix("diff-" + a, "diff-" + b, "-" + s);
    SamePrefix("diff-", a, b);
  }
}
