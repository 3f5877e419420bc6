/** From a differential run to a certified local profile: when the manifest certifies, and what that then means. */
module Release {
  import opened Assoc
  import opened Runner
  import opened RunLaws
  import opened Differential
  import opened Drift
  import opened Manifest

  // ----------------------------------------------- the report as evidence

  function LocalProfileOf(p: Profile): LocalProfile {
    LocalProfile(p.name, p.ran, p.reason, p.failures, Some(p.scenarios))
  }

  function LocalProfilesOf(ps: seq<Profile>): (r: seq<LocalProfile>)
    ensures |r| == |ps|
    ensures forall i :: 0 <= i < |ps| ==> r[i] == LocalProfileOf(ps[i])
  {
    seq(|ps|, i requires 0 <= i < |ps| => LocalProfileOf(ps[i]))
  }

  function LocalPairOf(p: Pair): LocalPair {
    LocalPair(p.a, p.b, p.compared, p.unexplained)
  }

  function LocalPairsOf(ps: seq<Pair>): (r: seq<LocalPair>)
    ensures |r| == |ps|
    ensures forall i :: 0 <= i < |ps| ==> r[i] == LocalPairOf(ps[i])
  {
    seq(|ps|, i requires 0 <= i < |ps| => LocalPairOf(ps[i]))
  }

  /** The retained file of a report, published after the whole suite passed. */
  function Retained(r: DifferentialReport): LocalEvidence {
    LocalEvidence(
      Bound(Some(r.identity.buildHash), Some(r.identity.sourceFingerprint), Some(r.identity.node),
            Some(r.identity.scenarioIds)),
      Some(r.at), true, r.driftNone, LocalProfilesOf(r.profiles), Some(LocalPairsOf(r.pairs)))
  }

  /** The evidence of a release that retained this differential run, whatever else it retained. */
  ghost predicate FromRun<S>(e: Evidence, cs: seq<Candidate<S>>, scs: seq<Scenario>, at: int) {
    e.differential == Some(Retained(Differentiate(cs, scs, e.identity, at)))
  }

  lemma {:induction false} ProfileFound(ps: seq<LocalProfile>, i: nat)
    requires i < |ps| && forall j, k :: 0 <= j < k < |ps| ==> ps[j].name != ps[k].name
    ensures FindProfile(ps, ps[i].name) == Some(ps[i])
  {
    if i > 0 {
      ProfileFound(ps[1..], i - 1);
    }
  }

  lemma {:induction false} ProfileNamed(ps: seq<LocalProfile>, name: string) returns (i: nat)
    requires FindProfile(ps, name).Some?
    ensures i < |ps| && ps[i].name == name && FindProfile(ps, name) == Some(ps[i])
  {
    if ps[0].name == name {
      i := 0;
    } else {
      i := ProfileNamed(ps[1..], name);
      i := i + 1;
    }
  }

  // ------------------------------------------------------------- completeness

  lemma {:induction false} UnexplainedZero(ps: seq<Pair>, p: Pair)
    requires Unexplained(ps) == 0 && p in ps
    ensures p.unexplained == 0
  {
    if p != ps[0] {
      UnexplainedZero(ps[1..], p);
    }
  }

  lemma {:induction false} RecordsPositive(rs: seq<Report>, k: nat)
    requires k < |rs| && rs[k].results != []
    ensures RecordCount(rs) > 0
  {
    if k > 0 {
      RecordsPositive(rs[1..], k - 1);
    }
  }

  /** Some scenario has a step. */
  predicate AnyStep(scs: seq<Scenario>) {
    exists k :: 0 <= k < |scs| && scs[k].steps != []
  }

  lemma {:induction false} CompleteRecords(rs: seq<Report>, scs: seq<Scenario>)
    requires Complete(rs, scs) && AnyStep(scs)
    ensures RecordCount(rs) > 0
  {
    var k :| 0 <= k < |scs| && scs[k].steps != [];
    assert |Keys(rs[k].results)| == |StepNames(scs[k].steps)|;
    RecordsPositive(rs, k);
  }

  /** Without drift any two profiles that ran are a completed comparison. */
  lemma {:induction false} PairCompleted<S(!new)>(cs: seq<Candidate<S>>, scs: seq<Scenario>, identity: Identity,
                                                  at: int, i: nat, j: nat)
    requires Distinct(CandidateNames(cs)) && WellNamed(scs) && AnyStep(scs)
             && Differentiate(cs, scs, identity, at).driftNone
    requires i < |cs| && j < |cs| && i != j && cs[i].target.Some? && cs[j].target.Some?
    ensures Pairing(Differentiate(cs, scs, identity, at), cs[i].name, cs[j].name)
  {
    var x := RunPlace(cs, scs, i);
    var y := RunPlace(cs, scs, j);
    assert x != y by {
      assert CandidateNames(cs)[i] != CandidateNames(cs)[j];
    }
    NoDriftIsComplete(cs, scs, identity, at, i);
    NoDriftIsComplete(cs, scs, identity, at, j);
    CompleteRecords(ReportsOf(cs[i], scs), scs);
    CompleteRecords(ReportsOf(cs[j], scs), scs);
    var lo, hi := if x < y then x else y, if x < y then y else x;
    QuietPair(RunsOf(cs, scs), RaceStepsOf(scs, |scs|), lo, hi);
  }

  lemma {:induction false} QuietPair(runs: Runs, races: RaceSteps, lo: nat, hi: nat)
    requires lo < hi < |runs| && Quiet(Differences(runs, races))
    ensures PairOf(runs[lo], runs[hi], races) in Pairs(runs, races)
    ensures PairOf(runs[lo], runs[hi], races).unexplained == 0
  {
    PairsAccount(runs, races);
    UnexplainedZero(Pairs(runs, races), PairOf(runs[lo], runs[hi], races));
  }

  lemma {:induction false} CandidateProfile<S(!new)>(cs: seq<Candidate<S>>, scs: seq<Scenario>, identity: Identity,
                                                     at: int, i: nat)
    requires Distinct(CandidateNames(cs)) && WellNamed(scs) && Differentiate(cs, scs, identity, at).driftNone
    requires i < |cs| && cs[i].target.Some?
    ensures var d := Retained(Differentiate(cs, scs, identity, at));
            && FindProfile(d.profiles, cs[i].name) == Some(LocalProfile(cs[i].name, true, None, 0, Some(|scs|)))
            && RanClean(d, cs[i].name, |scs|)
  {
    DriftMeaning(cs, scs, identity, at);
    CleanCount(ReportsOf(cs[i], scs));
    var ps := Retained(Differentiate(cs, scs, identity, at)).profiles;
    forall j, k | 0 <= j < k < |ps| ensures ps[j].name != ps[k].name {
      assert CandidateNames(cs)[j] != CandidateNames(cs)[k];
    }
    ProfileFound(ps, i);
    assert ps[i] == LocalProfile(cs[i].name, true, None, 0, Some(|scs|));
  }

  lemma {:induction false} RunCompares<S(!new)>(cs: seq<Candidate<S>>, scs: seq<Scenario>, identity: Identity, at: int,
                                                i: nat, j: nat)
    requires Distinct(CandidateNames(cs)) && WellNamed(scs) && AnyStep(scs)
             && Differentiate(cs, scs, identity, at).driftNone
    requires i < |cs| && j < |cs| && i != j && cs[i].target.Some? && cs[j].target.Some?
    ensures Compared(Retained(Differentiate(cs, scs, identity, at)), cs[i].name, |scs|)
  {
    CandidateProfile(cs, scs, identity, at, i);
    CandidateProfile(cs, scs, identity, at, j);
    PairCompleted(cs, scs, identity, at, i, j);
    assert CandidateNames(cs)[i] != CandidateNames(cs)[j];
    PairCompares(Differentiate(cs, scs, identity, at), cs[i].name, cs[j].name, |scs|);
  }

  /** In the report, the two names are those of a completed comparison. */
  ghost predicate Pairing(r: DifferentialReport, x: string, y: string) {
    exists p :: p in r.pairs && p.compared > 0 && p.unexplained == 0
      && ((p.a == x && p.b == y) || (p.a == y && p.b == x))
  }

  lemma {:induction false} PairCompares(r: DifferentialReport, x: string, y: string, n: int)
    requires Pairing(r, x, y) && x != y && RanClean(Retained(r), x, n) && RanClean(Retained(r), y, n)
    ensures Compared(Retained(r), x, n)
  {
    var d := Retained(r);
    var p :| p in r.pairs && p.compared > 0 && p.unexplained == 0 && ((p.a == x && p.b == y) || (p.a == y && p.b == x));
    var k :| 0 <= k < |r.pairs| && r.pairs[k] == p;
    assert CompletedPair(d, d.pairs.value[k], x, n);
  }

  /**
   * Completeness: a fresh run without drift, over all scenarios of the current identity, certifies each local
   * profile that ran, as soon as another profile ran too and some step was recorded.
   */
  lemma {:induction false} RunCertifies<S(!new)>(e: Evidence, cs: seq<Candidate<S>>, scs: seq<Scenario>, at: int,
                                                 now: Option<int>, i: nat, j: nat)
    requires FromRun(e, cs, scs, at) && Distinct(CandidateNames(cs)) && WellNamed(scs) && AnyStep(scs)
    requires Differentiate(cs, scs, e.identity, at).driftNone
    requires |scs| == |e.identity.scenarioIds| && Fresh(Some(at), now)
    requires i < |cs| && j < |cs| && i != j && cs[i].target.Some? && cs[j].target.Some?
    ensures LocalReason(e, now, cs[i].name).None?
  {
    CandidateProfile(cs, scs, e.identity, at, i);
    RunCompares(cs, scs, e.identity, at, i, j);
  }

  // ---------------------------------------------------------------- soundness

  /** A certified local profile always has a partner that ran clean and shows no unexplained difference to it. */
  lemma {:induction false} CertifiedHasPartner(e: Evidence, now: Option<int>, name: string)
    requires LocalReason(e, now, name).None?
    ensures var d := e.differential.value;
            exists k :: 0 <= k < |d.pairs.value| && CompletedPair(d, d.pairs.value[k], name, |e.identity.scenarioIds|)
  {
  }

  /**
   * Soundness, end to end: a local profile the manifest certifies on the evidence of a differential run did run,
   * without a failure, and some other profile that ran without a failure concurs with it.
   */
  lemma {:induction false} CertifiedMeans<S(!new)>(e: Evidence, cs: seq<Candidate<S>>, scs: seq<Scenario>, at: int,
                                                   now: Option<int>, name: string)
    returns (i: nat, j: nat)
    requires FromRun(e, cs, scs, at) && Distinct(CandidateNames(cs)) && WellNamed(scs)
    requires LocalReason(e, now, name).None?
    ensures i < |cs| && j < |cs| && i != j && cs[i].name == name && cs[i].target.Some? && cs[j].target.Some?
    ensures Complete(ReportsOf(cs[i], scs), scs) && Complete(ReportsOf(cs[j], scs), scs)
    ensures Clean(ReportsOf(cs[i], scs)) && Clean(ReportsOf(cs[j], scs))
    ensures Concur(ReportsOf(cs[i], scs), ReportsOf(cs[j], scs), scs)
  {
    var d := e.differential.value;
    CertifiedHasPartner(e, now, name);
    var k :| 0 <= k < |d.pairs.value| && CompletedPair(d, d.pairs.value[k], name, |e.identity.scenarioIds|);
    var p := d.pairs.value[k];
    i := RanCandidate(cs, scs, e.identity, at, name, |e.identity.scenarioIds|);
    j := RanCandidate(cs, scs, e.identity, at, if p.a == name then p.b else p.a, |e.identity.scenarioIds|);
    DriftMeaning(cs, scs, e.identity, at);
    NoDriftIsComplete(cs, scs, e.identity, at, i);
    NoDriftIsComplete(cs, scs, e.identity, at, j);
  }

  lemma {:induction false} RanCandidate<S(!new)>(cs: seq<Candidate<S>>, scs: seq<Scenario>, identity: Identity, at: int,
                                                 name: string, n: int) returns (i: nat)
    requires RanClean(Retained(Differentiate(cs, scs, identity, at)), name, n)
    ensures i < |cs| && cs[i].name == name && cs[i].target.Some?
  {
    var d := Retained(Differentiate(cs, scs, identity, at));
    i :| 0 <= i < |d.profiles| && d.profiles[i].name == name && d.profiles[i].ran && d.profiles[i].failures == 0
      && d.profiles[i].scenarios == Some(n);
    assert ProfilesOf(cs, scs)[i] == ProfileOf(cs[i], scs);
  }

  /** A run in which only one profile had a target certifies no local profile. */
  lemma {:induction false} AloneIsNotCertified<S(!new)>(e: Evidence, cs: seq<Candidate<S>>, scs: seq<Scenario>, at: int,
                                                        now: Option<int>, name: string)
    requires FromRun(e, cs, scs, at) && Distinct(CandidateNames(cs)) && WellNamed(scs)
    requires forall i, j :: 0 <= i < j < |cs| ==> cs[i].target.None? || cs[j].target.None?
    ensures LocalReason(e, now, name).Some?
  {
    if LocalReason(e, now, name).None? {
      var i, j := CertifiedMeans(e, cs, scs, at, now, name);
    }
  }
}
