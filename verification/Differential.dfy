/** `compareReports` and `runDifferential`: every scenario on every profile, compared pairwise. */
module Differential {
  import opened Assoc
  import opened Json
  import opened Matching
  import opened Runner
  import opened Walk
  import opened PairLoops

  datatype StepDifference = StepDifference(scenario: string, step: string, d: Difference)

  type RaceSteps = seq<Entry<seq<string>>>

  // ---------------------------------------------------------- compareReports

  /** A record as `walk` sees it; a step without a record is `undefined`. */
  function RecordValue(results: seq<Entry<CallResult>>, step: string): Value {
    match Find(results, step) case Some(r) => ResultValue(r) case None => Undefined
  }

  /** From the first race on every difference is explained as `race`. */
  function Tag(scenario: string, step: string, afterRace: bool, d: Difference): StepDifference {
    StepDifference(scenario, step, if afterRace then d.(explained := true, key := Some("race")) else d)
  }

  function TagAll(scenario: string, step: string, afterRace: bool, ds: seq<Difference>): (r: seq<StepDifference>)
    ensures |r| == |ds|
    ensures forall i :: 0 <= i < |ds| ==> r[i] == Tag(scenario, step, afterRace, ds[i])
  {
    seq(|ds|, i requires 0 <= i < |ds| => Tag(scenario, step, afterRace, ds[i]))
  }

  function CompareStep(scenario: string, step: string, ra: seq<Entry<CallResult>>, rb: seq<Entry<CallResult>>,
                       afterRace: bool): seq<StepDifference>
  {
    TagAll(scenario, step, afterRace, Walks(RecordValue(ra, step), RecordValue(rb, step), "", None))
  }

  function CompareSteps(scenario: string, steps: seq<string>, ra: seq<Entry<CallResult>>, rb: seq<Entry<CallResult>>,
                        races: seq<string>, afterRace: bool): seq<StepDifference>
  {
    if |steps| == 0 then []
    else
      var after := afterRace || steps[0] in races;
      CompareStep(scenario, steps[0], ra, rb, after) + CompareSteps(scenario, steps[1..], ra, rb, races, after)
  }

  function FindReport(rs: seq<Report>, scenario: string): Option<Report> {
    if rs == [] then None else if rs[0].scenario == scenario then Some(rs[0]) else FindReport(rs[1..], scenario)
  }

  function RacesOf(raceSteps: RaceSteps, scenario: string): seq<string> {
    match Find(raceSteps, scenario) case Some(races) => races case None => []
  }

  function CompareOne(ra: Report, b: seq<Report>, raceSteps: RaceSteps): seq<StepDifference> {
    match FindReport(b, ra.scenario)
    case None => [StepDifference(ra.scenario, "*", Difference("", Str("present"), Str("absent"), false, None))]
    case Some(rb) => CompareSteps(ra.scenario, Keys(ra.results), ra.results, rb.results,
                                  RacesOf(raceSteps, ra.scenario), false)
  }

  function Compare(a: seq<Report>, b: seq<Report>, raceSteps: RaceSteps): seq<StepDifference> {
    if |a| == 0 then [] else CompareOne(a[0], b, raceSteps) + Compare(a[1..], b, raceSteps)
  }

  method WalkRecords(ra: Report, rb: Report, step: string, afterRace: bool) returns (diffs: seq<StepDifference>)
    ensures diffs == CompareStep(ra.scenario, step, ra.results, rb.results, afterRace)
  {
    var log := new DifferenceLog();
    log.Walk(RecordValue(ra.results, step), RecordValue(rb.results, step), "", None);
    diffs := TagAll(ra.scenario, step, afterRace, log.items);
  }

  lemma {:induction false} NextStep(scenario: string, steps: seq<string>, i: nat, ra: seq<Entry<CallResult>>,
                                    rb: seq<Entry<CallResult>>, races: seq<string>, afterRace: bool)
    requires i < |steps|
    ensures CompareSteps(scenario, steps[i..], ra, rb, races, afterRace)
         == CompareStep(scenario, steps[i], ra, rb, afterRace || steps[i] in races)
            + CompareSteps(scenario, steps[i + 1..], ra, rb, races, afterRace || steps[i] in races)
  {
    Uncons(steps, i);
  }

  /** One turn of the loop over steps. */
  lemma {:induction false} Advanced(scenario: string, steps: seq<string>, i: nat, ra: seq<Entry<CallResult>>,
                                    rb: seq<Entry<CallResult>>,
      races: seq<string>, before: bool, after: bool, out: seq<StepDifference>)
    requires i < |steps| && (after <==> before || steps[i] in races)
    ensures out + CompareSteps(scenario, steps[i..], ra, rb, races, before)
         == (out + CompareStep(scenario, steps[i], ra, rb, after))
           + CompareSteps(scenario, steps[i + 1..], ra, rb, races, after)
  {
    NextStep(scenario, steps, i, ra, rb, races, before);
    Concat(out, CompareStep(scenario, steps[i], ra, rb, after),
           CompareSteps(scenario, steps[i + 1..], ra, rb, races, after));
  }

  /** The loop over the steps of one report, pushing onto what has been found before. */
  method CompareStepsOf(ra: Report, rb: Report, races: seq<string>, found: seq<StepDifference>)
    returns (out: seq<StepDifference>)
    ensures out == found + CompareSteps(ra.scenario, Keys(ra.results), ra.results, rb.results, races, false)
  {
    out := found;
    var steps := Keys(ra.results);
    var afterRace := false;
    assert steps[0..] == steps;
    for i := 0 to |steps|
      invariant out + CompareSteps(ra.scenario, steps[i..], ra.results, rb.results, races, afterRace)
             == found + CompareSteps(ra.scenario, steps, ra.results, rb.results, races, false)
    {
      ghost var before := afterRace;
      if steps[i] in races {
        afterRace := true;
      }
      Advanced(ra.scenario, steps, i, ra.results, rb.results, races, before, afterRace, out);
      var diffs := WalkRecords(ra, rb, steps[i], afterRace);
      out := out + diffs;
    }
  }

  lemma {:induction false} NextReport(a: seq<Report>, i: nat, b: seq<Report>, raceSteps: RaceSteps)
    requires i < |a|
    ensures Compare(a[i..], b, raceSteps) == CompareOne(a[i], b, raceSteps) + Compare(a[i + 1..], b, raceSteps)
  {
    Uncons(a, i);
  }

  /** One turn of the loop: a report against the one for the same scenario. */
  method CompareReport(ra: Report, b: seq<Report>, raceSteps: RaceSteps, found: seq<StepDifference>)
    returns (out: seq<StepDifference>)
    ensures out == found + CompareOne(ra, b, raceSteps)
  {
    var rb := FindReport(b, ra.scenario);
    if rb.None? {
      return found + [StepDifference(ra.scenario, "*", Difference("", Str("present"), Str("absent"), false, None))];
    }
    out := CompareStepsOf(ra, rb.value, RacesOf(raceSteps, ra.scenario), found);
  }

  method CompareReports(a: seq<Report>, b: seq<Report>, raceSteps: RaceSteps) returns (out: seq<StepDifference>)
    ensures out == Compare(a, b, raceSteps)
  {
    out := [];
    assert a[0..] == a;
    for i := 0 to |a|
      invariant out + Compare(a[i..], b, raceSteps) == Compare(a, b, raceSteps)
    {
      NextReport(a, i, b, raceSteps);
      Concat(out, CompareOne(a[i], b, raceSteps), Compare(a[i + 1..], b, raceSteps));
      out := CompareReport(a[i], b, raceSteps, out);
    }
  }

  // --------------------------------------------------------- runDifferential

  datatype Identity = Identity(buildHash: string, sourceFingerprint: string, node: string, scenarioIds: seq<string>)

  /** A profile to run: without a target it only gives the reason. `state` is the target's own. */
  datatype Candidate<!S> = Candidate(name: string, target: Option<Target<S>>, reason: Option<string>, state: S)

  datatype Profile = Profile(name: string, ran: bool, reason: Option<string>, scenarios: nat, failures: nat)

  datatype Pair = Pair(a: string, b: string, compared: nat, explained: nat, unexplained: nat)

  datatype DifferentialReport = DifferentialReport(
    identity: Identity, at: int, profiles: seq<Profile>, pairs: seq<Pair>, differences: seq<StepDifference>,
    driftNone: bool)

  datatype Certified = Finished(report: DifferentialReport) | Thrown(message: string)

  type Runs = seq<Entry<seq<Report>>>

  function Tenant(name: string, scenario: string): Option<string> {
    Some("diff-" + name + "-" + scenario)
  }

  /** The reports of one profile, its target state threaded through the scenarios. */
  function RunAll<S>(t: Target<S>, name: string, scs: seq<Scenario>, s: S): (r: seq<Report>)
    ensures |r| == |scs|
  {
    if scs == [] then []
    else
      var w := Run(scs[0], t, BaseCtx(Tenant(name, scs[0].id)), s);
      [ReportOf(scs[0], t, w)] + RunAll(t, name, scs[1..], w.state)
  }

  function FailureCount(rs: seq<Report>): nat {
    if rs == [] then 0 else |rs[0].failures| + FailureCount(rs[1..])
  }

  function RecordCount(rs: seq<Report>): nat {
    if rs == [] then 0 else |rs[0].results| + RecordCount(rs[1..])
  }

  function ReportsOf<S>(c: Candidate<S>, scs: seq<Scenario>): seq<Report>
    requires c.target.Some?
  {
    RunAll(c.target.value, c.name, scs, c.state)
  }

  function ProfileOf<S>(c: Candidate<S>, scs: seq<Scenario>): Profile {
    match c.target
    case None => Profile(c.name, false, Some(OrElse(c.reason, "unavailable")), 0, 0)
    case Some(_) => Profile(c.name, true, None, |ReportsOf(c, scs)|, FailureCount(ReportsOf(c, scs)))
  }

  function ProfilesOf<S>(cs: seq<Candidate<S>>, scs: seq<Scenario>): (r: seq<Profile>)
    ensures |r| == |cs|
    ensures forall i :: 0 <= i < |cs| ==> r[i] == ProfileOf(cs[i], scs)
  {
    seq(|cs|, i requires 0 <= i < |cs| => ProfileOf(cs[i], scs))
  }

  /** A candidate's run as an entry of the `runs` map. */
  function RunEntry<S>(c: Candidate<S>, scs: seq<Scenario>): Option<Entry<seq<Report>>> {
    if c.target.None? then None else Some(Entry(c.name, ReportsOf(c, scs)))
  }

  function RunEntries<S>(cs: seq<Candidate<S>>, scs: seq<Scenario>): (r: seq<Option<Entry<seq<Report>>>>)
    ensures |r| == |cs|
    ensures forall i :: 0 <= i < |cs| ==> r[i] == RunEntry(cs[i], scs)
  {
    seq(|cs|, i requires 0 <= i < |cs| => RunEntry(cs[i], scs))
  }

  /** A map written option by option. */
  function PutAll<V>(xs: seq<Option<Entry<V>>>, n: nat): seq<Entry<V>>
    requires n <= |xs|
  {
    if n == 0 then []
    else if xs[n - 1].None? then PutAll(xs, n - 1)
    else Put(PutAll(xs, n - 1), xs[n - 1].value.key, xs[n - 1].value.value)
  }

  /** The `runs` map. */
  function RunsOf<S>(cs: seq<Candidate<S>>, scs: seq<Scenario>): Runs {
    PutAll(RunEntries(cs, scs), |cs|)
  }

  function RaceNames(steps: seq<Step>): (r: seq<string>)
    ensures forall k :: k in r <==> exists i :: 0 <= i < |steps| && steps[i].RaceStep? && steps[i].name == k
  {
    if |steps| == 0 then []
    else (if steps[0].RaceStep? then [steps[0].name] else []) + RaceNames(steps[1..])
  }

  function RaceStepsOf(scs: seq<Scenario>, n: nat): RaceSteps
    requires n <= |scs|
  {
    if n == 0 then [] else Put(RaceStepsOf(scs, n - 1), scs[n - 1].id, RaceNames(scs[n - 1].steps))
  }

  function CountExplained(ds: seq<StepDifference>, explained: bool): nat {
    if ds == [] then 0 else (if ds[0].d.explained == explained then 1 else 0) + CountExplained(ds[1..], explained)
  }

  function PairOf(x: Entry<seq<Report>>, y: Entry<seq<Report>>, races: RaceSteps): Pair {
    var d := Compare(x.value, y.value, races);
    Pair(x.key, y.key, RecordCount(x.value), CountExplained(d, true), CountExplained(d, false))
  }

  function PairAt(runs: Runs, races: RaceSteps): Position -> seq<Pair> {
    (x: Position) => if x.p < |runs| && x.q < |runs| then [PairOf(runs[x.p], runs[x.q], races)] else []
  }

  function DifferencesAt(runs: Runs, races: RaceSteps): Position -> seq<StepDifference> {
    (x: Position) => if x.p < |runs| && x.q < |runs| then Compare(runs[x.p].value, runs[x.q].value, races) else []
  }

  function Pairs(runs: Runs, races: RaceSteps): seq<Pair> {
    Gathered(PairAt(runs, races), Positions(|runs|, 0, 1))
  }

  function Differences(runs: Runs, races: RaceSteps): seq<StepDifference> {
    Gathered(DifferencesAt(runs, races), Positions(|runs|, 0, 1))
  }

  predicate NoDrift(differences: seq<StepDifference>, profiles: seq<Profile>) {
    && (forall i :: 0 <= i < |differences| ==> differences[i].d.explained)
    && (forall i :: 0 <= i < |profiles| ==> !(profiles[i].ran && profiles[i].failures > 0))
  }

  function Differentiate<S>(cs: seq<Candidate<S>>, scs: seq<Scenario>, identity: Identity, at: int): DifferentialReport
  {
    var runs, races, profiles := RunsOf(cs, scs), RaceStepsOf(scs, |scs|), ProfilesOf(cs, scs);
    var differences := Differences(runs, races);
    DifferentialReport(identity, at, profiles, Pairs(runs, races), differences, NoDrift(differences, profiles))
  }

  lemma {:induction false} NextScenario<S>(t: Target<S>, name: string, scs: seq<Scenario>, k: nat, s: S)
    requires k < |scs|
    ensures var w := Run(scs[k], t, BaseCtx(Tenant(name, scs[k].id)), s);
            RunAll(t, name, scs[k..], s) == [ReportOf(scs[k], t, w)] + RunAll(t, name, scs[k + 1..], w.state)
  {
    Uncons(scs, k);
  }

  method RunProfile<S>(t: Target<S>, name: string, scs: seq<Scenario>, s: S) returns (reports: seq<Report>)
    ensures reports == RunAll(t, name, scs, s)
  {
    reports := [];
    var state := s;
    assert scs[0..] == scs;
    for k := 0 to |scs|
      invariant reports + RunAll(t, name, scs[k..], state) == RunAll(t, name, scs, s)
    {
      NextScenario(t, name, scs, k, state);
      var report, state' := RunScenario(scs[k], t, Tenant(name, scs[k].id), state);
      Concat(reports, [report], RunAll(t, name, scs[k + 1..], state'));
      reports, state := reports + [report], state';
    }
  }

  method RunCandidate<S>(c: Candidate<S>, scs: seq<Scenario>) returns (reports: Option<seq<Report>>, profile: Profile)
    ensures profile == ProfileOf(c, scs)
    ensures reports == if c.target.None? then None else Some(ReportsOf(c, scs))
  {
    if c.target.None? {
      return None, Profile(c.name, false, Some(OrElse(c.reason, "unavailable")), 0, 0);
    }
    var rs := RunProfile(c.target.value, c.name, scs, c.state);
    return Some(rs), Profile(c.name, true, None, |rs|, FailureCount(rs));
  }

  lemma {:induction false} NextProfile<S>(cs: seq<Candidate<S>>, scs: seq<Scenario>, n: nat)
    requires n < |cs|
    ensures ProfilesOf(cs, scs)[..n + 1] == ProfilesOf(cs, scs)[..n] + [ProfileOf(cs[n], scs)]
  {
    TakeNext(ProfilesOf(cs, scs), n);
  }

  method RunCandidates<S>(cs: seq<Candidate<S>>, scs: seq<Scenario>) returns (runs: Runs, profiles: seq<Profile>)
    ensures runs == RunsOf(cs, scs) && profiles == ProfilesOf(cs, scs)
  {
    runs, profiles := [], [];
    ghost var all, entries := ProfilesOf(cs, scs), RunEntries(cs, scs);
    for n := 0 to |cs|
      invariant runs == PutAll(entries, n) && profiles == all[..n]
    {
      NextProfile(cs, scs, n);
      var reports, profile := RunCandidate(cs[n], scs);
      if reports.Some? {
        runs := Put(runs, cs[n].name, reports.value);
      }
      profiles := profiles + [profile];
    }
  }

  method ComparePair(x: Entry<seq<Report>>, y: Entry<seq<Report>>, races: RaceSteps)
    returns (pair: Pair, d: seq<StepDifference>)
    ensures pair == PairOf(x, y, races) && d == Compare(x.value, y.value, races)
  {
    d := CompareReports(x.value, y.value, races);
    pair := Pair(x.key, y.key, RecordCount(x.value), CountExplained(d, true), CountExplained(d, false));
  }

  /** What comparing the runs at these positions gives. */
  ghost predicate ComparedAt(runs: Runs, races: RaceSteps, xs: seq<Position>, pairs: seq<Pair>,
                             differences: seq<StepDifference>)
  {
    pairs == Gathered(PairAt(runs, races), xs) && differences == Gathered(DifferencesAt(runs, races), xs)
  }

  lemma {:induction false} ComparedNext(runs: Runs, races: RaceSteps, xs: seq<Position>, pairs: seq<Pair>,
                                        differences: seq<StepDifference>, x: Position)
    requires ComparedAt(runs, races, xs, pairs, differences) && x.p < |runs| && x.q < |runs|
    ensures ComparedAt(runs, races, xs + [x], pairs + [PairOf(runs[x.p], runs[x.q], races)],
                       differences + Compare(runs[x.p].value, runs[x.q].value, races))
  {
    GatheredNext(PairAt(runs, races), xs, x);
    GatheredNext(DifferencesAt(runs, races), xs, x);
  }

  /** The inner loop: run `i` against every later one, after the positions `seen`. */
  method CompareWithLater(runs: Runs, races: RaceSteps, i: nat, pairs: seq<Pair>, differences: seq<StepDifference>,
                          ghost seen: seq<Position>)
    returns (pairs': seq<Pair>, differences': seq<StepDifference>, ghost seen': seq<Position>)
    requires i < |runs| && seen + Positions(|runs|, i, i + 1) == Positions(|runs|, 0, 1)
    requires ComparedAt(runs, races, seen, pairs, differences)
    ensures seen' + Positions(|runs|, i + 1, i + 2) == Positions(|runs|, 0, 1)
    ensures ComparedAt(runs, races, seen', pairs', differences')
  {
    pairs', differences', seen' := pairs, differences, seen;
    for j := i + 1 to |runs|
      invariant seen' + Positions(|runs|, i, j) == Positions(|runs|, 0, 1)
      invariant ComparedAt(runs, races, seen', pairs', differences')
    {
      ghost var x := Position(i, j);
      Concat(seen', [x], Positions(|runs|, i, j + 1));
      ComparedNext(runs, races, seen', pairs', differences', x);
      var pair, d := ComparePair(runs[i], runs[j], races);
      pairs', differences', seen' := pairs' + [pair], differences' + d, seen' + [x];
    }
  }

  method ComparePairs(runs: Runs, races: RaceSteps) returns (pairs: seq<Pair>, differences: seq<StepDifference>)
    ensures pairs == Pairs(runs, races) && differences == Differences(runs, races)
  {
    pairs, differences := [], [];
    ghost var seen := [];
    NoneSeen(|runs|);
    for i := 0 to |runs|
      invariant seen + Positions(|runs|, i, i + 1) == Positions(|runs|, 0, 1)
      invariant ComparedAt(runs, races, seen, pairs, differences)
    {
      pairs, differences, seen := CompareWithLater(runs, races, i, pairs, differences, seen);
    }
    AllSeen(|runs|, seen);
  }

  method RunDifferential<S>(cs: seq<Candidate<S>>, scs: seq<Scenario>, bundleHash: Option<string>, before: Identity,
                            after: Identity, at: int)
    returns (r: Certified)
    ensures r == if bundleHash.Some? && bundleHash.value != before.buildHash
                 then Thrown("Differential bundle differs from the current certification fixture")
                 else if after != before then Thrown("Source changed during differential certification")
                 else Finished(Differentiate(cs, scs, before, at))
  {
    if bundleHash.Some? && bundleHash.value != before.buildHash {
      return Thrown("Differential bundle differs from the current certification fixture");
    }
    var runs, profiles := RunCandidates(cs, scs);
    var races := RaceStepsOf(scs, |scs|);
    var pairs, differences := ComparePairs(runs, races);
    if after != before {
      return Thrown("Source changed during differential certification");
    }
    r := Finished(DifferentialReport(before, at, profiles, pairs, differences, NoDrift(differences, profiles)));
  }
}
