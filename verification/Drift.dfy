/** What the differential report says: the accounting of its pairs, and the meaning of `drift: "none"`. */
module Drift {
  import opened Assoc
  import opened Matching
  import opened Runner
  import opened RunLaws
  import opened Walk
  import opened Agreement
  import opened Differential
  import opened PairLoops

  // --------------------------------------------------------------- accounting

  lemma {:induction false} CountsAdd(ds: seq<StepDifference>)
    ensures CountExplained(ds, true) + CountExplained(ds, false) == |ds|
  {
    if ds != [] {
      CountsAdd(ds[1..]);
    }
  }

  lemma {:induction false} CountZero(ds: seq<StepDifference>)
    ensures CountExplained(ds, false) == 0 <==> Quiet(ds)
  {
    if ds != [] {
      CountZero(ds[1..]);
      assert forall i :: 0 < i < |ds| ==> ds[i] == ds[1..][i - 1];
    }
  }

  /** No difference is unexplained. */
  ghost predicate Quiet(ds: seq<StepDifference>) {
    forall i :: 0 <= i < |ds| ==> ds[i].d.explained
  }

  lemma {:induction false} QuietConcat(ds: seq<StepDifference>, es: seq<StepDifference>)
    ensures Quiet(ds + es) <==> Quiet(ds) && Quiet(es)
  {
    if Quiet(ds + es) {
      assert forall i :: 0 <= i < |ds| ==> ds[i] == (ds + es)[i];
      assert forall i :: 0 <= i < |es| ==> es[i] == (ds + es)[|ds| + i];
    }
  }

  function Explained(ps: seq<Pair>): nat {
    if ps == [] then 0 else ps[0].explained + Explained(ps[1..])
  }

  function Unexplained(ps: seq<Pair>): nat {
    if ps == [] then 0 else ps[0].unexplained + Unexplained(ps[1..])
  }

  /** At each position the pair counts the differences found there. */
  ghost predicate Counts(f: Position -> seq<Pair>, g: Position -> seq<StepDifference>, x: Position) {
    |f(x)| == 1 && f(x)[0].explained == CountExplained(g(x), true) && f(x)[0].unexplained == CountExplained(g(x), false)
  }

  lemma {:induction false} CountsGathered(f: Position -> seq<Pair>, g: Position -> seq<StepDifference>,
                                          xs: seq<Position>)
    requires forall x :: x in xs ==> Counts(f, g, x)
    ensures var ps, ds := Gathered(f, xs), Gathered(g, xs);
            && Explained(ps) + Unexplained(ps) == |ds|
            && (Unexplained(ps) == 0 <==> Quiet(ds))
  {
    if xs != [] {
      var d := g(xs[0]);
      assert Counts(f, g, xs[0]);
      CountsGathered(f, g, xs[1..]);
      CountsAdd(d);
      CountZero(d);
      QuietConcat(d, Gathered(g, xs[1..]));
      assert (f(xs[0]) + Gathered(f, xs[1..]))[1..] == Gathered(f, xs[1..]);
    }
  }

  /** Where both indices are those of runs. */
  lemma {:induction false} CountsAt(runs: Runs, races: RaceSteps, x: Position)
    requires x.p < |runs| && x.q < |runs|
    ensures Counts(PairAt(runs, races), DifferencesAt(runs, races), x)
  {
  }

  /** `n` runs give `n (n - 1) / 2` pairs. */
  lemma {:induction false} PairTotal(runs: Runs, races: RaceSteps)
    ensures 2 * |Pairs(runs, races)| == |runs| * (|runs| - 1)
  {
    PositionTotal(|runs|);
    PairsAtPositions(runs, races);
  }

  lemma {:induction false} PairsAtPositions(runs: Runs, races: RaceSteps)
    ensures var ps, xs := Pairs(runs, races), Positions(|runs|, 0, 1);
            && |ps| == |xs|
            && forall k :: 0 <= k < |xs| ==>
              xs[k].p < xs[k].q < |runs| && ps[k] == PairOf(runs[xs[k].p], runs[xs[k].q], races)
  {
    var xs := Positions(|runs|, 0, 1);
    PositionsOnce(|runs|, 0, 1);
    forall k | 0 <= k < |xs| ensures xs[k].p < xs[k].q < |runs| {
      assert xs[k] in xs;
    }
    GatheredOnes(PairAt(runs, races), xs);
  }

  /**
   * Every two runs make a pair, the counts of the pairs add up to the differences listed, and nothing is
   * unexplained exactly when every pair says so.
   */
  lemma {:induction false} PairsAccount(runs: Runs, races: RaceSteps)
    ensures Explained(Pairs(runs, races)) + Unexplained(Pairs(runs, races)) == |Differences(runs, races)|
    ensures Unexplained(Pairs(runs, races)) == 0 <==> Quiet(Differences(runs, races))
    ensures forall p: nat, q: nat :: p < q < |runs| ==> PairOf(runs[p], runs[q], races) in Pairs(runs, races)
  {
    var xs := Positions(|runs|, 0, 1);
    PositionsOnce(|runs|, 0, 1);
    forall x | x in xs ensures Counts(PairAt(runs, races), DifferencesAt(runs, races), x) {
      CountsAt(runs, races, x);
    }
    CountsGathered(PairAt(runs, races), DifferencesAt(runs, races), xs);
    forall p: nat, q: nat | p < q < |runs| ensures PairOf(runs[p], runs[q], races) in Pairs(runs, races) {
      EveryTwoRuns(runs, races, p, q);
    }
  }

  lemma {:induction false} EveryTwoRuns(runs: Runs, races: RaceSteps, p: nat, q: nat)
    requires p < q < |runs|
    ensures PairOf(runs[p], runs[q], races) in Pairs(runs, races)
  {
    var xs := Positions(|runs|, 0, 1);
    PositionsOnce(|runs|, 0, 1);
    PairsAtPositions(runs, races);
    assert From(Position(p, q), |runs|, 0, 1);
    var k :| 0 <= k < |xs| && xs[k] == Position(p, q);
    assert Pairs(runs, races)[k] == PairOf(runs[p], runs[q], races);
  }

  // ------------------------------------------------------------- distinct names

  function CandidateNames<S>(cs: seq<Candidate<S>>): (r: seq<string>)
    ensures |r| == |cs|
    ensures forall i :: 0 <= i < |cs| ==> r[i] == cs[i].name
  {
    seq(|cs|, i requires 0 <= i < |cs| => cs[i].name)
  }

  function Ids(scs: seq<Scenario>): (r: seq<string>)
    ensures |r| == |scs|
    ensures forall i :: 0 <= i < |scs| ==> r[i] == scs[i].id
  {
    seq(|scs|, i requires 0 <= i < |scs| => scs[i].id)
  }

  /** Scenario ids are distinct, and so are the step names of each scenario. */
  ghost predicate WellNamed(scs: seq<Scenario>) {
    Distinct(Ids(scs)) && forall i :: 0 <= i < |scs| ==> Distinct(StepNames(scs[i].steps))
  }

  /** The values of the first `n` options that have one, in order. */
  function Present<T>(xs: seq<Option<T>>, n: nat): seq<T>
    requires n <= |xs|
  {
    if n == 0 then []
    else if xs[n - 1].None? then Present(xs, n - 1)
    else Present(xs, n - 1) + [xs[n - 1].value]
  }

  lemma {:induction false} PresentHas<T>(xs: seq<Option<T>>, n: nat, i: nat)
    requires i < n <= |xs| && xs[i].Some?
    ensures xs[i].value in Present(xs, n)
  {
    if i == n - 1 {
      assert Present(xs, n)[|Present(xs, n)| - 1] == xs[i].value;
    } else {
      PresentHas(xs, n - 1, i);
    }
  }

  lemma {:induction false} PresentFrom<T>(xs: seq<Option<T>>, n: nat, p: nat) returns (i: nat)
    requires n <= |xs| && p < |Present(xs, n)|
    ensures i < n && xs[i] == Some(Present(xs, n)[p])
  {
    if xs[n - 1].Some? && p == |Present(xs, n - 1)| {
      i := n - 1;
    } else {
      i := PresentFrom(xs, n - 1, p);
    }
  }

  lemma {:induction false} AppendKeys<V>(m: seq<Entry<V>>, e: Entry<V>)
    ensures Keys(m + [e]) == Keys(m) + [e.key]
  {
    var ks := Keys(m + [e]);
    assert forall i :: 0 <= i < |ks| ==> ks[i] == (Keys(m) + [e.key])[i];
  }

  /** `ks` are distinct, and among the first `n` names. */
  ghost predicate DistinctWithin(ks: seq<string>, names: seq<string>, n: nat)
    requires n <= |names|
  {
    Distinct(ks) && forall k :: k in ks ==> k in names[..n]
  }

  lemma {:induction false} DistinctNext(ks: seq<string>, names: seq<string>, n: nat)
    requires n < |names| && Distinct(names) && DistinctWithin(ks, names, n)
    ensures names[n] !in ks && DistinctWithin(ks, names, n + 1) && DistinctWithin(ks + [names[n]], names, n + 1)
  {
    NextKey(names, n);
  }

  /** Under distinct names nothing is overwritten. */
  lemma {:induction false} PutAllPresent<V>(xs: seq<Option<Entry<V>>>, names: seq<string>, n: nat)
    requires n <= |xs| == |names| && Distinct(names)
    requires forall i :: 0 <= i < |xs| && xs[i].Some? ==> xs[i].value.key == names[i]
    ensures PutAll(xs, n) == Present(xs, n) && DistinctWithin(Keys(PutAll(xs, n)), names, n)
  {
    if n > 0 {
      PutAllPresent(xs, names, n - 1);
      var m := PutAll(xs, n - 1);
      DistinctNext(Keys(m), names, n - 1);
      if xs[n - 1].Some? {
        PutFresh(m, names[n - 1], xs[n - 1].value.value);
        AppendKeys(m, xs[n - 1].value);
      }
    }
  }

  /** With distinct names the `runs` map is the list of runs, under distinct keys. */
  lemma {:induction false} RunsAreEntries<S>(cs: seq<Candidate<S>>, scs: seq<Scenario>)
    requires Distinct(CandidateNames(cs))
    ensures RunsOf(cs, scs) == Present(RunEntries(cs, scs), |cs|)
    ensures Distinct(Keys(RunsOf(cs, scs)))
  {
    PutAllPresent(RunEntries(cs, scs), CandidateNames(cs), |cs|);
  }

  // ---------------------------------------------------- comparing clean runs

  /** No race up to and including step `n`. */
  ghost predicate BeforeRace(steps: seq<Step>, n: nat)
    requires n < |steps|
  {
    forall m :: 0 <= m <= n ==> !steps[m].RaceStep?
  }

  ghost predicate NoRaceYet(names: seq<string>, races: seq<string>, n: nat)
    requires n < |names|
  {
    forall m :: 0 <= m <= n ==> names[m] !in races
  }

  lemma {:induction false} TagAllQuiet(scenario: string, step: string, after: bool, ds: seq<Difference>)
    ensures Quiet(TagAll(scenario, step, after, ds)) <==> after || AllExplained(ds)
  {
    var ts := TagAll(scenario, step, after, ds);
    if Quiet(ts) && !after {
      forall i | 0 <= i < |ds| ensures ds[i].explained {
        assert ts[i].d == ds[i];
      }
    }
  }

  /** From position `i` on, only steps before the first race have to agree. */
  lemma {:induction false} CompareStepsQuiet(scenario: string, names: seq<string>, i: nat, ra: seq<Entry<CallResult>>,
                                             rb: seq<Entry<CallResult>>, races: seq<string>, after: bool)
    requires i <= |names| && (after <==> exists m :: 0 <= m < i && names[m] in races)
    ensures Quiet(CompareSteps(scenario, names[i..], ra, rb, races, after)) <==>
            forall n: nat :: i <= n < |names| && NoRaceYet(names, races, n) ==>
              Agreeing(RecordValue(ra, names[n]), RecordValue(rb, names[n]))
    decreases |names| - i
  {
    if i < |names| {
      var after' := after || names[i] in races;
      var ds := Walks(RecordValue(ra, names[i]), RecordValue(rb, names[i]), "", None);
      NextStep(scenario, names, i, ra, rb, races, after);
      TagAllQuiet(scenario, names[i], after', ds);
      QuietConcat(TagAll(scenario, names[i], after', ds),
                  CompareSteps(scenario, names[i + 1..], ra, rb, races, after'));
      CompareStepsQuiet(scenario, names, i + 1, ra, rb, races, after');
      assert NoRaceYet(names, races, i) <==> !after';
    }
  }

  lemma {:induction false} FindScenario(rs: seq<Report>, k: nat)
    requires k < |rs| && forall i, j :: 0 <= i < j < |rs| ==> rs[i].scenario != rs[j].scenario
    ensures FindReport(rs, rs[k].scenario) == Some(rs[k])
  {
    if k > 0 {
      FindScenario(rs[1..], k - 1);
    }
  }

  /** The reports of a profile are those of the scenarios, in order. */
  ghost predicate ReportsFor(rs: seq<Report>, scs: seq<Scenario>) {
    |rs| == |scs| && forall k :: 0 <= k < |scs| ==> rs[k].scenario == scs[k].id
  }

  ghost predicate Complete(rs: seq<Report>, scs: seq<Scenario>) {
    ReportsFor(rs, scs) && forall k :: 0 <= k < |scs| ==> Keys(rs[k].results) == StepNames(scs[k].steps)
  }

  ghost predicate Clean(rs: seq<Report>) {
    forall k :: 0 <= k < |rs| ==> rs[k].failures == []
  }

  lemma {:induction false} CleanCount(rs: seq<Report>)
    ensures FailureCount(rs) == 0 <==> Clean(rs)
  {
    if rs != [] {
      CleanCount(rs[1..]);
      assert forall k :: 0 < k < |rs| ==> rs[k] == rs[1..][k - 1];
    }
  }

  /** A profile without failures has one record for every step of every scenario. */
  lemma {:induction false} CleanIsComplete<S(!new)>(t: Target<S>, name: string, scs: seq<Scenario>, s: S)
    requires forall i :: 0 <= i < |scs| ==> Distinct(StepNames(scs[i].steps))
    ensures ReportsFor(RunAll(t, name, scs, s), scs)
    ensures Clean(RunAll(t, name, scs, s)) ==> Complete(RunAll(t, name, scs, s), scs)
    decreases |scs|
  {
    if scs != [] {
      var base := BaseCtx(Tenant(name, scs[0].id));
      var w := Run(scs[0], t, base, s);
      CleanIsComplete(t, name, scs[1..], w.state);
      assert forall k :: 0 < k < |scs| ==> scs[k] == scs[1..][k - 1];
      var rs, rest := RunAll(t, name, scs, s), RunAll(t, name, scs[1..], w.state);
      assert forall k :: 0 < k < |rs| ==> rs[k] == rest[k - 1];
      if Clean(rs) {
        assert rs[0].failures == [];
        CleanRunRecordsAll(t, base, scs[0].steps, s, |scs[0].steps|);
        assert forall k :: 0 <= k < |rest| ==> rest[k] == rs[k + 1];
      }
    }
  }

  /** On every step before a scenario's first race the two profiles leave agreeing records. */
  ghost predicate Concur(a: seq<Report>, b: seq<Report>, scs: seq<Scenario>)
    requires |a| == |b| == |scs|
  {
    forall k: nat, n: nat :: k < |scs| && n < |scs[k].steps| && BeforeRace(scs[k].steps, n) ==>
      ConcurAt(a, b, scs, k, n)
  }

  ghost predicate ConcurAt(a: seq<Report>, b: seq<Report>, scs: seq<Scenario>, k: nat, n: nat)
    requires |a| == |b| == |scs| && k < |scs| && n < |scs[k].steps|
  {
    Agreeing(RecordValue(a[k].results, scs[k].steps[n].name), RecordValue(b[k].results, scs[k].steps[n].name))
  }

  lemma {:induction false} ConcurSymmetric(a: seq<Report>, b: seq<Report>, scs: seq<Scenario>)
    requires |a| == |b| == |scs| && Concur(a, b, scs)
    ensures Concur(b, a, scs)
  {
    forall k: nat, n: nat | k < |scs| && n < |scs[k].steps| && BeforeRace(scs[k].steps, n)
      ensures ConcurAt(b, a, scs, k, n)
    {
      assert ConcurAt(a, b, scs, k, n);
      AgreeingSymmetric(RecordValue(a[k].results, scs[k].steps[n].name),
                        RecordValue(b[k].results, scs[k].steps[n].name));
    }
  }

  lemma {:induction false} RaceByName(steps: seq<Step>, m: nat)
    requires m < |steps| && Distinct(StepNames(steps))
    ensures StepNames(steps)[m] in RaceNames(steps) <==> steps[m].RaceStep?
  {
    if i :| 0 <= i < |steps| && steps[i].RaceStep? && steps[i].name == steps[m].name {
      assert StepNames(steps)[i] == StepNames(steps)[m];
    }
  }

  lemma {:induction false} RacesByStep(steps: seq<Step>, n: nat)
    requires n < |steps| && Distinct(StepNames(steps))
    ensures NoRaceYet(StepNames(steps), RaceNames(steps), n) <==> BeforeRace(steps, n)
  {
    forall m: nat | m <= n ensures StepNames(steps)[m] in RaceNames(steps) <==> steps[m].RaceStep? {
      RaceByName(steps, m);
    }
  }

  lemma {:induction false} RacesFoundOption(scs: seq<Scenario>, n: nat, k: nat)
    requires k < n <= |scs| && Distinct(Ids(scs))
    ensures Find(RaceStepsOf(scs, n), scs[k].id) == Some(RaceNames(scs[k].steps))
  {
    FindPut(RaceStepsOf(scs, n - 1), scs[n - 1].id, RaceNames(scs[n - 1].steps), scs[k].id);
    if k < n - 1 {
      assert Ids(scs)[k] != Ids(scs)[n - 1];
      RacesFoundOption(scs, n - 1, k);
    }
  }

  lemma {:induction false} RacesFound(scs: seq<Scenario>, n: nat, k: nat)
    requires k < n <= |scs| && Distinct(Ids(scs))
    ensures RacesOf(RaceStepsOf(scs, n), scs[k].id) == RaceNames(scs[k].steps)
  {
    RacesFoundOption(scs, n, k);
  }

  /** What comparing one scenario's reports comes down to. */
  ghost predicate ConcurOn(a: seq<Report>, b: seq<Report>, scs: seq<Scenario>, k: nat)
    requires |a| == |b| == |scs| && k < |scs|
  {
    forall n: nat :: n < |scs[k].steps| && BeforeRace(scs[k].steps, n) ==> ConcurAt(a, b, scs, k, n)
  }

  lemma {:induction false} CompareOneQuiet(a: seq<Report>, b: seq<Report>, scs: seq<Scenario>, k: nat)
    requires WellNamed(scs) && k < |scs| && Complete(a, scs) && Complete(b, scs)
    ensures Quiet(CompareOne(a[k], b, RaceStepsOf(scs, |scs|))) <==> ConcurOn(a, b, scs, k)
  {
    forall i, j | 0 <= i < j < |b| ensures b[i].scenario != b[j].scenario {
      assert Ids(scs)[i] != Ids(scs)[j];
    }
    FindScenario(b, k);
    RacesFound(scs, |scs|, k);
    var steps := scs[k].steps;
    var names, races := StepNames(steps), RaceNames(steps);
    CompareStepsQuiet(a[k].scenario, names, 0, a[k].results, b[k].results, races, false);
    assert names[0..] == names;
    forall n: nat | n < |steps| ensures NoRaceYet(names, races, n) <==> BeforeRace(steps, n) {
      RacesByStep(steps, n);
    }
  }

  lemma {:induction false} CompareQuiet(a: seq<Report>, b: seq<Report>, races: RaceSteps)
    ensures Quiet(Compare(a, b, races)) <==> forall k :: 0 <= k < |a| ==> Quiet(CompareOne(a[k], b, races))
  {
    if a != [] {
      QuietConcat(CompareOne(a[0], b, races), Compare(a[1..], b, races));
      CompareQuiet(a[1..], b, races);
      assert forall k :: 0 < k < |a| ==> a[k] == a[1..][k - 1];
    }
  }

  /** Two complete profiles show no unexplained difference exactly when they concur. */
  lemma {:induction false} CompareMeaning(a: seq<Report>, b: seq<Report>, scs: seq<Scenario>)
    requires WellNamed(scs) && Complete(a, scs) && Complete(b, scs)
    ensures Quiet(Compare(a, b, RaceStepsOf(scs, |scs|))) <==> Concur(a, b, scs)
  {
    CompareQuiet(a, b, RaceStepsOf(scs, |scs|));
    forall k: nat | k < |scs| ensures Quiet(CompareOne(a[k], b, RaceStepsOf(scs, |scs|))) <==> ConcurOn(a, b, scs, k) {
      CompareOneQuiet(a, b, scs, k);
    }
    if Concur(a, b, scs) {
      assert forall k: nat :: k < |scs| ==> ConcurOn(a, b, scs, k);
    }
    if forall k: nat :: k < |scs| ==> ConcurOn(a, b, scs, k) {
      assert Concur(a, b, scs);
    }
  }

  // ------------------------------------------------------------- the verdict

  /** No profile that ran has a failure. */
  ghost predicate AllClean<S>(cs: seq<Candidate<S>>, scs: seq<Scenario>) {
    forall i :: 0 <= i < |cs| && cs[i].target.Some? ==> Clean(ReportsOf(cs[i], scs))
  }

  /** Any two profiles that ran concur. */
  ghost predicate AllConcur<S>(cs: seq<Candidate<S>>, scs: seq<Scenario>) {
    forall i, j :: 0 <= i < |cs| && 0 <= j < |cs| && i != j && cs[i].target.Some? && cs[j].target.Some? ==>
      Concur(ReportsOf(cs[i], scs), ReportsOf(cs[j], scs), scs)
  }

  /** Every two different runs compare without an unexplained difference, the earlier on the left. */
  ghost predicate AllQuiet(runs: Runs, races: RaceSteps) {
    forall p, q :: 0 <= p < q < |runs| ==> Quiet(Compare(runs[p].value, runs[q].value, races))
  }

  ghost predicate QuietAt(g: Position -> seq<StepDifference>, x: Position) {
    Quiet(g(x))
  }

  lemma {:induction false} QuietGathered(g: Position -> seq<StepDifference>, xs: seq<Position>)
    ensures Quiet(Gathered(g, xs)) <==> forall x :: x in xs ==> QuietAt(g, x)
  {
    if xs != [] {
      QuietGathered(g, xs[1..]);
      QuietConcat(g(xs[0]), Gathered(g, xs[1..]));
      assert xs == [xs[0]] + xs[1..];
      if forall x :: x in xs ==> QuietAt(g, x) {
        assert QuietAt(g, xs[0]);
      }
    }
  }

  lemma {:induction false} AllDifferencesQuiet(runs: Runs, races: RaceSteps)
    ensures Quiet(Differences(runs, races)) <==> AllQuiet(runs, races)
  {
    var g, xs := DifferencesAt(runs, races), Positions(|runs|, 0, 1);
    PositionsOnce(|runs|, 0, 1);
    QuietGathered(g, xs);
    if Quiet(Differences(runs, races)) {
      forall p, q | 0 <= p < q < |runs| ensures Quiet(Compare(runs[p].value, runs[q].value, races)) {
        assert From(Position(p, q), |runs|, 0, 1);
        assert QuietAt(g, Position(p, q));
      }
    }
    if AllQuiet(runs, races) {
      forall x | x in xs ensures QuietAt(g, x) {
        assert Quiet(Compare(runs[x.p].value, runs[x.q].value, races));
      }
    }
  }

  ghost predicate ProfilesPass(ps: seq<Profile>) {
    forall i :: 0 <= i < |ps| ==> !(ps[i].ran && ps[i].failures > 0)
  }

  lemma {:induction false} ProfilesClean<S>(cs: seq<Candidate<S>>, scs: seq<Scenario>)
    ensures ProfilesPass(ProfilesOf(cs, scs)) <==> AllClean(cs, scs)
  {
    var ps := ProfilesOf(cs, scs);
    forall i | 0 <= i < |cs|
      ensures !(ps[i].ran && ps[i].failures > 0) <==> (cs[i].target.Some? ==> Clean(ReportsOf(cs[i], scs)))
    {
      if cs[i].target.Some? {
        CleanCount(ReportsOf(cs[i], scs));
      }
    }
  }

  /** The reports of a profile that ran clean are complete. */
  lemma {:induction false} CandidateComplete<S(!new)>(c: Candidate<S>, scs: seq<Scenario>)
    requires WellNamed(scs) && c.target.Some? && Clean(ReportsOf(c, scs))
    ensures Complete(ReportsOf(c, scs), scs)
  {
    CleanIsComplete(c.target.value, c.name, scs, c.state);
  }

  /** Each run belongs to a candidate, and different runs to different candidates. */
  lemma {:induction false} RunOwner<S>(cs: seq<Candidate<S>>, scs: seq<Scenario>, p: nat) returns (i: nat)
    requires Distinct(CandidateNames(cs)) && p < |RunsOf(cs, scs)|
    ensures i < |cs| && cs[i].target.Some? && RunsOf(cs, scs)[p] == Entry(cs[i].name, ReportsOf(cs[i], scs))
  {
    RunsAreEntries(cs, scs);
    i := PresentFrom(RunEntries(cs, scs), |cs|, p);
  }

  lemma {:induction false} RunPlace<S>(cs: seq<Candidate<S>>, scs: seq<Scenario>, i: nat) returns (p: nat)
    requires Distinct(CandidateNames(cs)) && i < |cs| && cs[i].target.Some?
    ensures p < |RunsOf(cs, scs)| && RunsOf(cs, scs)[p] == Entry(cs[i].name, ReportsOf(cs[i], scs))
  {
    RunsAreEntries(cs, scs);
    PresentHas(RunEntries(cs, scs), |cs|, i);
    p :| 0 <= p < |RunsOf(cs, scs)| && RunsOf(cs, scs)[p] == Entry(cs[i].name, ReportsOf(cs[i], scs));
  }

  lemma {:induction false} QuietRunsConcur(runs: Runs, scs: seq<Scenario>, p: nat, q: nat)
    requires WellNamed(scs) && AllQuiet(runs, RaceStepsOf(scs, |scs|)) && p < |runs| && q < |runs| && p != q
    requires Complete(runs[p].value, scs) && Complete(runs[q].value, scs)
    ensures Concur(runs[p].value, runs[q].value, scs)
  {
    var a, b := runs[p].value, runs[q].value;
    if p < q {
      CompareMeaning(a, b, scs);
    } else {
      CompareMeaning(b, a, scs);
      ConcurSymmetric(b, a, scs);
    }
  }

  lemma {:induction false} QuietPairConcurs<S(!new)>(cs: seq<Candidate<S>>, scs: seq<Scenario>, i: nat, j: nat)
    requires Distinct(CandidateNames(cs)) && WellNamed(scs) && AllClean(cs, scs)
    requires AllQuiet(RunsOf(cs, scs), RaceStepsOf(scs, |scs|))
    requires i < |cs| && j < |cs| && i != j && cs[i].target.Some? && cs[j].target.Some?
    ensures |ReportsOf(cs[i], scs)| == |ReportsOf(cs[j], scs)| == |scs|
    ensures Concur(ReportsOf(cs[i], scs), ReportsOf(cs[j], scs), scs)
  {
    var p := RunPlace(cs, scs, i);
    var q := RunPlace(cs, scs, j);
    assert p != q by {
      assert CandidateNames(cs)[i] != CandidateNames(cs)[j];
    }
    CandidateComplete(cs[i], scs);
    CandidateComplete(cs[j], scs);
    QuietRunsConcur(RunsOf(cs, scs), scs, p, q);
  }

  lemma {:induction false} QuietMeansConcur<S(!new)>(cs: seq<Candidate<S>>, scs: seq<Scenario>)
    requires Distinct(CandidateNames(cs)) && WellNamed(scs) && AllClean(cs, scs)
    requires AllQuiet(RunsOf(cs, scs), RaceStepsOf(scs, |scs|))
    ensures AllConcur(cs, scs)
  {
    forall i, j | 0 <= i < |cs| && 0 <= j < |cs| && i != j && cs[i].target.Some? && cs[j].target.Some?
      ensures Concur(ReportsOf(cs[i], scs), ReportsOf(cs[j], scs), scs)
    {
      QuietPairConcurs(cs, scs, i, j);
    }
  }

  lemma {:induction false} ConcurMeansQuiet<S(!new)>(cs: seq<Candidate<S>>, scs: seq<Scenario>)
    requires Distinct(CandidateNames(cs)) && WellNamed(scs) && AllClean(cs, scs) && AllConcur(cs, scs)
    ensures AllQuiet(RunsOf(cs, scs), RaceStepsOf(scs, |scs|))
  {
    var runs := RunsOf(cs, scs);
    forall p, q | 0 <= p < q < |runs| ensures Quiet(Compare(runs[p].value, runs[q].value, RaceStepsOf(scs, |scs|))) {
      var i := RunOwner(cs, scs, p);
      var j := RunOwner(cs, scs, q);
      RunsAreEntries(cs, scs);
      assert Keys(runs)[p] != Keys(runs)[q];
      CandidateComplete(cs[i], scs);
      CandidateComplete(cs[j], scs);
      CompareMeaning(ReportsOf(cs[i], scs), ReportsOf(cs[j], scs), scs);
    }
  }

  /**
   * `drift: "none"` says exactly this: no profile that ran has a failure, and any two of them agree, up to
   * explained differences, on every step before the first race of every scenario.
   */
  lemma {:induction false} DriftMeaning<S(!new)>(cs: seq<Candidate<S>>, scs: seq<Scenario>, identity: Identity, at: int)
    requires Distinct(CandidateNames(cs)) && WellNamed(scs)
    ensures Differentiate(cs, scs, identity, at).driftNone <==> AllClean(cs, scs) && AllConcur(cs, scs)
  {
    var runs, races := RunsOf(cs, scs), RaceStepsOf(scs, |scs|);
    AllDifferencesQuiet(runs, races);
    ProfilesClean(cs, scs);
    if AllClean(cs, scs) {
      if AllQuiet(runs, races) { QuietMeansConcur(cs, scs); }
      if AllConcur(cs, scs) { ConcurMeansQuiet(cs, scs); }
    }
  }

  /** Without drift every profile that ran has a record for every step of every scenario. */
  lemma {:induction false} NoDriftIsComplete<S(!new)>(cs: seq<Candidate<S>>, scs: seq<Scenario>, identity: Identity,
                                                      at: int, i: nat)
    requires Distinct(CandidateNames(cs)) && WellNamed(scs) && Differentiate(cs, scs, identity, at).driftNone
    requires i < |cs| && cs[i].target.Some?
    ensures Complete(ReportsOf(cs[i], scs), scs)
  {
    DriftMeaning(cs, scs, identity, at);
    CandidateComplete(cs[i], scs);
  }

  /** The verdict does not depend on the order of the targets, although each comparison walks its left side only. */
  lemma {:induction false} DriftOrderFree<S(!new)>(cs: seq<Candidate<S>>, ds: seq<Candidate<S>>, scs: seq<Scenario>,
                                                   identity: Identity, at: int)
    requires Distinct(CandidateNames(cs)) && Distinct(CandidateNames(ds)) && WellNamed(scs)
    requires forall c :: c in cs <==> c in ds
    ensures Differentiate(cs, scs, identity, at).driftNone == Differentiate(ds, scs, identity, at).driftNone
  {
    DriftMeaning(cs, scs, identity, at);
    DriftMeaning(ds, scs, identity, at);
    if AllClean(cs, scs) && AllConcur(cs, scs) { SameCandidates(cs, ds, scs); }
    if AllClean(ds, scs) && AllConcur(ds, scs) { SameCandidates(ds, cs, scs); }
  }

  lemma {:induction false} SameCandidates<S(!new)>(cs: seq<Candidate<S>>, ds: seq<Candidate<S>>, scs: seq<Scenario>)
    requires Distinct(CandidateNames(ds)) && forall c :: c in ds ==> c in cs
    requires AllClean(cs, scs) && AllConcur(cs, scs)
    ensures AllClean(ds, scs) && AllConcur(ds, scs)
  {
    forall j | 0 <= j < |ds| && ds[j].target.Some? ensures Clean(ReportsOf(ds[j], scs)) {
      assert ds[j] in cs;
      var i :| 0 <= i < |cs| && cs[i] == ds[j];
    }
    forall j, l | 0 <= j < |ds| && 0 <= l < |ds| && j != l && ds[j].target.Some? && ds[l].target.Some?
      ensures Concur(ReportsOf(ds[j], scs), ReportsOf(ds[l], scs), scs)
    {
      assert ds[j] in cs && ds[l] in cs;
      var i :| 0 <= i < |cs| && cs[i] == ds[j];
      var k :| 0 <= k < |cs| && cs[k] == ds[l];
      assert CandidateNames(ds)[j] != CandidateNames(ds)[l];
    }
  }

  /** What the meaning of the verdict comes down to for two candidates. */
  lemma {:induction false} PairDrift<S(!new)>(c: Candidate<S>, d: Candidate<S>, scs: seq<Scenario>, identity: Identity,
                                              at: int)
    requires c.target.Some? && d.target.Some? && c.name != d.name && WellNamed(scs)
    ensures Differentiate([c, d], scs, identity, at).driftNone <==>
            Clean(ReportsOf(c, scs)) && Clean(ReportsOf(d, scs)) && Concur(ReportsOf(c, scs), ReportsOf(d, scs), scs)
  {
    assert CandidateNames([c, d]) == [c.name, d.name];
    DriftMeaning([c, d], scs, identity, at);
    PairVerdict(c, d, scs);
  }

  lemma {:induction false} PairVerdict<S>(c: Candidate<S>, d: Candidate<S>, scs: seq<Scenario>)
    requires c.target.Some? && d.target.Some?
    ensures AllClean([c, d], scs) <==> Clean(ReportsOf(c, scs)) && Clean(ReportsOf(d, scs))
    ensures AllConcur([c, d], scs) <==> Concur(ReportsOf(c, scs), ReportsOf(d, scs), scs)
  {
    var cs := [c, d];
    assert cs[0] == c && cs[1] == d;
    if Concur(ReportsOf(c, scs), ReportsOf(d, scs), scs) {
      ConcurSymmetric(ReportsOf(c, scs), ReportsOf(d, scs), scs);
    }
  }
}
