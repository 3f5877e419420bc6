/** The Worker outlives the repository it can delete, and when the repository may still be forgotten. */
module BindingSafety {
  import opened Custody
  import opened Binding

  type BWorld = World<Disk, Cloud>

  // ------------------------------------------------------------ the invariant

  /**
   * The order of the capabilities. An existing Worker is recorded; a recorded repository can be deleted, because
   * its Worker is recorded, exists, and has its URL saved.
   */
  predicate Ordered(w: BWorld) {
    && (w.cloud.worker ==> w.disk.worker)
    && (w.disk.repo ==> w.disk.worker && w.disk.url && w.cloud.worker)
  }

  predicate NoLeak(w: BWorld) {
    (w.cloud.repo ==> w.disk.repo) && (w.cloud.worker ==> w.disk.worker)
  }

  predicate Safe(w: BWorld) {
    Ordered(w) && NoLeak(w)
  }

  /** The invariant without and with the record of the repository. */
  function Kept(strict: bool): BWorld -> bool {
    (w: BWorld) => Ordered(w) && (strict ==> NoLeak(w))
  }

  lemma {:induction false} WorkerProvisionedKeeps(s: BState, strict: bool)
    requires Good(s, Kept(strict)) && !s.mem.repo
    ensures var (s', ok) := WorkerProvisioned(s);
            && Good(s', Kept(strict)) && !s'.mem.repo
            && (ok ==> s'.mem.worker && s'.mem.url && s'.cloud.worker)
  {
    GoodIsSafe(s, Kept(strict));
    var s0 := Wrote(s, s.mem.(worker := true));
    WroteGood(s, s0.mem, Kept(strict));
    var (s1, ok1) := Deployed(s0);
    ReachedGood(s0, s1.cloud, Kept(strict));
    var s2 := Asked(s1).0;
    ReachedGood(s1, s1.cloud, Kept(strict));
    var s3 := Asked(s2).0;
    ReachedGood(s2, s2.cloud, Kept(strict));
    var s4 := Wrote(s3, s3.mem.(url := true));
    WroteGood(s3, s4.mem, Kept(strict));
    ReachedGood(s4, s4.cloud, Kept(strict));
  }

  lemma {:induction false} RepoProvisionedKeeps(s: BState, strict: bool)
    requires Good(s, Kept(strict)) && s.mem.worker && s.mem.url && s.cloud.worker
    ensures Good(RepoProvisioned(s).0, Kept(strict))
  {
    GoodIsSafe(s, Kept(strict));
    var s0 := Wrote(s, s.mem.(repo := true));
    WroteGood(s, s0.mem, Kept(strict));
    var s1 := RepoCreated(s0).0;
    ReachedGood(s0, s1.cloud, Kept(strict));
    ReachedGood(s1, s1.cloud, Kept(strict));
  }

  lemma {:induction false} AttemptedKeeps(s: BState, p: Plan, strict: bool)
    requires Good(s, Kept(strict)) && !Refuses(s.mem, p)
    ensures Good(Attempted(s, p).state, Kept(strict))
  {
    if !p.cleanupOnly {
      WorkerProvisionedKeeps(s, strict);
      var (s1, ok1) := WorkerProvisioned(s);
      if ok1 {
        RepoProvisionedKeeps(s1, strict);
      }
    }
  }

  // ----------------------------------------------------------------- cleanup

  /** The next call is the delete of an existing repository, and the platform answers it with its own 404. */
  predicate Missed(s: BState) {
    s.mem.repo && s.mem.url && s.cloud.repo && NextFate(s.calls) == Misrouted
  }

  lemma {:induction false} RepoCleanedKeeps(s: BState, strict: bool)
    requires Good(s, Kept(strict)) && (strict ==> !Missed(s))
    ensures var (s', n) := RepoCleaned(s);
            && Good(s', Kept(strict)) && s'.mem.worker == s.mem.worker
            && n == if s'.mem.repo then 1 else 0
  {
    GoodIsSafe(s, Kept(strict));
    if s.mem.repo {
      var (s', ok) := RepoDeleted(s);
      ReachedGood(s, s'.cloud, Kept(strict));
      if ok {
        WroteGood(s', s'.mem.(repo := false), Kept(strict));
      }
    }
  }

  lemma {:induction false} WorkerCleanedKeeps(s: BState, strict: bool)
    requires Good(s, Kept(strict))
    ensures var (s', n) := WorkerCleaned(s);
            && Good(s', Kept(strict)) && s'.mem.repo == s.mem.repo && s'.cloud.repo == s.cloud.repo && n <= 1
            && (s.mem.repo ==> s' == s && n == 0)
            && (!s.mem.repo ==> n == if s'.mem.worker then 1 else 0)
  {
    GoodIsSafe(s, Kept(strict));
    if s.mem.worker && !s.mem.repo {
      var (s', ok) := WorkerDeleted(s);
      ReachedGood(s, s'.cloud, Kept(strict));
      if ok {
        WroteGood(s', s'.mem.(worker := false), Kept(strict));
      }
    }
  }

  /**
   * Whatever the fates, cleanup keeps the order of the capabilities, a repository that stays recorded keeps its
   * Worker, and without failures nothing stays recorded. Nothing leaks unless the delete is missed.
   */
  lemma {:induction false} CleanedMeans(s: BState, strict: bool)
    requires Good(s, Kept(strict)) && (strict ==> !Missed(s))
    ensures var (s', n) := Cleaned(s);
            && Good(s', Kept(strict))
            && (n == 0 <==> !s'.mem.repo && !s'.mem.worker)
            && (s'.mem.repo ==> s'.cloud.worker)
  {
    RepoCleanedKeeps(s, strict);
    var s1 := RepoCleaned(s).0;
    WorkerCleanedKeeps(s1, strict);
    GoodIsSafe(WorkerCleaned(s1).0, Kept(strict));
  }

  /** A missed delete: the repository is forgotten while it exists, in the very next world that is saved. */
  lemma {:induction false} MissedLeaks(s: BState) returns (i: nat)
    requires s.mem == s.disk && Missed(s)
    ensures var s' := Cleaned(s).0; i < |s'.trace| && !NoLeak(s'.trace[i]) && s'.cloud.repo
  {
    var s1 := RepoCleaned(s).0;
    i := |s1.trace| - 1;
    assert s1.trace <= WorkerCleaned(s1).0.trace;
    assert !NoLeak(s1.trace[i]);
  }

  // ------------------------------------------------------------ one session

  function Worlds(w: BWorld, p: Plan, calls: seq<Fate>): seq<BWorld> {
    Session(w, p, calls).state.trace
  }

  /** In this session the platform's own 404 answers the delete of a repository that exists. */
  predicate Misses(w: BWorld, p: Plan, calls: seq<Fate>) {
    !Refuses(w.disk, p) && Missed(Attempted(Fresh(w, calls), p).state)
  }

  lemma {:induction false} SessionKeeps(w: BWorld, p: Plan, calls: seq<Fate>, strict: bool)
    requires Kept(strict)(w) && (strict ==> !Misses(w, p, calls))
    ensures Good(Session(w, p, calls).state, Kept(strict)) && AllSafe(Worlds(w, p, calls), Kept(strict))
    ensures var o := Session(w, p, calls); ExitCode(o.status) == 0 ==> !o.state.mem.repo && !o.state.mem.worker
  {
    var s := Fresh(w, calls);
    assert Good(s, Kept(strict));
    if !Refuses(w.disk, p) {
      AttemptedKeeps(s, p, strict);
      CleanedMeans(Attempted(s, p).state, strict);
    }
  }

  /** A session leaks exactly if the platform's own 404 answers the delete of its existing repository. */
  lemma {:induction false} LeaksExactly(w: BWorld, p: Plan, calls: seq<Fate>)
    requires Safe(w)
    ensures AllSafe(Worlds(w, p, calls), NoLeak) <==> !Misses(w, p, calls)
  {
    if Misses(w, p, calls) {
      var s := Fresh(w, calls);
      assert Good(s, Kept(false));
      AttemptedKeeps(s, p, false);
      var i := MissedLeaks(Attempted(s, p).state);
      assert !NoLeak(Worlds(w, p, calls)[i]);
    } else {
      SessionKeeps(w, p, calls, true);
      forall i | 0 <= i < |Worlds(w, p, calls)| ensures NoLeak(Worlds(w, p, calls)[i]) {
        assert Kept(true)(Worlds(w, p, calls)[i]);
      }
    }
  }

  /**
   * Exit code 0 means that nothing is recorded and no Worker exists; a repository exists exactly if its delete
   * was missed.
   */
  lemma {:induction false} ExitZeroIsClean(w: BWorld, p: Plan, calls: seq<Fate>)
    requires Safe(w) && ExitCode(Session(w, p, calls).status) == 0
    ensures var s := Session(w, p, calls).state;
            && !s.disk.repo && !s.disk.worker && !s.cloud.worker
            && (s.cloud.repo <==> Misses(w, p, calls))
  {
    SessionKeeps(w, p, calls, false);
    GoodIsSafe(Session(w, p, calls).state, Kept(false));
    if Misses(w, p, calls) {
      var s := Fresh(w, calls);
      assert Good(s, Kept(false));
      AttemptedKeeps(s, p, false);
      var i := MissedLeaks(Attempted(s, p).state);
    } else {
      SessionKeeps(w, p, calls, true);
      GoodIsSafe(Session(w, p, calls).state, Kept(true));
    }
  }

  // -------------------------------------------------------------- histories

  predicate Anyhow(w: BWorld, p: Plan, calls: seq<Fate>) {
    true
  }

  lemma {:induction false} AnyhowAllowed(w: BWorld, runs: seq<Run<Plan>>)
    ensures Allowed(Worlds, Anyhow, w, runs)
    decreases |runs|
  {
    if runs != [] {
      AnyhowAllowed(Left(w, Worlds(w, runs[0].plan, runs[0].calls), runs[0].cut), runs[1..]);
    }
  }

  /**
   * In every world of every history, whatever the fates: a recorded repository has a recorded, existing Worker
   * with a saved URL, and an existing Worker is recorded.
   */
  lemma {:induction false} WorkerOutlivesRecord(w: BWorld, runs: seq<Run<Plan>>)
    requires Ordered(w)
    ensures HistorySafe(Worlds, Kept(false), w, runs)
  {
    forall v: BWorld, p: Plan, calls: seq<Fate> | Kept(false)(v) && Anyhow(v, p, calls)
      ensures AllSafe(Worlds(v, p, calls), Kept(false))
    {
      SessionKeeps(v, p, calls, false);
    }
    AnyhowAllowed(w, runs);
    HistoryInduction(Worlds, Anyhow, Kept(false), w, runs);
  }

  predicate NoMiss(w: BWorld, p: Plan, calls: seq<Fate>) {
    !Misses(w, p, calls)
  }

  /**
   * In every world of every history without a missed delete nothing leaks, so the Worker that can delete the
   * repository exists as long as the repository does.
   */
  lemma {:induction false} WorkerOutlivesRepo(w: BWorld, runs: seq<Run<Plan>>)
    requires Safe(w) && Allowed(Worlds, NoMiss, w, runs)
    ensures HistorySafe(Worlds, Kept(true), w, runs)
    ensures Safe(WorldAfter(Worlds, w, runs))
  {
    forall v: BWorld, p: Plan, calls: seq<Fate> | Kept(true)(v) && NoMiss(v, p, calls)
      ensures AllSafe(Worlds(v, p, calls), Kept(true))
    {
      SessionKeeps(v, p, calls, true);
    }
    HistoryInduction(Worlds, NoMiss, Kept(true), w, runs);
  }

  // ----------------------------------------------------- what can be checked

  /** Before the start, from the state file and the command line: no delete of a repository can come. */
  predicate Harmless(d: Disk, p: Plan) {
    Refuses(d, p) || (p.cleanupOnly && !d.repo)
  }

  /** A state file as the script leaves it: a recorded repository has its Worker and URL recorded. */
  predicate Plausible(d: Disk) {
    d.repo ==> d.worker && d.url
  }

  const ANSWERS: seq<Fate> := [Answered, Answered, Answered, Answered, Answered, Answered, Misrouted]

  /** With its calls answered, a full run gets as far as an existing repository, which is then missed. */
  lemma {:induction false} AnsweredProvision(w: BWorld, p: Plan)
    requires Safe(w) && !w.disk.worker && !w.disk.repo && !p.cleanupOnly
    ensures Misses(w, p, ANSWERS)
  {
    var s := Fresh(w, ANSWERS);
    var s1 := WorkerProvisioned(s).0;
    assert s1.mem == Disk(true, false, true) == s1.disk && s1.cloud == Cloud(true, false);
    assert s1.calls == [Answered, Answered, Misrouted];
    assert RepoProvisioned(s1).1;
    var s2 := Attempted(s, p).state;
    assert s2.mem == Disk(true, true, true) && s2.cloud == Cloud(true, true) && s2.calls == [Misrouted];
  }

  /**
   * Exactly the harmless starts are safe in every world that fits the state file, whatever befalls their calls.
   */
  lemma {:induction false} SafeExactlyHarmless(d: Disk, p: Plan)
    requires Plausible(d)
    ensures (forall c: Cloud, calls: seq<Fate> :: Safe(World(d, c)) ==> AllSafe(Worlds(World(d, c), p, calls), NoLeak))
            <==> Harmless(d, p)
  {
    if Harmless(d, p) {
      forall c: Cloud, calls: seq<Fate> | Safe(World(d, c)) ensures AllSafe(Worlds(World(d, c), p, calls), NoLeak) {
        LeaksExactly(World(d, c), p, calls);
      }
    } else if p.cleanupOnly {
      var w := World(d, Cloud(true, true));
      assert Misses(w, p, [Misrouted]);
      LeaksExactly(w, p, [Misrouted]);
    } else {
      var w := World(d, Cloud(false, false));
      AnsweredProvision(w, p);
      LeaksExactly(w, p, ANSWERS);
    }
  }

  // ------------------------------------------------------------- convergence

  /** One cleanup whose two calls are answered empties any safe state, and exits with 0. */
  lemma {:induction false} AnsweredCleanupEmpties(w: BWorld, p: Plan, calls: seq<Fate>)
    requires Safe(w) && p.cleanupOnly && AllAnswered(calls) && |calls| >= 2
    ensures var o := Session(w, p, calls);
            && ExitCode(o.status) == 0 && o.state.disk == Disk(false, false, w.disk.url)
            && o.state.cloud == Cloud(false, false)
  {
    var s := Fresh(w, calls);
    assert calls[0] == Answered && calls[1..][0] == calls[1];
    var (s1, n1) := RepoCleaned(s);
    assert n1 == 0 && !s1.mem.repo && NextFate(s1.calls) == Answered;
    var (s2, n2) := WorkerCleaned(s1);
    assert n2 == 0 && !s2.mem.worker;
    ExitZeroIsClean(w, p, calls);
  }

  /** A further cleanup makes no call and changes nothing. */
  lemma {:induction false} SecondPassIsIdle(w: BWorld, p: Plan, calls: seq<Fate>)
    requires p.cleanupOnly
    ensures Session(w, p, calls) == Outcome(Fresh(w, calls), StatusCleaned) <==> !w.disk.repo && !w.disk.worker
  {
    var s := Fresh(w, calls);
    if w.disk.repo || w.disk.worker {
      var (s1, n1) := RepoCleaned(s);
      var (s2, n2) := WorkerCleaned(s1);
      assert s2.trace != s.trace || n1 + n2 > 0;
    }
  }
}
