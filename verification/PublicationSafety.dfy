/** No publication run leaks, when it does, and what its exit code means. */
module PublicationSafety {
  import opened Assoc
  import opened Custody
  import opened Publication

  type PWorld = World<Disk, Cloud>

  // ------------------------------------------------------------ the invariant

  /** Whatever exists under the owned name is recorded in the state file. */
  ghost predicate NoLeak(w: PWorld) {
    forall k: Kind :: Exists(w.cloud, k) ==> k in w.disk.resources
  }

  /** A recorded database id is that of the existing database, if there is one. */
  predicate Current(w: PWorld) {
    && (w.disk.database.Some? ==> w.disk.database.value < w.cloud.nextId)
    && (w.cloud.d1.Some? ==> w.cloud.d1.value < w.cloud.nextId)
    && (w.disk.database.Some? && w.cloud.d1.Some? ==> w.disk.database == w.cloud.d1)
  }

  ghost predicate Safe(w: PWorld) {
    NoLeak(w) && Current(w)
  }

  lemma {:induction false} IntendedSafe(s: PState, k: Kind)
    requires Good(s, Safe)
    ensures Good(Intended(s, k), Safe)
  {
    GoodIsSafe(s, Safe);
    WroteGood(s, s.mem.(resources := s.mem.resources + [k]), Safe);
  }

  lemma {:induction false} CreatedSafe(s: PState, k: Kind)
    requires Good(s, Safe) && k in s.disk.resources && (k == D1 ==> s.disk.database.None?)
    ensures var s' := Created(s, k).0; Good(s', Safe) && s'.mem == s.mem
  {
    GoodIsSafe(s, Safe);
    var c := Created(s, k).0.cloud;
    forall j: Kind | Exists(c, j) ensures j in s.disk.resources {
      assert j == k || Exists(s.cloud, j);
    }
    ReachedGood(s, c, Safe);
  }

  lemma {:induction false} AcquiredSafe(s: PState, k: Kind)
    requires Good(s, Safe) && (k == D1 ==> s.disk.database.None?)
    ensures var s' := Acquired(s, k).0; Good(s', Safe) && s'.mem == s.mem.(resources := s.mem.resources + [k])
  {
    IntendedSafe(s, k);
    CreatedSafe(Intended(s, k), k);
  }

  lemma {:induction false} RememberedSafe(s: PState)
    requires Good(s, Safe)
    ensures Good(Remembered(s), Safe)
  {
    GoodIsSafe(s, Safe);
    forall k: Kind | Exists(s.cloud, k) ensures k in s.disk.resources { }
    WroteGood(s, s.mem.(database := s.cloud.d1), Safe);
  }

  lemma {:induction false} ProvisionedSafe(s: PState, p: Plan)
    requires Good(s, Safe) && s.mem.database.None?
    ensures Good(Provisioned(s, p).0, Safe)
  {
    AcquiredSafe(s, Repo);
    var (s1, ok1) := Acquired(s, Repo);
    if ok1 {
      AcquiredSafe(s1, D1);
      var (s2, ok2) := Acquired(s1, D1);
      if ok2 {
        RememberedSafe(s2);
        AcquiredSafe(Remembered(s2), Worker);
      }
    }
  }

  // ----------------------------------------------------------------- cleanup

  lemma {:induction false} RemovedSafe(s: PState, k: Kind)
    requires Good(s, Safe)
    ensures Good(Reached(s, Removed(s.cloud, k)), Safe)
  {
    GoodIsSafe(s, Safe);
    forall j: Kind | Exists(Removed(s.cloud, k), j) ensures j in s.disk.resources {
      assert Exists(s.cloud, j);
    }
    ReachedGood(s, Removed(s.cloud, k), Safe);
  }

  /** A confirmed delete, and a 404, mean that the object is gone. */
  lemma {:induction false} DeletedKindMeans(s: PState, k: Kind)
    requires Good(s, Safe)
    ensures var (s', reply) := DeletedKind(s, k);
            && Good(s', Safe) && s'.mem == s.mem
            && (reply != Failed ==> !Exists(s'.cloud, k))
  {
    GoodIsSafe(s, Safe);
    RemovedSafe(s, k);
    ReachedGood(s, s.cloud, Safe);
    RemovedSafe(Reached(s, s.cloud), k);
    ReachedGood(Reached(s, s.cloud), s.cloud, Safe);
  }

  lemma {:induction false} ForgottenSafe(s: PState, k: Kind)
    requires Good(s, Safe) && !Exists(s.cloud, k)
    ensures Good(Forgotten(s, k), Safe)
  {
    GoodIsSafe(s, Safe);
    var rest := Without(s.mem.resources, k);
    forall j: Kind | Exists(s.cloud, j) ensures j in rest {
      assert j != k && j in multiset(s.mem.resources);
      assert j in multiset(rest);
    }
    WroteGood(s, s.mem.(resources := rest), Safe);
  }

  /** What a cleanup pass keeps, and how what it leaves recorded relates to the failures it counts. */
  ghost predicate PassMeans(s: PState, todo: seq<Kind>, s': PState, failures: nat) {
    && Good(s', Safe)
    && s'.mem.database == s.mem.database
    && (multiset(todo) <= multiset(s.mem.resources) ==> |s'.mem.resources| + |todo| == |s.mem.resources| + failures)
  }

  lemma {:induction false} CleanedKindMeans(s: PState, k: Kind)
    requires Good(s, Safe)
    ensures var (s', n) := CleanedKind(s, k);
            && Good(s', Safe)
            && n <= 1
            && s'.mem.database == s.mem.database
            && multiset(s'.mem.resources) == multiset(s.mem.resources) - if n == 0 then multiset{k} else multiset{}
  {
    DeletedKindMeans(s, k);
    var (s', reply) := DeletedKind(s, k);
    if reply != Failed {
      ForgottenSafe(s', k);
    }
  }

  lemma {:induction false} CleanedAllMeans(s: PState, todo: seq<Kind>)
    requires Good(s, Safe)
    ensures var (s', n) := CleanedAll(s, todo); PassMeans(s, todo, s', n)
    decreases |todo|
  {
    if todo != [] {
      var k := todo[0];
      CleanedKindMeans(s, k);
      var (s', n) := CleanedKind(s, k);
      CleanedAllMeans(s', todo[1..]);
      if multiset(todo) <= multiset(s.mem.resources) {
        DoneOne(s.mem.resources, todo, s'.mem.resources, n == 0);
      }
    }
  }

  /** A pass leaves recorded exactly as many resources as it counts failures, and leaks nothing. */
  lemma {:induction false} CleanedMeans(s: PState)
    requires Good(s, Safe)
    ensures var (s', n) := Cleaned(s); Good(s', Safe) && |s'.mem.resources| == n
  {
    CleanedAllMeans(s, Reversed(s.mem.resources));
  }

  // ------------------------------------------------------------ one session

  /** The one start that can leak: provisioning in a directory that still records an old database id. */
  predicate Unspoiled(w: PWorld, p: Plan) {
    Provisions(w.disk, p) ==> w.disk.database.None?
  }

  function Worlds(w: PWorld, p: Plan, calls: seq<Fate>): seq<PWorld> {
    Session(w, p, calls).state.trace
  }

  lemma {:induction false} SessionSafe(w: PWorld, p: Plan, calls: seq<Fate>)
    requires Safe(w) && Unspoiled(w, p)
    ensures Good(Session(w, p, calls).state, Safe)
    ensures AllSafe(Worlds(w, p, calls), Safe)
    ensures var o := Session(w, p, calls); o.status == StatusCleanupFailed <==> o.state.mem.resources != []
  {
    var s := Fresh(w, calls);
    assert Good(s, Safe);
    if Provisions(w.disk, p) {
      ProvisionedSafe(s, p);
    }
    CleanedMeans(Attempted(s, p).state);
  }

  // --------------------------------------------------------------- exit code

  /** The two states differ at most in the worlds they have gone through. */
  predicate SameNow(s: PState, t: PState) {
    t == s.(trace := t.trace)
  }

  lemma {:induction false} DeletedKindNow(s: PState, t: PState, k: Kind)
    requires SameNow(s, t)
    ensures SameNow(DeletedKind(s, k).0, DeletedKind(t, k).0) && DeletedKind(s, k).1 == DeletedKind(t, k).1
  {
  }

  lemma {:induction false} CleanedKindNow(s: PState, t: PState, k: Kind)
    requires SameNow(s, t)
    ensures SameNow(CleanedKind(s, k).0, CleanedKind(t, k).0) && CleanedKind(s, k).1 == CleanedKind(t, k).1
  {
    DeletedKindNow(s, t, k);
  }

  /** What a cleanup does depends on the present only. */
  lemma {:induction false} CleanedAllNow(s: PState, t: PState, todo: seq<Kind>)
    requires SameNow(s, t)
    ensures SameNow(CleanedAll(s, todo).0, CleanedAll(t, todo).0) && CleanedAll(s, todo).1 == CleanedAll(t, todo).1
    decreases |todo|
  {
    if todo != [] {
      CleanedKindNow(s, t, todo[0]);
      CleanedAllNow(CleanedKind(s, todo[0]).0, CleanedKind(t, todo[0]).0, todo[1..]);
    }
  }

  /** Memory and disk agree, and the present world is safe; what came before does not matter. */
  ghost predicate Settled(s: PState) {
    s.mem == s.disk && Safe(World(s.disk, s.cloud))
  }

  lemma {:induction false} SettledCleanup(s: PState)
    requires Settled(s) && Cleaned(s).1 == 0
    ensures var s' := Cleaned(s).0; s'.disk.resources == [] && forall k: Kind :: !Exists(s'.cloud, k)
  {
    var t := s.(trace := [World(s.disk, s.cloud)]);
    assert Good(t, Safe);
    CleanedAllNow(s, t, Reversed(s.mem.resources));
    CleanedMeans(t);
    GoodIsSafe(Cleaned(t).0, Safe);
  }

  lemma {:induction false} AcquiredNow(s: PState, k: Kind)
    requires Acquired(s, k).1
    ensures var s' := Acquired(s, k).0;
            s'.mem == s'.disk == s.mem.(resources := s.mem.resources + [k]) && s'.cloud == Added(s.cloud, k)
  {
  }

  /**
   * Provisioning that succeeds ends in a safe world, also over an old database id: the new one has been saved
   * in its place.
   */
  lemma {:induction false} ProvisionedSettles(s: PState, p: Plan)
    requires Settled(s) && s.mem.resources == [] && Provisioned(s, p).1
    ensures Settled(Provisioned(s, p).0)
  {
    assert !Exists(s.cloud, Repo) && !Exists(s.cloud, D1) && !Exists(s.cloud, Worker);
    AcquiredNow(s, Repo);
    AcquiredNow(Acquired(s, Repo).0, D1);
    var s2 := AcquiredStore(s).0;
    assert s2.mem == s2.disk == Disk([Repo, D1], Some(s.cloud.nextId))
      && s2.cloud == Cloud(true, Some(s.cloud.nextId), false, s.cloud.nextId + 1);
    if p.workers {
      AcquiredNow(s2, Worker);
      assert Provisioned(s, p).0.mem.resources == [Repo, D1, Worker];
    }
  }

  /** Exit code 0 means that nothing is recorded and nothing exists, however the session was started. */
  lemma {:induction false} ExitZeroIsClean(w: PWorld, p: Plan, calls: seq<Fate>)
    requires Safe(w) && ExitCode(Session(w, p, calls).status) == 0
    ensures var s := Session(w, p, calls).state; s.disk.resources == [] && forall k: Kind :: !Exists(s.cloud, k)
  {
    var s := Fresh(w, calls);
    if !p.cleanupOnly {
      ProvisionedSettles(s, p);
    }
    SettledCleanup(Attempted(s, p).state);
  }

  // -------------------------------------------------------------- histories

  predicate Careful(w: PWorld, p: Plan, calls: seq<Fate>) {
    Unspoiled(w, p)
  }

  /**
   * No leak in any history: any number of runs, each started in any way, with any fates for its calls,
   * and crashing anywhere.
   */
  lemma {:induction false} NeverLeaks(w: PWorld, runs: seq<Run<Plan>>)
    requires Safe(w) && Allowed(Worlds, Careful, w, runs)
    ensures HistorySafe(Worlds, Safe, w, runs)
    ensures Safe(WorldAfter(Worlds, w, runs))
  {
    forall v: PWorld, p: Plan, calls: seq<Fate> | Safe(v) && Careful(v, p, calls)
      ensures AllSafe(Worlds(v, p, calls), Safe)
    {
      SessionSafe(v, p, calls);
    }
    HistoryInduction(Worlds, Careful, Safe, w, runs);
  }

  const NOTHING := World(Disk([], None), Cloud(false, None, false, 0))

  lemma {:induction false} CleanupsAllowed(w: PWorld, runs: seq<Run<Plan>>)
    requires forall i :: 0 <= i < |runs| ==> runs[i].plan.cleanupOnly
    ensures Allowed(Worlds, Careful, w, runs)
    decreases |runs|
  {
    if runs != [] {
      CleanupsAllowed(Left(w, Worlds(w, runs[0].plan, runs[0].calls), runs[0].cut), runs[1..]);
    }
  }

  /** As the script is meant to be used: a fresh directory for a run, then as many cleanups as it takes. */
  lemma {:induction false} FreshDirectoryNeverLeaks(runs: seq<Run<Plan>>)
    requires forall i :: 1 <= i < |runs| ==> runs[i].plan.cleanupOnly
    ensures HistorySafe(Worlds, Safe, NOTHING, runs)
  {
    if runs != [] {
      CleanupsAllowed(Left(NOTHING, Worlds(NOTHING, runs[0].plan, runs[0].calls), runs[0].cut), runs[1..]);
      assert Unspoiled(NOTHING, runs[0].plan);
    }
    NeverLeaks(NOTHING, runs);
  }

  // ------------------------------------------------------- the stale database

  lemma {:induction false} ReachedExtends(s: PState, c: Cloud)
    ensures s.trace <= Reached(s, c).trace
  {
  }

  lemma {:induction false} DeletedKindExtends(s: PState, k: Kind)
    ensures s.trace <= DeletedKind(s, k).0.trace
  {
    var listed := Reached(s, s.cloud);
    ReachedExtends(s, s.cloud);
    ReachedExtends(s, Removed(s.cloud, k));
    ReachedExtends(listed, s.cloud);
    ReachedExtends(listed, Removed(s.cloud, k));
  }

  lemma {:induction false} CleanedKindExtends(s: PState, k: Kind)
    ensures s.trace <= CleanedKind(s, k).0.trace
  {
    DeletedKindExtends(s, k);
    var (s', reply) := DeletedKind(s, k);
    assert s'.trace <= Forgotten(s', k).trace;
  }

  lemma {:induction false} CleanedAllExtends(s: PState, todo: seq<Kind>)
    ensures s.trace <= CleanedAll(s, todo).0.trace
    decreases |todo|
  {
    if todo != [] {
      CleanedKindExtends(s, todo[0]);
      var s' := CleanedKind(s, todo[0]).0;
      CleanedAllExtends(s', todo[1..]);
    }
  }

  const LOST_DATABASE: seq<Fate> := [Answered, LostAfter, Answered]

  /** Provisioning when the reply to the database's creation is lost. */
  lemma {:induction false} LostDatabase(w: PWorld, p: Plan) returns (s: PState)
    requires Safe(w) && Provisions(w.disk, p)
    ensures s == Attempted(Fresh(w, LOST_DATABASE), p).state
    ensures s.mem == s.disk == Disk([Repo, D1], w.disk.database)
    ensures s.cloud.d1 == Some(w.cloud.nextId) && s.calls == [Answered]
  {
    assert !Exists(w.cloud, Repo) && !Exists(w.cloud, D1);
    var s1 := Acquired(Fresh(w, LOST_DATABASE), Repo).0;
    assert s1.mem.resources == [Repo] && s1.calls == [LostAfter, Answered];
    s := Acquired(s1, D1).0;
  }

  /** A delete by the old id is answered with a 404, and the database that exists is forgotten. */
  lemma {:induction false} StaleDelete(s: PState) returns (i: nat)
    requires s.mem == s.disk && s.mem.resources == [Repo, D1] && s.calls == [Answered]
    requires s.mem.database.Some? && s.cloud.d1.Some? && s.cloud.d1 != s.mem.database
    ensures var t := CleanedKind(s, D1).0.trace; i < |t| && !NoLeak(t[i])
  {
    var s' := CleanedKind(s, D1).0;
    assert s'.mem.resources == [Repo] by {
      assert Without([Repo, D1], D1) == [Repo] + Without([D1], D1);
    }
    i := |s'.trace| - 1;
    assert Exists(s'.trace[i].cloud, D1) && D1 !in s'.trace[i].disk.resources;
  }

  /**
   * The reply to the database's creation is lost; cleanup deletes the old id, gets a 404, and forgets the
   * new database.
   */
  lemma {:induction false} StaleDatabaseLeaks(w: PWorld, p: Plan)
    requires Safe(w) && Provisions(w.disk, p) && w.disk.database.Some?
    ensures !AllSafe(Worlds(w, p, LOST_DATABASE), NoLeak)
  {
    var s := LostDatabase(w, p);
    var todo := Reversed(s.mem.resources);
    assert todo == [D1, Repo];
    var i := StaleDelete(s);
    CleanedAllExtends(CleanedKind(s, D1).0, todo[1..]);
    assert CleanedAll(s, todo).0 == CleanedAll(CleanedKind(s, D1).0, todo[1..]).0;
    assert !NoLeak(Worlds(w, p, LOST_DATABASE)[i]);
  }

  /** Exactly the starts that do not provision over an old database id are safe whatever befalls their calls. */
  lemma {:induction false} SafeExactlyUnspoiled(w: PWorld, p: Plan)
    requires Safe(w)
    ensures (forall calls: seq<Fate> :: AllSafe(Worlds(w, p, calls), NoLeak)) <==> Unspoiled(w, p)
  {
    if Unspoiled(w, p) {
      forall calls: seq<Fate> ensures AllSafe(Worlds(w, p, calls), NoLeak) {
        SessionSafe(w, p, calls);
        forall i | 0 <= i < |Worlds(w, p, calls)| ensures NoLeak(Worlds(w, p, calls)[i]) {
          assert Safe(Worlds(w, p, calls)[i]);
        }
      }
    } else {
      StaleDatabaseLeaks(w, p);
    }
  }

  /** The two plans are started alike: the command line and the fixture directory, which can be checked. */
  predicate StartedAlike(p: Plan, q: Plan) {
    p.cleanupOnly == q.cleanupOnly && p.fixtureExists == q.fixtureExists
  }

  /** Before the start, from the state file, the command line and the directory: no old id can be in the way. */
  predicate Harmless(d: Disk, p: Plan) {
    p.cleanupOnly || d.resources != [] || p.fixtureExists || d.database.None?
  }

  /**
   * By what can be checked before the start, exactly the harmless starts are safe: in every world that fits the
   * state file, however building and the rest turn out, and whatever befalls the calls.
   */
  lemma {:induction false} SafeExactlyHarmless(d: Disk, p: Plan)
    ensures (forall c: Cloud, q: Plan, calls: seq<Fate> :: Safe(World(d, c)) && StartedAlike(p, q) ==>
              AllSafe(Worlds(World(d, c), q, calls), NoLeak)) <==> Harmless(d, p)
  {
    if Harmless(d, p) {
      forall c: Cloud, q: Plan, calls: seq<Fate> | Safe(World(d, c)) && StartedAlike(p, q)
        ensures AllSafe(Worlds(World(d, c), q, calls), NoLeak)
      {
        SafeExactlyUnspoiled(World(d, c), q);
      }
    } else {
      var w := World(d, Cloud(false, None, false, d.database.value + 1));
      var q := p.(built := true);
      assert Safe(w) && StartedAlike(p, q);
      StaleDatabaseLeaks(w, q);
    }
  }

  // ------------------------------------------------------------- convergence

  lemma {:induction false} AnsweredOnce(calls: seq<Fate>)
    requires AllAnswered(calls) && |calls| >= 1
    ensures NextFate(calls) == Answered && AllAnswered(LaterFates(calls)) && |LaterFates(calls)| == |calls| - 1
  {
    forall i | 0 <= i < |calls| - 1 ensures calls[1..][i] == Answered { }
  }

  lemma {:induction false} AnsweredKind(s: PState, k: Kind)
    requires AllAnswered(s.calls) && |s.calls| >= 2
    ensures var (s', n) := CleanedKind(s, k); n == 0 && AllAnswered(s'.calls) && |s'.calls| >= |s.calls| - 2
  {
    AnsweredOnce(s.calls);
    AnsweredOnce(LaterFates(s.calls));
    var (s', reply) := DeletedKind(s, k);
    assert reply != Failed && (s'.calls == LaterFates(s.calls) || s'.calls == LaterFates(LaterFates(s.calls)));
  }

  lemma {:induction false} AnsweredPass(s: PState, todo: seq<Kind>)
    requires AllAnswered(s.calls) && |s.calls| >= 2 * |todo|
    ensures CleanedAll(s, todo).1 == 0
    decreases |todo|
  {
    if todo != [] {
      AnsweredKind(s, todo[0]);
      AnsweredPass(CleanedKind(s, todo[0]).0, todo[1..]);
    }
  }

  /** One cleanup whose calls are all answered empties any safe state, and exits with 0. */
  lemma {:induction false} AnsweredCleanupEmpties(w: PWorld, p: Plan, calls: seq<Fate>)
    requires Safe(w) && p.cleanupOnly && AllAnswered(calls) && |calls| >= 2 * |w.disk.resources|
    ensures var o := Session(w, p, calls);
            && ExitCode(o.status) == 0
            && o.state.disk.resources == []
            && forall k: Kind :: !Exists(o.state.cloud, k)
  {
    var s := Fresh(w, calls);
    assert Good(s, Safe);
    AnsweredPass(s, Reversed(s.mem.resources));
    ExitZeroIsClean(w, p, calls);
  }

  /** A further cleanup makes no call and changes nothing. */
  lemma {:induction false} SecondPassIsIdle(w: PWorld, p: Plan, calls: seq<Fate>)
    requires p.cleanupOnly && w.disk.resources == []
    ensures Session(w, p, calls) == Outcome(Fresh(w, calls), StatusCleaned)
  {
    assert Reversed(w.disk.resources) == [];
  }
}
