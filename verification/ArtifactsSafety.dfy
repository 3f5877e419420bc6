/** No Artifacts run leaks, however it is started; what its exit code means; and what recreation does. */
module ArtifactsSafety {
  import opened Assoc
  import opened Custody
  import opened Artifacts

  type AWorld = World<Disk, Cloud>

  /** Whatever exists under the owned names is recorded. */
  ghost predicate NoLeak(w: AWorld) {
    forall k: Item :: Exists(w.cloud, k) ==> k in w.disk.created
  }

  lemma {:induction false} IntendedSafe(s: AState, k: Item)
    requires Good(s, NoLeak)
    ensures Good(Intended(s, k), NoLeak)
  {
    GoodIsSafe(s, NoLeak);
    WroteGood(s, s.mem.(created := s.mem.created + [k]), NoLeak);
  }

  lemma {:induction false} CreatedSafe(s: AState, k: Item)
    requires Good(s, NoLeak) && k in s.disk.created
    ensures var s' := Created(s, k).0; Good(s', NoLeak) && s'.mem == s.mem
  {
    GoodIsSafe(s, NoLeak);
    var c := Created(s, k).0.cloud;
    forall j: Item | Exists(c, j) ensures j in s.disk.created {
      assert j == k || Exists(s.cloud, j);
    }
    ReachedGood(s, c, NoLeak);
  }

  /** A delete that succeeds, and a 404, mean that the object is gone. */
  lemma {:induction false} DeletedSafe(s: AState, k: Item)
    requires Good(s, NoLeak)
    ensures var (s', reply) := Deleted(s, k);
            && Good(s', NoLeak) && s'.mem == s.mem
            && (reply == Success || reply == NotFound ==> !Exists(s'.cloud, k))
  {
    GoodIsSafe(s, NoLeak);
    var c := Deleted(s, k).0.cloud;
    forall j: Item | Exists(c, j) ensures j in s.disk.created {
      assert Exists(s.cloud, j);
    }
    ReachedGood(s, c, NoLeak);
  }

  lemma {:induction false} ForgottenSafe(s: AState, k: Item)
    requires Good(s, NoLeak) && !Exists(s.cloud, k)
    ensures Good(Forgotten(s, k), NoLeak)
  {
    GoodIsSafe(s, NoLeak);
    var rest := Without(s.mem.created, k);
    forall j: Item | Exists(s.cloud, j) ensures j in rest {
      assert j != k && j in multiset(s.mem.created);
      assert j in multiset(rest);
    }
    WroteGood(s, s.mem.(created := rest), NoLeak);
  }

  lemma {:induction false} AcquiredSafe(s: AState, k: Item)
    requires Good(s, NoLeak)
    ensures var s' := Acquired(s, k).0; Good(s', NoLeak) && s'.mem == s.mem.(created := s.mem.created + [k])
  {
    IntendedSafe(s, k);
    CreatedSafe(Intended(s, k), k);
  }

  lemma {:induction false} RecreatedSafe(s: AState, attempts: nat)
    requires Good(s, NoLeak) && Repo in s.disk.created
    ensures var s' := Recreated(s, attempts).0; Good(s', NoLeak) && s'.mem == s.mem
    decreases attempts
  {
    if attempts > 0 {
      CreatedSafe(s, Repo);
      RecreatedSafe(Created(s, Repo).0, attempts - 1);
    }
  }

  /** The record of the repository outlives its deletion, and so covers its successor. */
  lemma {:induction false} ReplacedSafe(s: AState)
    requires Good(s, NoLeak) && Repo in s.disk.created
    ensures Good(Replaced(s).0, NoLeak)
  {
    DeletedSafe(s, Repo);
    RecreatedSafe(Deleted(s, Repo).0, ATTEMPTS);
  }

  lemma {:induction false} RepoReadySafe(s: AState, p: Plan)
    requires Good(s, NoLeak)
    ensures var s' := RepoReady(s, p).0; Good(s', NoLeak) && Repo in s'.mem.created
  {
    AcquiredSafe(s, Repo);
    var s1 := Acquired(s, Repo).0;
    GoodIsSafe(s1, NoLeak);
    forall k: Item | Exists(s1.cloud, k) ensures k in s1.disk.created { }
    WroteGood(s1, s1.mem.(repoId := s1.cloud.repo), NoLeak);
  }

  lemma {:induction false} PreparedSafe(s: AState, p: Plan)
    requires Good(s, NoLeak)
    ensures var s' := Prepared(s, p).0; Good(s', NoLeak) && Repo in s'.mem.created
  {
    RepoReadySafe(s, p);
    var (s1, ok1) := RepoReady(s, p);
    if ok1 {
      AcquiredSafe(s1, Worker);
      var (s2, ok2) := WorkerReady(s1, p);
      if ok2 {
        AcquiredSafe(s2, Fork);
      }
    }
  }

  lemma {:induction false} QualifiedSafe(s: AState, p: Plan)
    requires Good(s, NoLeak)
    ensures Good(Qualified(s, p).0, NoLeak)
  {
    PreparedSafe(s, p);
    if Prepared(s, p).1 {
      ReplacedSafe(Prepared(s, p).0);
    }
  }

  // ----------------------------------------------------------------- cleanup

  lemma {:induction false} CleanedItemMeans(s: AState, k: Item)
    requires Good(s, NoLeak)
    ensures var (s', reply) := CleanedItem(s, k);
            && Good(s', NoLeak)
            && multiset(s'.mem.created)
               == multiset(s.mem.created) - if reply == Success || reply == NotFound then multiset{k} else multiset{}
  {
    DeletedSafe(s, k);
    var (s', reply) := Deleted(s, k);
    if reply == Success || reply == NotFound {
      ForgottenSafe(s', k);
    }
  }

  /** What a pass over `todo` keeps, and how what it leaves recorded relates to the failures it reports. */
  ghost predicate PassMeans(s: AState, todo: seq<Item>, s': AState, c: Cleanup) {
    && Good(s', NoLeak)
    && (multiset(todo) <= multiset(s.mem.created) && c.Failures? ==>
          |s'.mem.created| + |todo| == |s.mem.created| + c.n)
  }

  lemma {:induction false} CleanedAllMeans(s: AState, todo: seq<Item>)
    requires Good(s, NoLeak)
    ensures var (s', c) := CleanedAll(s, todo); PassMeans(s, todo, s', c)
    decreases |todo|
  {
    if todo != [] {
      var k := todo[0];
      CleanedItemMeans(s, k);
      var (s', reply) := CleanedItem(s, k);
      if reply != Lost {
        CleanedAllMeans(s', todo[1..]);
        if multiset(todo) <= multiset(s.mem.created) {
          DoneOne(s.mem.created, todo, s'.mem.created, reply == Success || reply == NotFound);
        }
      }
    }
  }

  /** A pass that ends leaves recorded exactly as many resources as it reports failures. */
  lemma {:induction false} CleanedMeans(s: AState)
    requires Good(s, NoLeak)
    ensures var (s', c) := Cleaned(s); Good(s', NoLeak) && (c.Failures? ==> |s'.mem.created| == c.n)
  {
    CleanedAllMeans(s, Reversed(s.mem.created));
  }

  ghost predicate LostWithin(calls: seq<Fate>, n: nat) {
    n > |calls| || exists i :: 0 <= i < n && Raised(calls[i]) == Lost
  }

  lemma {:induction false} LostFirst(calls: seq<Fate>, n: nat)
    requires n > 0
    ensures LostWithin(calls, n)
            <==> NextFate(calls) == LostBefore || NextFate(calls) == LostAfter || LostWithin(LaterFates(calls), n - 1)
  {
    if calls != [] && n <= |calls| {
      forall i | 0 < i < n ensures calls[i] == calls[1..][i - 1] { }
      if LostWithin(calls[1..], n - 1) {
        var j :| 0 <= j < n - 1 && Raised(calls[1..][j]) == Lost;
        assert Raised(calls[j + 1]) == Lost;
      }
    }
  }

  lemma {:induction false} CleanedItemCalls(s: AState, k: Item)
    ensures var (s', reply) := CleanedItem(s, k);
            && s'.calls == LaterFates(s.calls)
            && (reply == Lost <==> NextFate(s.calls) == LostBefore || NextFate(s.calls) == LostAfter)
  {
  }

  /** A delete that is turned down does not stop a pass; exactly a lost call does. */
  lemma {:induction false} AbortsExactly(s: AState, todo: seq<Item>)
    ensures CleanedAll(s, todo).1.Aborted? <==> LostWithin(s.calls, |todo|)
    decreases |todo|
  {
    if todo != [] {
      LostFirst(s.calls, |todo|);
      CleanedItemCalls(s, todo[0]);
      AbortsExactly(CleanedItem(s, todo[0]).0, todo[1..]);
    }
  }

  // ------------------------------------------------------------ one session

  function Worlds(w: AWorld, p: Plan, calls: seq<Fate>): seq<AWorld> {
    Session(w, p, calls).state.trace
  }

  lemma {:induction false} SessionSafe(w: AWorld, p: Plan, calls: seq<Fate>)
    requires NoLeak(w)
    ensures Good(Session(w, p, calls).state, NoLeak)
    ensures AllSafe(Worlds(w, p, calls), NoLeak)
    ensures var o := Session(w, p, calls); o.exit == 0 ==> o.state.mem.created == []
  {
    var s := Fresh(w, calls);
    assert Good(s, NoLeak);
    if p.cleanupOnly {
      CleanedMeans(s);
    } else if s.mem.created == [] {
      QualifiedSafe(s, p);
      CleanedMeans(Qualified(s, p).0);
    }
  }

  /** Exit code 0 means that nothing is recorded and nothing exists. */
  lemma {:induction false} ExitZeroIsClean(w: AWorld, p: Plan, calls: seq<Fate>)
    requires NoLeak(w) && Session(w, p, calls).exit == 0
    ensures var s := Session(w, p, calls).state; s.disk.created == [] && forall k: Item :: !Exists(s.cloud, k)
  {
    SessionSafe(w, p, calls);
    GoodIsSafe(Session(w, p, calls).state, NoLeak);
  }

  predicate Anyhow(w: AWorld, p: Plan, calls: seq<Fate>) {
    true
  }

  lemma {:induction false} AnyhowAllowed(w: AWorld, runs: seq<Run<Plan>>)
    ensures Allowed(Worlds, Anyhow, w, runs)
    decreases |runs|
  {
    if runs != [] {
      AnyhowAllowed(Left(w, Worlds(w, runs[0].plan, runs[0].calls), runs[0].cut), runs[1..]);
    }
  }

  /** No leak in any history of runs, however each is started, whatever befalls its calls, wherever it crashes. */
  lemma {:induction false} NeverLeaks(w: AWorld, runs: seq<Run<Plan>>)
    requires NoLeak(w)
    ensures HistorySafe(Worlds, NoLeak, w, runs)
    ensures NoLeak(WorldAfter(Worlds, w, runs))
  {
    forall v: AWorld, p: Plan, calls: seq<Fate> | NoLeak(v) && Anyhow(v, p, calls)
      ensures AllSafe(Worlds(v, p, calls), NoLeak)
    {
      SessionSafe(v, p, calls);
    }
    AnyhowAllowed(w, runs);
    HistoryInduction(Worlds, Anyhow, NoLeak, w, runs);
  }

  // ------------------------------------------------------------- convergence

  lemma {:induction false} AnsweredPass(s: AState, todo: seq<Item>)
    requires AllAnswered(s.calls) && |s.calls| >= |todo|
    ensures CleanedAll(s, todo).1 == Failures(0)
    decreases |todo|
  {
    if todo != [] {
      var (s', reply) := CleanedItem(s, todo[0]);
      assert s.calls[0] == Answered && s'.calls == s.calls[1..];
      assert AllAnswered(s'.calls);
      AnsweredPass(s', todo[1..]);
    }
  }

  /** One cleanup whose calls are all answered empties any world without a leak, and exits with 0. */
  lemma {:induction false} AnsweredCleanupEmpties(w: AWorld, p: Plan, calls: seq<Fate>)
    requires NoLeak(w) && p.cleanupOnly && AllAnswered(calls) && |calls| >= |w.disk.created|
    ensures var o := Session(w, p, calls);
            o.exit == 0 && o.state.disk.created == [] && forall k: Item :: !Exists(o.state.cloud, k)
  {
    var s := Fresh(w, calls);
    AnsweredPass(s, Reversed(s.mem.created));
    ExitZeroIsClean(w, p, calls);
  }

  /** A further cleanup makes no call and changes nothing. */
  lemma {:induction false} SecondPassIsIdle(w: AWorld, p: Plan, calls: seq<Fate>)
    requires p.cleanupOnly && w.disk.created == []
    ensures Session(w, p, calls) == Outcome(Fresh(w, calls), 0)
  {
    assert Reversed(w.disk.created) == [];
  }

  // -------------------------------------------------------------- recreation

  /** The first call that is not rejected is answered, and is among the first `n`. */
  ghost predicate AnsweredWithin(calls: seq<Fate>, n: nat) {
    exists i :: 0 <= i < n && i < |calls| && calls[i] == Answered && forall j :: 0 <= j < i ==> Rejects(calls[j])
  }

  lemma {:induction false} AnsweredLater(calls: seq<Fate>, n: nat)
    requires n > 0 && calls != [] && Rejects(calls[0])
    ensures AnsweredWithin(calls, n) <==> AnsweredWithin(calls[1..], n - 1)
  {
    if AnsweredWithin(calls, n) {
      var i :| 0 <= i < n && i < |calls| && calls[i] == Answered && forall j :: 0 <= j < i ==> Rejects(calls[j]);
      assert calls[1..][i - 1] == Answered;
      forall j | 0 <= j < i - 1 ensures Rejects(calls[1..][j]) { assert calls[1..][j] == calls[j + 1]; }
    }
    if AnsweredWithin(calls[1..], n - 1) {
      var i :| 0 <= i < n - 1 && i < |calls[1..]| && calls[1..][i] == Answered
        && forall j :: 0 <= j < i ==> Rejects(calls[1..][j]);
      assert calls[i + 1] == Answered;
      forall j | 0 <= j < i + 1 ensures Rejects(calls[j]) { assert j > 0 ==> calls[j] == calls[1..][j - 1]; }
    }
  }

  /** Once the name is taken, no attempt succeeds any more. */
  lemma {:induction false} TakenStaysTaken(s: AState, attempts: nat)
    requires s.cloud.repo.Some?
    ensures !Recreated(s, attempts).1
    decreases attempts
  {
    if attempts > 0 {
      TakenStaysTaken(Created(s, Repo).0, attempts - 1);
    }
  }

  /**
   * Recreation under a free name succeeds exactly if the first call that is not rejected is answered;
   * then exactly one repository was created, and it has a new identity.
   */
  lemma {:induction false} RecreatedExactly(s: AState, attempts: nat)
    requires s.cloud.repo.None?
    ensures var (s', ok) := Recreated(s, attempts);
            && (ok <==> AnsweredWithin(s.calls, attempts))
            && (ok ==> s'.cloud == Added(s.cloud, Repo))
    decreases attempts
  {
    if attempts > 0 {
      var f, s' := NextFate(s.calls), Created(s, Repo).0;
      if f == Answered {
        assert s.calls[0] == Answered;
      } else if Rejects(f) {
        AnsweredLater(s.calls, attempts);
        RecreatedExactly(s', attempts - 1);
      } else {
        if f == Garbled {
          TakenStaysTaken(s', attempts - 1);
        }
        assert forall i :: 0 <= i < |s.calls| && s.calls[i] == Answered ==> i > 0 && !Rejects(s.calls[0]);
      }
    }
  }

  lemma {:induction false} RecreatedMemory(s: AState, attempts: nat)
    ensures Recreated(s, attempts).0.mem == s.mem
    decreases attempts
  {
    if attempts > 0 {
      RecreatedMemory(Created(s, Repo).0, attempts - 1);
    }
  }

  lemma {:induction false} AcquiredIdentity(s: AState, k: Item)
    requires Acquired(s, k).1
    ensures var s' := Acquired(s, k).0; s'.cloud == Added(s.cloud, k) && s'.mem.repoId == s.mem.repoId
  {
  }

  /** When the repository comes to be replaced, the identity on record is its own, and was given out before. */
  lemma {:induction false} PreparedIdentity(s: AState, p: Plan)
    requires Prepared(s, p).1
    ensures var t := Prepared(s, p).0;
            t.mem.repoId == t.cloud.repo == Some(s.cloud.nextId) && s.cloud.nextId < t.cloud.nextId
  {
    AcquiredIdentity(s, Repo);
    var s1 := RepoReady(s, p).0;
    AcquiredIdentity(s1, Worker);
    AcquiredIdentity(WorkerReady(s1, p).0, Fork);
  }

  /**
   * In any session that comes to it, replacing succeeds exactly if the delete is answered and so is the first
   * creation that is not rejected: with identities that are never given out twice, the script's comparison of the
   * two identities never fails.
   */
  lemma {:induction false} SuccessorIsNew(s: AState, p: Plan)
    requires Prepared(s, p).1
    ensures var t := Prepared(s, p).0;
            Replaced(t).1 <==> NextFate(t.calls) == Answered && AnsweredWithin(LaterFates(t.calls), ATTEMPTS)
  {
    PreparedIdentity(s, p);
    var t := Prepared(s, p).0;
    var (s1, reply) := Deleted(t, Repo);
    if reply == Success {
      RecreatedExactly(s1, ATTEMPTS);
      RecreatedMemory(s1, ATTEMPTS);
    }
  }
}
