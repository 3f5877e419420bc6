/** What exit code 0 of a publication session says, in both directions. */
module PublicationExit {
  import opened Custody
  import opened Publication

  // ----------------------------------------------------------------- cleanup

  /** Between two actions memory and disk agree. */
  predicate Settled(s: PState) {
    s.mem == s.disk
  }

  lemma {:induction false} KindCounts(s: PState, k: Kind)
    requires Settled(s)
    ensures var (s', n) := CleanedKind(s, k);
            && Settled(s') && n <= 1
            && multiset(s'.mem.resources) == multiset(s.mem.resources) - if n == 0 then multiset{k} else multiset{}
  {
    var (s', reply) := DeletedKind(s, k);
    assert s'.mem == s.mem && s'.disk == s.disk;
  }

  lemma {:induction false} PassCounts(s: PState, todo: seq<Kind>)
    requires Settled(s) && multiset(todo) <= multiset(s.mem.resources)
    ensures var (s', n) := CleanedAll(s, todo);
            Settled(s') && |s'.mem.resources| + |todo| == |s.mem.resources| + n
    decreases |todo|
  {
    if todo != [] {
      KindCounts(s, todo[0]);
      var (s', n) := CleanedKind(s, todo[0]);
      DoneOne(s.mem.resources, todo, s'.mem.resources, n == 0);
      PassCounts(s', todo[1..]);
    }
  }

  /** A pass counts no failure if and only if it leaves nothing recorded. */
  lemma {:induction false} CleanedExactly(s: PState)
    requires Settled(s)
    ensures var (s', n) := Cleaned(s); n == 0 <==> s'.disk.resources == []
  {
    PassCounts(s, Reversed(s.mem.resources));
  }

  // ------------------------------------------------------------- provisioning

  /** The `i`-th call of the session is answered. */
  predicate AnsweredAt(calls: seq<Fate>, i: nat) {
    i < |calls| && calls[i] == Answered
  }

  /** Repository and database are created under free names, and the Worker is uploaded and deployed if asked for. */
  predicate MakesAll(w: World<Disk, Cloud>, p: Plan, calls: seq<Fate>) {
    && !w.cloud.repo && AnsweredAt(calls, 0)
    && w.cloud.d1.None? && AnsweredAt(calls, 1)
    && (p.workers ==> AnsweredAt(calls, 2) && p.deployed)
  }

  lemma {:induction false} AcquiredExactly(s: PState, k: Kind)
    requires Settled(s)
    ensures var (s', ok) := Acquired(s, k);
            && (ok <==> (k == Worker || !Exists(s.cloud, k)) && AnsweredAt(s.calls, 0))
            && Settled(s') && s'.calls == LaterFates(s.calls)
            && forall j: Kind :: j != k ==> (Exists(s'.cloud, j) <==> Exists(s.cloud, j))
  {
  }

  lemma {:induction false} ProvisionedExactly(w: World<Disk, Cloud>, p: Plan, calls: seq<Fate>)
    ensures var (s, ok) := Provisioned(Fresh(w, calls), p); Settled(s) && (ok <==> MakesAll(w, p, calls))
  {
    var s0 := Fresh(w, calls);
    AcquiredExactly(s0, Repo);
    var (s1, ok1) := Acquired(s0, Repo);
    AcquiredExactly(s1, D1);
    var (s2, ok2) := Acquired(s1, D1);
    AcquiredExactly(Remembered(s2), Worker);
    assert Exists(s1.cloud, D1) <==> Exists(w.cloud, D1);
    assert ok1 ==> (AnsweredAt(s1.calls, 0) <==> AnsweredAt(calls, 1));
    assert ok1 && ok2 ==> (AnsweredAt(s2.calls, 0) <==> AnsweredAt(calls, 2));
  }

  // --------------------------------------------------------------- exit code

  /** The qualification: from an empty record and without a fixture, everything was made and the pilot passed. */
  predicate Qualifies(w: World<Disk, Cloud>, p: Plan, calls: seq<Fate>) {
    w.disk.resources == [] && !p.fixtureExists && p.built && MakesAll(w, p, calls) && p.pilot == Passed
  }

  /**
   * The status reported, and exit code 0: nothing stays recorded, and the session only cleaned up or qualified.
   */
  lemma {:induction false} ExitExactly(w: World<Disk, Cloud>, p: Plan, calls: seq<Fate>)
    ensures var o := Session(w, p, calls);
            var clean := o.state.disk.resources == [];
            && (o.status == StatusCleanupFailed <==> !clean)
            && (o.status == StatusCleaned <==> clean && p.cleanupOnly)
            && (o.status == StatusPassed <==> clean && !p.cleanupOnly && Qualifies(w, p, calls))
            && (ExitCode(o.status) == 0 <==> clean && (p.cleanupOnly || Qualifies(w, p, calls)))
  {
    var s := Fresh(w, calls);
    ProvisionedExactly(w, p, calls);
    CleanedExactly(Attempted(s, p).state);
  }
}
