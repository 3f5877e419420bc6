/** What exit code 0 of an Artifacts session says, in both directions. */
module ArtifactsExit {
  import opened Assoc
  import opened Custody
  import opened Artifacts
  import opened ArtifactsSafety

  // ----------------------------------------------------------------- cleanup

  predicate Settled(s: AState) {
    s.mem == s.disk
  }

  lemma {:induction false} ItemCounts(s: AState, k: Item)
    requires Settled(s)
    ensures var (s', reply) := CleanedItem(s, k);
            var gone := reply == Success || reply == NotFound;
            && Settled(s')
            && multiset(s'.mem.created) == multiset(s.mem.created) - if gone then multiset{k} else multiset{}
  {
  }

  /** A pass ends without failures if and only if it leaves nothing of its list recorded. */
  lemma {:induction false} PassCounts(s: AState, todo: seq<Item>)
    requires Settled(s) && multiset(todo) <= multiset(s.mem.created)
    ensures var (s', c) := CleanedAll(s, todo);
            && Settled(s')
            && |s'.mem.created| + |todo| >= |s.mem.created|
            && (c == Failures(0) <==> |s'.mem.created| + |todo| == |s.mem.created|)
    decreases |todo|
  {
    if todo != [] {
      ItemCounts(s, todo[0]);
      var (s', reply) := CleanedItem(s, todo[0]);
      DoneOne(s.mem.created, todo, s'.mem.created, reply == Success || reply == NotFound);
      PassCounts(s', todo[1..]);
    }
  }

  lemma {:induction false} CleanedExactly(s: AState)
    requires Settled(s)
    ensures var (s', c) := Cleaned(s); c == Failures(0) <==> s'.disk.created == []
  {
    PassCounts(s, Reversed(s.mem.created));
  }

  // ------------------------------------------------------------ qualification

  predicate AnsweredAt(calls: seq<Fate>, i: nat) {
    i < |calls| && calls[i] == Answered
  }

  /** Repository, Worker and fork are created, the first and the last under free names. */
  predicate MakesAll(w: World<Disk, Cloud>, calls: seq<Fate>) {
    w.cloud.repo.None? && w.cloud.fork.None? && forall i :: 0 <= i < 3 ==> AnsweredAt(calls, i)
  }

  /** One of the twenty calls from the fifth on is answered, and those before it are turned down. */
  predicate AnsweredInTime(calls: seq<Fate>) {
    exists n :: 4 <= n < 24 && AnsweredAt(calls, n) && forall m :: 4 <= m < n ==> calls[m] in {TurnedDown, Misrouted}
  }

  lemma {:induction false} AcquiredExactly(s: AState, k: Item)
    requires Settled(s)
    ensures var (s', ok) := Acquired(s, k);
            && Settled(s') && s'.calls == LaterFates(s.calls)
            && (ok <==> !Refused(s.cloud, k) && AnsweredAt(s.calls, 0))
            && (ok ==> s'.cloud == Added(s.cloud, k) && s'.mem.repoId == s.mem.repoId)
  {
  }

  lemma {:induction false} PreparedExactly(w: World<Disk, Cloud>, p: Plan, calls: seq<Fate>)
    ensures var (s, ok) := Prepared(Fresh(w, calls), p);
            && Settled(s)
            && (ok <==> MakesAll(w, calls) && p.prepared && p.served && p.exported)
            && (ok ==> s.calls == calls[3..] && s.cloud.repo == s.mem.repoId == Some(w.cloud.nextId)
                       && w.cloud.nextId < s.cloud.nextId)
  {
    var s0 := Fresh(w, calls);
    AcquiredExactly(s0, Repo);
    var (s1, ok1) := RepoReady(s0, p);
    assert ok1 <==> w.cloud.repo.None? && AnsweredAt(calls, 0) && p.prepared;
    if ok1 {
      AcquiredExactly(s1, Worker);
      var (s2, ok2) := WorkerReady(s1, p);
      assert ok2 <==> AnsweredAt(calls, 1) && p.served;
      if ok2 {
        AcquiredExactly(s2, Fork);
        assert s2.calls == calls[2..];
        assert ForkReady(s2, p).1 <==> w.cloud.fork.None? && AnsweredAt(calls, 2) && p.exported;
      }
    }
  }

  lemma {:induction false} InTime(calls: seq<Fate>)
    requires |calls| >= 4
    ensures AnsweredWithin(calls[4..], ATTEMPTS) <==> AnsweredInTime(calls)
  {
    var rest := calls[4..];
    if i :| 0 <= i < ATTEMPTS && i < |rest| && rest[i] == Answered && forall j :: 0 <= j < i ==> Rejects(rest[j]) {
      forall m | 4 <= m < 4 + i ensures calls[m] in {TurnedDown, Misrouted} {
        assert rest[m - 4] == calls[m];
      }
      assert AnsweredAt(calls, 4 + i);
    }
    if n :| 4 <= n < 24 && AnsweredAt(calls, n) && forall m :: 4 <= m < n ==> calls[m] in {TurnedDown, Misrouted} {
      assert rest[n - 4] == Answered;
      assert forall j :: 0 <= j < n - 4 ==> rest[j] == calls[j + 4];
    }
  }

  lemma {:induction false} RecreatedSettles(s: AState, attempts: nat)
    ensures var s' := Recreated(s, attempts).0; s'.mem == s.mem && s'.disk == s.disk
    decreases attempts
  {
    if attempts > 0 {
      RecreatedSettles(Created(s, Repo).0, attempts - 1);
    }
  }

  /** Replacing comes down to its calls: the new identity is another. */
  lemma {:induction false} ReplacedExactly(s: AState, calls: seq<Fate>)
    requires Settled(s) && |calls| >= 3 && s.calls == calls[3..]
    requires s.cloud.repo.Some? && s.cloud.repo == s.mem.repoId && s.cloud.repo.value < s.cloud.nextId
    ensures var (s', ok) := Replaced(s); Settled(s') && (ok <==> AnsweredAt(calls, 3) && AnsweredInTime(calls))
  {
    var (s1, reply) := Deleted(s, Repo);
    assert reply == Success <==> AnsweredAt(calls, 3);
    RecreatedSettles(s1, ATTEMPTS);
    if reply == Success {
      assert s1.calls == calls[4..];
      RecreatedExactly(s1, ATTEMPTS);
      InTime(calls);
    }
  }

  // --------------------------------------------------------------- exit code

  /** The qualification: from an empty record, everything was made, checked, replaced and fenced off. */
  predicate Qualifies(w: World<Disk, Cloud>, p: Plan, calls: seq<Fate>) {
    && w.disk.created == [] && MakesAll(w, calls) && p.prepared && p.served && p.exported
    && AnsweredAt(calls, 3) && AnsweredInTime(calls) && p.fenced
  }

  lemma {:induction false} QualifiedExactly(w: World<Disk, Cloud>, p: Plan, calls: seq<Fate>)
    requires w.disk.created == []
    ensures var (s, ok) := Qualified(Fresh(w, calls), p); Settled(s) && (ok <==> Qualifies(w, p, calls))
  {
    PreparedExactly(w, p, calls);
    var (s, ok) := Prepared(Fresh(w, calls), p);
    if ok {
      assert AnsweredAt(calls, 2);
      ReplacedExactly(s, calls);
    }
  }

  /** Exit code 0: nothing stays recorded, and the session only cleaned up or qualified. */
  lemma {:induction false} ExitExactly(w: World<Disk, Cloud>, p: Plan, calls: seq<Fate>)
    ensures var o := Session(w, p, calls);
            o.exit == 0 <==> o.state.disk.created == [] && (p.cleanupOnly || Qualifies(w, p, calls))
  {
    var s := Fresh(w, calls);
    if p.cleanupOnly {
      CleanedExactly(s);
    } else if w.disk.created == [] {
      QualifiedExactly(w, p, calls);
      CleanedExactly(Qualified(s, p).0);
    }
  }
}
