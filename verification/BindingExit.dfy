/** What exit code 0 of a binding session says, in both directions. */
module BindingExit {
  import opened Custody
  import opened Binding

  predicate AnsweredAt(calls: seq<Fate>, i: nat) {
    i < |calls| && calls[i] == Answered
  }

  /**
   * Of the six calls of a full session every one is answered: the Worker is uploaded, its subdomain set, it is ready,
   * and the repository, which does not exist before, is created and read.
   */
  predicate MakesAll(w: World<Disk, Cloud>, calls: seq<Fate>) {
    !w.cloud.repo && forall i :: 0 <= i < 6 ==> AnsweredAt(calls, i)
  }

  predicate Settled(s: BState) {
    s.mem == s.disk
  }

  lemma {:induction false} WorkerExactly(w: World<Disk, Cloud>, calls: seq<Fate>)
    ensures var (s, ok) := WorkerProvisioned(Fresh(w, calls));
            && Settled(s) && s.cloud.repo == w.cloud.repo
            && (ok <==> forall i :: 0 <= i < 4 ==> AnsweredAt(calls, i))
            && (ok ==> s.calls == calls[4..] && s.cloud.worker)
  {
    var s0 := Fresh(w, calls);
    var (s1, ok1) := Deployed(Wrote(s0, s0.mem.(worker := true)));
    var (s2, ok2) := Asked(s1);
    var (s3, ok3) := Asked(s2);
    var (s4, ok4) := Probed(Wrote(s3, s3.mem.(url := true)));
    assert ok1 <==> AnsweredAt(calls, 0);
    assert ok1 ==> s1.calls == calls[1..] && (ok2 <==> AnsweredAt(calls, 1));
    assert ok1 && ok2 ==> s2.calls == calls[2..] && (ok3 <==> AnsweredAt(calls, 2));
    assert ok1 && ok2 && ok3 ==> s3.calls == calls[3..] && (ok4 <==> AnsweredAt(calls, 3));
    assert ok1 && ok2 && ok3 && ok4 ==> s4.calls == calls[4..];
  }

  lemma {:induction false} RepoExactly(s: BState)
    requires Settled(s) && s.cloud.worker
    ensures var (s', ok) := RepoProvisioned(s);
            Settled(s') && (ok <==> !s.cloud.repo && AnsweredAt(s.calls, 0) && AnsweredAt(s.calls, 1))
  {
  }

  lemma {:induction false} ProvisionedExactly(w: World<Disk, Cloud>, p: Plan, calls: seq<Fate>)
    ensures var (s, ok) := Provisioned(Fresh(w, calls), p);
            Settled(s) && (ok <==> MakesAll(w, calls) && p.published)
  {
    WorkerExactly(w, calls);
    var (s, ok) := WorkerProvisioned(Fresh(w, calls));
    if ok {
      RepoExactly(s);
      assert AnsweredAt(s.calls, 0) <==> AnsweredAt(calls, 4);
      assert AnsweredAt(s.calls, 1) <==> AnsweredAt(calls, 5);
    }
  }

  /** A pass counts no failure if and only if it leaves nothing recorded. */
  lemma {:induction false} CleanedExactly(s: BState)
    requires Settled(s)
    ensures var (s', n) := Cleaned(s); Settled(s') && (n == 0 <==> !s'.disk.repo && !s'.disk.worker)
  {
  }

  /** The qualification: from a file without intents, everything was made, and the publication passed. */
  predicate Qualifies(w: World<Disk, Cloud>, p: Plan, calls: seq<Fate>) {
    !w.disk.worker && !w.disk.repo && MakesAll(w, calls) && p.published
  }

  /**
   * The status reported, and exit code 0: nothing stays recorded, and the session only cleaned up or qualified.
   */
  lemma {:induction false} ExitExactly(w: World<Disk, Cloud>, p: Plan, calls: seq<Fate>)
    ensures var o := Session(w, p, calls);
            var clean := !o.state.disk.repo && !o.state.disk.worker;
            var refused := !p.cleanupOnly && (w.disk.repo || w.disk.worker);
            && (o.status == Refused <==> refused)
            && (refused ==> o.state == Fresh(w, calls))
            && (o.status == StatusCleanupFailed <==> !clean && !refused)
            && (o.status == StatusCleaned <==> clean && p.cleanupOnly)
            && (o.status == StatusPassed <==> clean && !p.cleanupOnly && Qualifies(w, p, calls))
            && (ExitCode(o.status) == 0 <==> clean && (p.cleanupOnly || Qualifies(w, p, calls)))
  {
    var s := Fresh(w, calls);
    ProvisionedExactly(w, p, calls);
    CleanedExactly(Attempted(s, p).state);
  }
}
