/**
 * The binding qualification: the Worker is the capability that creates and deletes the repository, so
 * it is recorded first and deleted last.
 */
module Binding {
  import opened Custody

  /** The state file: the two intents, and whether the Worker's URL is recorded. */
  datatype Disk = Disk(worker: bool, repo: bool, url: bool)

  datatype Cloud = Cloud(worker: bool, repo: bool)

  type BState = State<Disk, Cloud>

  /** How a session is started, and what the parts outside this model do. */
  datatype Plan = Plan(cleanupOnly: bool, published: bool)

  // ------------------------------------------------------------------- steps

  /** A call that changes nothing: a subdomain setting, or a read. */
  function Asked(s: BState): (BState, bool) {
    (Reached(s, s.cloud), NextFate(s.calls) == Answered)
  }

  /** PUT of the Worker. */
  function Deployed(s: BState): (BState, bool) {
    var f := NextFate(s.calls);
    (Reached(s, if Applies(f) then s.cloud.(worker := true) else s.cloud), f == Answered)
  }

  /** GET /ready, answered with `{"ready": true}` by the Worker only. */
  function Probed(s: BState): (BState, bool) {
    (Reached(s, s.cloud), NextFate(s.calls) == Answered && s.cloud.worker)
  }

  /** POST /create through the Worker; a name in use is a provider failure. */
  function RepoCreated(s: BState): (BState, bool) {
    var f := NextFate(s.calls);
    var possible := s.cloud.worker && !s.cloud.repo;
    (Reached(s, if possible && Applies(f) then s.cloud.(repo := true) else s.cloud), possible && f == Answered)
  }

  /**
   * DELETE /repo through the Worker, at the recorded URL; `false` is an exception. A 404 is taken as
   * deleted, whether it is the Worker's own or the platform's.
   */
  function RepoDeleted(s: BState): (BState, bool) {
    if !s.mem.url then (s, false)
    else
      var f := NextFate(s.calls);
      (Reached(s, if s.cloud.worker && Applies(f) then s.cloud.(repo := false) else s.cloud),
       f == Answered || f == Misrouted)
  }

  /** DELETE of the Worker's script; 200, 204 and 404 are all accepted, and the body is not looked at. */
  function WorkerDeleted(s: BState): (BState, bool) {
    var f := NextFate(s.calls);
    (Reached(s, if Applies(f) then s.cloud.(worker := false) else s.cloud), f == Answered || f == Garbled)
  }

  /** The Worker: intent, PUT, subdomain, URL, readiness. */
  function WorkerProvisioned(s: BState): (BState, bool) {
    var (s1, ok1) := Deployed(Wrote(s, s.mem.(worker := true)));
    if !ok1 then (s1, false)
    else
      var (s2, ok2) := Asked(s1);
      if !ok2 then (s2, false)
      else
        var (s3, ok3) := Asked(s2);
        if !ok3 then (s3, false) else Probed(Wrote(s3, s3.mem.(url := true)))
  }

  /** Intent for the repository, one attempt at its creation, and a read of it. */
  function RepoProvisioned(s: BState): (BState, bool) {
    var (s1, ok1) := RepoCreated(Wrote(s, s.mem.(repo := true)));
    if !ok1 then (s1, false) else Asked(s1)
  }

  function Provisioned(s: BState, p: Plan): (BState, bool) {
    var (s1, ok1) := WorkerProvisioned(s);
    if !ok1 then (s1, false)
    else
      var (s2, ok2) := RepoProvisioned(s1);
      (s2, ok2 && p.published)
  }

  function RepoCleaned(s: BState): (BState, nat) {
    if !s.mem.repo then (s, 0)
    else
      var (s', ok) := RepoDeleted(s);
      if ok then (Wrote(s', s'.mem.(repo := false)), 0) else (s', 1)
  }

  /** The Worker is kept as long as the repository is unresolved. */
  function WorkerCleaned(s: BState): (BState, nat) {
    if !s.mem.worker || s.mem.repo then (s, 0)
    else
      var (s', ok) := WorkerDeleted(s);
      if ok then (Wrote(s', s'.mem.(worker := false)), 0) else (s', 1)
  }

  function Cleaned(s: BState): (BState, nat) {
    var (s1, n1) := RepoCleaned(s);
    var (s2, n2) := WorkerCleaned(s1);
    (s2, n1 + n2)
  }

  datatype Status = Refused | StatusPassed | StatusCleaned | StatusFailed | StatusCleanupFailed

  datatype Outcome = Outcome(state: BState, status: Status)

  function ExitCode(status: Status): int {
    if status == StatusPassed || status == StatusCleaned then 0 else 1
  }

  predicate Refuses(d: Disk, p: Plan) {
    (d.worker || d.repo) && !p.cleanupOnly
  }

  function Attempted(s: BState, p: Plan): Outcome {
    if p.cleanupOnly then Outcome(s, StatusCleaned)
    else
      var (s', ok) := Provisioned(s, p);
      Outcome(s', if ok then StatusPassed else StatusFailed)
  }

  function Finished(o: Outcome): Outcome {
    var (s, failures) := Cleaned(o.state);
    Outcome(s, if failures > 0 then StatusCleanupFailed else o.status)
  }

  function Session(w: World<Disk, Cloud>, p: Plan, calls: seq<Fate>): Outcome {
    var s := Fresh(w, calls);
    if Refuses(s.mem, p) then Outcome(s, Refused) else Finished(Attempted(s, p))
  }

  // ------------------------------------------------------------- the script

  type Script = Machine<Disk, Cloud>

  method Ask(m: Script) returns (ok: bool)
    modifies m
    ensures (m.View(), ok) == Asked(old(m.View()))
  {
    ok := NextFate(m.calls) == Answered;
    m.Reach(m.cloud);
  }

  method Deploy(m: Script) returns (ok: bool)
    modifies m
    ensures (m.View(), ok) == Deployed(old(m.View()))
  {
    var f, c := NextFate(m.calls), m.cloud;
    ok := f == Answered;
    if Applies(f) {
      c := c.(worker := true);
    }
    m.Reach(c);
  }

  method Probe(m: Script) returns (ok: bool)
    modifies m
    ensures (m.View(), ok) == Probed(old(m.View()))
  {
    ok := NextFate(m.calls) == Answered && m.cloud.worker;
    m.Reach(m.cloud);
  }

  method CreateRepo(m: Script) returns (ok: bool)
    modifies m
    ensures (m.View(), ok) == RepoCreated(old(m.View()))
  {
    var f, c := NextFate(m.calls), m.cloud;
    ok := false;
    if c.worker && !c.repo {
      ok := f == Answered;
      if Applies(f) {
        c := c.(repo := true);
      }
    }
    m.Reach(c);
  }

  method DeleteRepo(m: Script) returns (ok: bool)
    modifies m
    ensures (m.View(), ok) == RepoDeleted(old(m.View()))
  {
    if !m.mem.url {
      return false;
    }
    var f, c := NextFate(m.calls), m.cloud;
    ok := f == Answered || f == Misrouted;
    if c.worker && Applies(f) {
      c := c.(repo := false);
    }
    m.Reach(c);
  }

  method DeleteWorker(m: Script) returns (ok: bool)
    modifies m
    ensures (m.View(), ok) == WorkerDeleted(old(m.View()))
  {
    var f, c := NextFate(m.calls), m.cloud;
    ok := f == Answered || f == Garbled;
    if Applies(f) {
      c := c.(worker := false);
    }
    m.Reach(c);
  }

  method ProvisionWorker(m: Script) returns (ok: bool)
    modifies m
    ensures (m.View(), ok) == WorkerProvisioned(old(m.View()))
  {
    m.mem := m.mem.(worker := true);
    m.Save();
    ok := Deploy(m);
    if !ok {
      return;
    }
    ok := Ask(m);
    if !ok {
      return;
    }
    ok := Ask(m);
    if !ok {
      return;
    }
    m.mem := m.mem.(url := true);
    m.Save();
    ok := Probe(m);
  }

  method ProvisionRepo(m: Script) returns (ok: bool)
    modifies m
    ensures (m.View(), ok) == RepoProvisioned(old(m.View()))
  {
    m.mem := m.mem.(repo := true);
    m.Save();
    ok := CreateRepo(m);
    if ok {
      ok := Ask(m);
    }
  }

  method Cleanup(m: Script) returns (failures: nat)
    modifies m
    ensures (m.View(), failures) == Cleaned(old(m.View()))
  {
    failures := 0;
    if m.mem.repo {
      var ok := DeleteRepo(m);
      if ok {
        m.mem := m.mem.(repo := false);
        m.Save();
      } else {
        failures := failures + 1;
      }
    }
    if m.mem.worker && !m.mem.repo {
      var ok := DeleteWorker(m);
      if ok {
        m.mem := m.mem.(worker := false);
        m.Save();
      } else {
        failures := failures + 1;
      }
    }
  }

  /** The whole script. */
  method Qualify(m: Script, p: Plan) returns (status: Status)
    modifies m
    ensures Outcome(m.View(), status) ==
            if Refuses(old(m.mem), p) then Outcome(old(m.View()), Refused) else Finished(Attempted(old(m.View()), p))
  {
    if (m.mem.worker || m.mem.repo) && !p.cleanupOnly {
      return Refused;
    }
    if p.cleanupOnly {
      status := StatusCleaned;
    } else {
      var ok := ProvisionWorker(m);
      if ok {
        ok := ProvisionRepo(m);
        ok := ok && p.published;
      }
      status := if ok then StatusPassed else StatusFailed;
    }
    var failures := Cleanup(m);
    if failures > 0 {
      status := StatusCleanupFailed;
    }
  }
}
