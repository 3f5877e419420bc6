/**
 * The Artifacts qualification: three disposable resources, one of them deleted and created again under
 * its own name while its first identity stays on record.
 */
module Artifacts {
  import opened Assoc
  import opened Custody

  /** The resources of a run; each has a name of its own. */
  datatype Item = Repo | Fork | Worker

  /** The state file: the intents, and the identity of the repository first created. */
  datatype Disk = Disk(created: seq<Item>, repoId: Option<nat>)

  /** What exists under the owned names; repository ids are never used twice. */
  datatype Cloud = Cloud(repo: Option<nat>, fork: Option<nat>, worker: bool, nextId: nat)

  type AState = State<Disk, Cloud>

  predicate Exists(c: Cloud, k: Item) {
    match k case Repo => c.repo.Some? case Fork => c.fork.Some? case Worker => c.worker
  }

  /**
   * How a session is started, and what the parts outside this model do: whether the fixture is
   * published and the Worker's code built, whether the Worker answers all its checks, whether the export
   * is complete, and whether the old binding is fenced off.
   */
  datatype Plan = Plan(cleanupOnly: bool, keepOnFailure: bool, prepared: bool, served: bool, exported: bool,
                       fenced: bool)

  // ------------------------------------------------------------------- steps

  /** The two kinds of exception that the script tells apart. */
  datatype Reply = Success | NotFound | RuntimeError | Lost

  function Raised(f: Fate): Reply {
    if f == LostAfter || f == LostBefore then Lost else RuntimeError
  }

  function Added(c: Cloud, k: Item): Cloud {
    match k
    case Repo => c.(repo := Some(c.nextId), nextId := c.nextId + 1)
    case Fork => c.(fork := Some(c.nextId), nextId := c.nextId + 1)
    case Worker => c.(worker := true)
  }

  function Removed(c: Cloud, k: Item): Cloud {
    match k case Repo => c.(repo := None) case Fork => c.(fork := None) case Worker => c.(worker := false)
  }

  /** Repositories are POSTed, and turned down when the name is taken or the source to fork is missing. */
  predicate Refused(c: Cloud, k: Item) {
    (k != Worker && Exists(c, k)) || (k == Fork && c.repo.None?)
  }

  function Created(s: AState, k: Item): (AState, Reply) {
    var f := NextFate(s.calls);
    (Reached(s, if !Refused(s.cloud, k) && Applies(f) then Added(s.cloud, k) else s.cloud),
     if f != Answered then Raised(f) else if Refused(s.cloud, k) then RuntimeError else Success)
  }

  function Deleted(s: AState, k: Item): (AState, Reply) {
    var f := NextFate(s.calls);
    (Reached(s, if Applies(f) then Removed(s.cloud, k) else s.cloud),
     if f != Answered then Raised(f) else if Exists(s.cloud, k) then Success else NotFound)
  }

  function Intended(s: AState, k: Item): AState {
    Wrote(s, s.mem.(created := s.mem.created + [k]))
  }

  function Forgotten(s: AState, k: Item): AState {
    Wrote(s, s.mem.(created := Without(s.mem.created, k)))
  }

  /** One turn of the cleanup loop. */
  function CleanedItem(s: AState, k: Item): (AState, Reply) {
    var (s', reply) := Deleted(s, k);
    (if reply == Success || reply == NotFound then Forgotten(s', k) else s', reply)
  }

  /** How a cleanup ends: with the number of recorded failures, or with an exception. */
  datatype Cleanup = Failures(n: nat) | Aborted

  function CleanedAll(s: AState, todo: seq<Item>): (AState, Cleanup)
    decreases |todo|
  {
    if todo == [] then (s, Failures(0))
    else
      var (s', reply) := CleanedItem(s, todo[0]);
      if reply == Lost then (s', Aborted)
      else
        var (s'', c) := CleanedAll(s', todo[1..]);
        (s'', if c.Failures? && reply == RuntimeError then Failures(c.n + 1) else c)
  }

  function Cleaned(s: AState): (AState, Cleanup) {
    CleanedAll(s, Reversed(s.mem.created))
  }

  /** Intent, then create; `false` is an exception. */
  function Acquired(s: AState, k: Item): (AState, bool) {
    var (s', reply) := Created(Intended(s, k), k);
    (s', reply == Success)
  }

  /** Up to `attempts` creations of the repository; only a `RuntimeError` is tried again. */
  function Recreated(s: AState, attempts: nat): (AState, bool)
    decreases attempts
  {
    if attempts == 0 then (s, false)
    else
      var (s', reply) := Created(s, Repo);
      if reply == RuntimeError then Recreated(s', attempts - 1) else (s', reply == Success)
  }

  const ATTEMPTS := 20

  /** Delete the repository, create it again, and check that its identity is another. */
  function Replaced(s: AState): (AState, bool) {
    var (s1, reply) := Deleted(s, Repo);
    if reply != Success then (s1, false)
    else
      var (s2, ok) := Recreated(s1, ATTEMPTS);
      (s2, ok && s2.cloud.repo != s2.mem.repoId)
  }

  function RepoReady(s: AState, p: Plan): (AState, bool) {
    var (s1, ok) := Acquired(s, Repo);
    if !ok then (s1, false) else (Wrote(s1, s1.mem.(repoId := s1.cloud.repo)), p.prepared)
  }

  function WorkerReady(s: AState, p: Plan): (AState, bool) {
    var (s1, ok) := Acquired(s, Worker);
    (s1, ok && p.served)
  }

  function ForkReady(s: AState, p: Plan): (AState, bool) {
    var (s1, ok) := Acquired(s, Fork);
    (s1, ok && p.exported)
  }

  /** Everything before the repository is replaced. */
  function Prepared(s: AState, p: Plan): (AState, bool) {
    var (s1, ok1) := RepoReady(s, p);
    if !ok1 then (s1, false)
    else
      var (s2, ok2) := WorkerReady(s1, p);
      if !ok2 then (s2, false) else ForkReady(s2, p)
  }

  function Qualified(s: AState, p: Plan): (AState, bool) {
    var (s1, ok1) := Prepared(s, p);
    if !ok1 then (s1, false)
    else
      var (s2, ok2) := Replaced(s1);
      (s2, ok2 && p.fenced)
  }

  datatype Outcome = Outcome(state: AState, exit: int)

  function CleanupSession(s: AState): Outcome {
    var (s', c) := Cleaned(s);
    Outcome(s', if c == Failures(0) then 0 else 1)
  }

  function FullSession(s: AState, p: Plan): Outcome {
    var (s', passed) := Qualified(s, p);
    if !passed && p.keepOnFailure then Outcome(s', 1)
    else
      var (s'', c) := Cleaned(s');
      Outcome(s'', if passed && c == Failures(0) then 0 else 1)
  }

  function Session(w: World<Disk, Cloud>, p: Plan, calls: seq<Fate>): Outcome {
    var s := Fresh(w, calls);
    if p.cleanupOnly then CleanupSession(s)
    else if s.mem.created != [] then Outcome(s, 1)
    else FullSession(s, p)
  }

  // ------------------------------------------------------------- the script

  type Script = Machine<Disk, Cloud>

  method Create(m: Script, k: Item) returns (reply: Reply)
    modifies m
    ensures (m.View(), reply) == Created(old(m.View()), k)
  {
    var f, c := NextFate(m.calls), m.cloud;
    reply := Raised(f);
    if Refused(c, k) {
      if f == Answered {
        reply := RuntimeError;
      }
    } else {
      if f == Answered {
        reply := Success;
      }
      if Applies(f) {
        c := Added(c, k);
      }
    }
    m.Reach(c);
  }

  method Delete(m: Script, k: Item) returns (reply: Reply)
    modifies m
    ensures (m.View(), reply) == Deleted(old(m.View()), k)
  {
    var f, c := NextFate(m.calls), m.cloud;
    reply := Raised(f);
    if f == Answered {
      reply := if Exists(c, k) then Success else NotFound;
    }
    if Applies(f) {
      c := Removed(c, k);
    }
    m.Reach(c);
  }

  method Acquire(m: Script, k: Item) returns (ok: bool)
    modifies m
    ensures (m.View(), ok) == Acquired(old(m.View()), k)
  {
    m.mem := m.mem.(created := m.mem.created + [k]);
    m.Save();
    var reply := Create(m, k);
    ok := reply == Success;
  }

  method CleanItem(m: Script, k: Item) returns (reply: Reply)
    modifies m
    ensures (m.View(), reply) == CleanedItem(old(m.View()), k)
  {
    reply := Delete(m, k);
    if reply == Success || reply == NotFound {
      m.mem := m.mem.(created := Without(m.mem.created, k));
      m.Save();
    }
  }

  /** The failures a pass reports, when `n` of them came before the rest of it. */
  function Counted(n: nat, c: Cleanup): Cleanup {
    if c.Failures? then Failures(n + c.n) else c
  }

  lemma {:induction false} CleanedStep(s: AState, todo: seq<Item>, i: nat, s': AState, reply: Reply, n: nat)
    requires i < |todo| && CleanedItem(s, todo[i]) == (s', reply)
    ensures var (t, c) := CleanedAll(s, todo[i..]);
            if reply == Lost then t == s' && c == Aborted
            else
              var (t', c') := CleanedAll(s', todo[i + 1..]);
              t == t' && Counted(n, c) == Counted(if reply == RuntimeError then n + 1 else n, c')
  {
    Uncons(todo, i);
  }

  method CleanUp(m: Script) returns (c: Cleanup)
    modifies m
    ensures (m.View(), c) == Cleaned(old(m.View()))
  {
    var failures := 0;
    var todo := Reversed(m.mem.created);
    assert todo[0..] == todo;
    for i := 0 to |todo|
      invariant CleanedAll(m.View(), todo[i..]).0 == CleanedAll(old(m.View()), todo).0
      invariant Counted(failures, CleanedAll(m.View(), todo[i..]).1) == CleanedAll(old(m.View()), todo).1
    {
      ghost var before := m.View();
      var reply := CleanItem(m, todo[i]);
      CleanedStep(before, todo, i, m.View(), reply, failures);
      if reply == Lost {
        return Aborted;
      }
      if reply == RuntimeError {
        failures := failures + 1;
      }
    }
    c := Failures(failures);
  }

  method Recreate(m: Script) returns (ok: bool)
    modifies m
    ensures (m.View(), ok) == Recreated(old(m.View()), ATTEMPTS)
  {
    ok := false;
    for attempt := 0 to ATTEMPTS
      invariant !ok && Recreated(m.View(), ATTEMPTS - attempt) == Recreated(old(m.View()), ATTEMPTS)
    {
      var reply := Create(m, Repo);
      if reply != RuntimeError {
        return reply == Success;
      }
    }
  }

  method Replace(m: Script) returns (ok: bool)
    modifies m
    ensures (m.View(), ok) == Replaced(old(m.View()))
  {
    var reply := Delete(m, Repo);
    if reply != Success {
      return false;
    }
    ok := Recreate(m);
    ok := ok && m.cloud.repo != m.mem.repoId;
  }

  method MakeReady(m: Script, p: Plan) returns (ok: bool)
    modifies m
    ensures (m.View(), ok) == RepoReady(old(m.View()), p)
  {
    ok := Acquire(m, Repo);
    if ok {
      m.mem := m.mem.(repoId := m.cloud.repo);
      m.Save();
      ok := p.prepared;
    }
  }

  /** Everything inside the `try`. */
  method Attempt(m: Script, p: Plan) returns (passed: bool)
    modifies m
    ensures (m.View(), passed) == Qualified(old(m.View()), p)
  {
    passed := MakeReady(m, p);
    if passed {
      passed := Acquire(m, Worker);
      passed := passed && p.served;
    }
    if passed {
      passed := Acquire(m, Fork);
      passed := passed && p.exported;
    }
    if passed {
      passed := Replace(m);
      passed := passed && p.fenced;
    }
  }

  /** The whole script; its result is the exit code. */
  method Qualify(m: Script, p: Plan) returns (exit: int)
    modifies m
    ensures Outcome(m.View(), exit) ==
            if p.cleanupOnly then CleanupSession(old(m.View()))
            else if old(m.mem).created != [] then Outcome(old(m.View()), 1)
            else FullSession(old(m.View()), p)
  {
    var c;
    if p.cleanupOnly {
      c := CleanUp(m);
      return if c == Failures(0) then 0 else 1;
    }
    if m.mem.created != [] {
      return 1;
    }
    var passed := Attempt(m, p);
    if !passed && p.keepOnFailure {
      return 1;
    }
    c := CleanUp(m);
    exit := if passed && c == Failures(0) then 0 else 1;
  }
}
