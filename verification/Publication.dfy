/**
 * The publication qualification: intents are saved before disposable remote resources are created, and
 * forgotten only after a confirmed delete or a 404.
 */
module Publication {
  import opened Assoc
  import opened Custody

  datatype Kind = Repo | D1 | Worker

  /** The state file, as far as resources go. */
  datatype Disk = Disk(resources: seq<Kind>, database: Option<nat>)

  /** What exists under the owned name; database ids are never used twice. */
  datatype Cloud = Cloud(repo: bool, d1: Option<nat>, worker: bool, nextId: nat)

  type PState = State<Disk, Cloud>

  predicate Exists(c: Cloud, k: Kind) {
    match k case Repo => c.repo case D1 => c.d1.Some? case Worker => c.worker
  }

  // ------------------------------------------------------------------- steps

  function Intended(s: PState, k: Kind): PState {
    Wrote(s, s.mem.(resources := s.mem.resources + [k]))
  }

  function Added(c: Cloud, k: Kind): Cloud {
    match k
    case Repo => c.(repo := true)
    case D1 => c.(d1 := Some(c.nextId), nextId := c.nextId + 1)
    case Worker => c.(worker := true)
  }

  function Removed(c: Cloud, k: Kind): Cloud {
    match k case Repo => c.(repo := false) case D1 => c.(d1 := None) case Worker => c.(worker := false)
  }

  /** A POST is turned down when the name is taken; a Worker is PUT, which replaces. */
  predicate Taken(c: Cloud, k: Kind) {
    k != Worker && Exists(c, k)
  }

  function Created(s: PState, k: Kind): (PState, bool) {
    var f := NextFate(s.calls);
    if Taken(s.cloud, k) || !Applies(f) then (Reached(s, s.cloud), false)
    else (Reached(s, Added(s.cloud, k)), f == Answered)
  }

  datatype Reply = Success | NotFound | Failed

  /** A DELETE of the object `k`, addressed so that it is found only if `present`. */
  function Deleted(s: PState, k: Kind, present: bool): (PState, Reply) {
    var f := NextFate(s.calls);
    (Reached(s, if present && Applies(f) then Removed(s.cloud, k) else s.cloud),
     if f != Answered then Failed else if present then Success else NotFound)
  }

  /** The delete of one kind in `cleanup`; a database whose id is not known is looked up by its name. */
  function DeletedKind(s: PState, k: Kind): (PState, Reply) {
    if k != D1 then Deleted(s, k, Exists(s.cloud, k))
    else if s.mem.database.Some? then Deleted(s, D1, s.cloud.d1 == s.mem.database)
    else
      var listed := Reached(s, s.cloud);
      if NextFate(s.calls) != Answered then (listed, Failed)
      else if s.cloud.d1.None? then (listed, Success)
      else Deleted(listed, D1, true)
  }

  function Forgotten(s: PState, k: Kind): PState {
    Wrote(s, s.mem.(resources := Without(s.mem.resources, k)))
  }

  /** One turn of the cleanup loop, with the number of failures. */
  function CleanedKind(s: PState, k: Kind): (PState, nat) {
    var (s', reply) := DeletedKind(s, k);
    if reply == Failed then (s', 1) else (Forgotten(s', k), 0)
  }

  /** `cleanup` over the kinds still to do. */
  function CleanedAll(s: PState, todo: seq<Kind>): (PState, nat)
    decreases |todo|
  {
    if todo == [] then (s, 0)
    else
      var (s', n) := CleanedKind(s, todo[0]);
      var (s'', m) := CleanedAll(s', todo[1..]);
      (s'', n + m)
  }

  function Cleaned(s: PState): (PState, nat) {
    CleanedAll(s, Reversed(s.mem.resources))
  }

  datatype Pilot = Passed | NotPassed | Raised

  /** How a session is started, and what the parts outside this model do. */
  datatype Plan = Plan(cleanupOnly: bool, fixtureExists: bool, built: bool, workers: bool, deployed: bool, pilot: Pilot)

  /** A full run provisions only from a state that records no resources. */
  predicate Provisions(d: Disk, p: Plan) {
    !p.cleanupOnly && d.resources == [] && !p.fixtureExists && p.built
  }

  /** Intent, then create; `false` is an exception. */
  function Acquired(s: PState, k: Kind): (PState, bool) {
    Created(Intended(s, k), k)
  }

  /** The id of the new database is saved. */
  function Remembered(s: PState): PState {
    Wrote(s, s.mem.(database := s.cloud.d1))
  }

  function AcquiredStore(s: PState): (PState, bool) {
    var (s1, ok1) := Acquired(s, Repo);
    if !ok1 then (s1, false)
    else
      var (s2, ok2) := Acquired(s1, D1);
      if !ok2 then (s2, false) else (Remembered(s2), true)
  }

  function Provisioned(s: PState, p: Plan): (PState, bool) {
    var (s', ok) := AcquiredStore(s);
    if !ok || !p.workers then (s', ok)
    else
      var (s'', ok') := Acquired(s', Worker);
      (s'', ok' && p.deployed)
  }

  datatype Status = StatusPassed | StatusCleaned | StatusFailed | StatusCleanupFailed

  datatype Outcome = Outcome(state: PState, status: Status)

  function ExitCode(status: Status): int {
    if status == StatusPassed || status == StatusCleaned then 0 else 1
  }

  /** The script before its `finally`. */
  function Attempted(s: PState, p: Plan): Outcome {
    if p.cleanupOnly then Outcome(s, StatusCleaned)
    else if !Provisions(s.mem, p) then Outcome(s, StatusFailed)
    else
      var (s', ok) := Provisioned(s, p);
      Outcome(s', if ok && p.pilot == Passed then StatusPassed else StatusFailed)
  }

  function Finished(o: Outcome): Outcome {
    var (s, failures) := Cleaned(o.state);
    Outcome(s, if failures > 0 then StatusCleanupFailed else o.status)
  }

  function Session(w: World<Disk, Cloud>, p: Plan, calls: seq<Fate>): Outcome {
    Finished(Attempted(Fresh(w, calls), p))
  }

  // ------------------------------------------------------------- the script

  type Script = Machine<Disk, Cloud>

  method Intend(m: Script, k: Kind)
    modifies m
    ensures m.View() == Intended(old(m.View()), k)
  {
    m.mem := m.mem.(resources := m.mem.resources + [k]);
    m.Save();
  }

  method Create(m: Script, k: Kind) returns (ok: bool)
    modifies m
    ensures (m.View(), ok) == Created(old(m.View()), k)
  {
    var f, c := NextFate(m.calls), m.cloud;
    ok := false;
    if !Taken(c, k) {
      if Applies(f) {
        c := Added(c, k);
      }
      ok := f == Answered;
    }
    m.Reach(c);
  }

  method Delete(m: Script, k: Kind, present: bool) returns (reply: Reply)
    modifies m
    ensures (m.View(), reply) == Deleted(old(m.View()), k, present)
  {
    var f := NextFate(m.calls);
    reply := if f == Answered then (if present then Success else NotFound) else Failed;
    m.Reach(if present && Applies(f) then Removed(m.cloud, k) else m.cloud);
  }

  /** The ids of the databases with the owned name, or nothing when the call fails. */
  method ListDatabases(m: Script) returns (ids: Option<seq<nat>>)
    modifies m
    ensures m.View() == Reached(old(m.View()), old(m.cloud))
    ensures ids.Some? <==> NextFate(old(m.calls)) == Answered
    ensures ids.Some? ==> ids.value == match m.cloud.d1 case Some(id) => [id] case None => []
  {
    ids := None;
    if NextFate(m.calls) == Answered {
      ids := Some(match m.cloud.d1 case Some(id) => [id] case None => []);
    }
    m.Reach(m.cloud);
  }

  method DeleteKind(m: Script, k: Kind) returns (reply: Reply)
    modifies m
    ensures (m.View(), reply) == DeletedKind(old(m.View()), k)
  {
    if k != D1 {
      reply := Delete(m, k, Exists(m.cloud, k));
      return;
    }
    if m.mem.database.Some? {
      reply := Delete(m, D1, m.cloud.d1 == m.mem.database);
      return;
    }
    var ids := ListDatabases(m);
    if ids.None? {
      return Failed;
    }
    reply := Success;
    if ids.value != [] {
      reply := Delete(m, D1, m.cloud.d1 == Some(ids.value[0]));
    }
  }

  method CleanKind(m: Script, k: Kind) returns (failures: nat)
    modifies m
    ensures (m.View(), failures) == CleanedKind(old(m.View()), k)
  {
    var reply := DeleteKind(m, k);
    if reply == Failed {
      return 1;
    }
    m.mem := m.mem.(resources := Without(m.mem.resources, k));
    m.Save();
    failures := 0;
  }

  lemma {:induction false} CleanedStep(s: PState, todo: seq<Kind>, i: nat, s': PState, n: nat)
    requires i < |todo| && CleanedKind(s, todo[i]) == (s', n)
    ensures CleanedAll(s, todo[i..]).0 == CleanedAll(s', todo[i + 1..]).0
    ensures CleanedAll(s, todo[i..]).1 == n + CleanedAll(s', todo[i + 1..]).1
  {
    Uncons(todo, i);
  }

  method Cleanup(m: Script) returns (failures: nat)
    modifies m
    ensures (m.View(), failures) == Cleaned(old(m.View()))
  {
    failures := 0;
    var todo := Reversed(m.mem.resources);
    assert todo[0..] == todo;
    for i := 0 to |todo|
      invariant CleanedAll(m.View(), todo[i..]).0 == CleanedAll(old(m.View()), todo).0
      invariant failures + CleanedAll(m.View(), todo[i..]).1 == CleanedAll(old(m.View()), todo).1
    {
      ghost var before := m.View();
      var n := CleanKind(m, todo[i]);
      CleanedStep(before, todo, i, m.View(), n);
      failures := failures + n;
    }
  }

  method Provision(m: Script, p: Plan) returns (ok: bool)
    modifies m
    ensures (m.View(), ok) == Provisioned(old(m.View()), p)
  {
    Intend(m, Repo);
    ok := Create(m, Repo);
    if !ok {
      return;
    }
    Intend(m, D1);
    ok := Create(m, D1);
    if !ok {
      return;
    }
    m.mem := m.mem.(database := m.cloud.d1);
    m.Save();
    if p.workers {
      Intend(m, Worker);
      ok := Create(m, Worker);
      ok := ok && p.deployed;
    }
  }

  /** The whole script; cleanup happens however the first part ended. */
  method Qualify(m: Script, p: Plan) returns (status: Status)
    modifies m
    ensures Outcome(m.View(), status) == Finished(Attempted(old(m.View()), p))
  {
    if p.cleanupOnly {
      status := StatusCleaned;
    } else if m.mem.resources != [] || p.fixtureExists || !p.built {
      status := StatusFailed;
    } else {
      var ok := Provision(m, p);
      status := if ok && p.pilot == Passed then StatusPassed else StatusFailed;
    }
    var failures := Cleanup(m);
    if failures > 0 {
      status := StatusCleanupFailed;
    }
  }
}
