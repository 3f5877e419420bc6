/**
 * What the three qualification scripts share: a state file, remote calls whose replies may be lost, and
 * crashes. `D` is what the state file says and `C` is what exists remotely under the owned name.
 */
module Custody {

  /**
   * The fate of a remote call: answered; applied with the reply lost, or with its body unusable; lost on the
   * way; or turned down by an HTTP error. A lost call is no `RuntimeError`, the other failures are. A call to the
   * URL of a Worker may also be misrouted: the platform answers it with a 404 of its own. (For a call of
   * the management API that is an error like any other.)
   */
  datatype Fate = Answered | LostAfter | Garbled | LostBefore | TurnedDown | Misrouted

  predicate Applies(f: Fate) {
    f == Answered || f == LostAfter || f == Garbled
  }

  /** An error that changed nothing. */
  predicate Rejects(f: Fate) {
    f == TurnedDown || f == Misrouted
  }

  /** What survives a crash. */
  datatype World<D, C> = World(disk: D, cloud: C)

  /** A running script: its memory, what survives it, the fates to come, and every world so far. */
  datatype State<D, C> = State(mem: D, disk: D, cloud: C, calls: seq<Fate>, trace: seq<World<D, C>>)

  function Fresh<D, C>(w: World<D, C>, calls: seq<Fate>): State<D, C> {
    State(w.disk, w.disk, w.cloud, calls, [w])
  }

  /** Beyond the fates given, calls do not get through. */
  function NextFate(calls: seq<Fate>): Fate {
    if calls == [] then LostBefore else calls[0]
  }

  function LaterFates(calls: seq<Fate>): seq<Fate> {
    if calls == [] then [] else calls[1..]
  }

  /** `save()`. */
  function Saved<D, C>(s: State<D, C>): State<D, C> {
    s.(disk := s.mem, trace := s.trace + [World(s.mem, s.cloud)])
  }

  /** A change of memory, saved at once. */
  function Wrote<D, C>(s: State<D, C>, d: D): State<D, C> {
    Saved(s.(mem := d))
  }

  /** A call happened: its fate is used up and `c` is what exists now. */
  function Reached<D, C>(s: State<D, C>, c: C): State<D, C> {
    s.(cloud := c, calls := LaterFates(s.calls), trace := s.trace + [World(s.disk, c)])
  }

  class Machine<D, C> {
    var mem: D
    var disk: D
    var cloud: C
    var calls: seq<Fate>
    ghost var trace: seq<World<D, C>>

    ghost function View(): State<D, C>
      reads this
    {
      State(mem, disk, cloud, calls, trace)
    }

    constructor (w: World<D, C>, calls: seq<Fate>)
      ensures View() == Fresh(w, calls)
    {
      mem, disk, cloud, this.calls := w.disk, w.disk, w.cloud, calls;
      trace := [w];
    }

    method Save()
      modifies this
      ensures View() == Saved(old(View()))
    {
      disk := mem;
      trace := trace + [World(disk, cloud)];
    }

    method Reach(c: C)
      modifies this
      ensures View() == Reached(old(View()), c)
    {
      cloud := c;
      calls := LaterFates(calls);
      trace := trace + [World(disk, cloud)];
    }
  }

  // --------------------------------------------------------------- invariants

  ghost predicate AllSafe<D, C>(trace: seq<World<D, C>>, safe: World<D, C> -> bool) {
    forall i :: 0 <= i < |trace| ==> safe(trace[i])
  }

  /** Between two actions memory and disk agree, and every world so far is safe. */
  ghost predicate Good<D, C>(s: State<D, C>, safe: World<D, C> -> bool) {
    && s.mem == s.disk
    && |s.trace| > 0 && s.trace[|s.trace| - 1] == World(s.disk, s.cloud)
    && AllSafe(s.trace, safe)
  }

  lemma {:induction false} GoodIsSafe<D, C>(s: State<D, C>, safe: World<D, C> -> bool)
    requires Good(s, safe)
    ensures safe(World(s.disk, s.cloud))
  {
    assert safe(s.trace[|s.trace| - 1]);
  }

  lemma {:induction false} WroteGood<D, C>(s: State<D, C>, d: D, safe: World<D, C> -> bool)
    requires Good(s, safe) && safe(World(d, s.cloud))
    ensures Good(Wrote(s, d), safe)
  {
  }

  lemma {:induction false} ReachedGood<D, C>(s: State<D, C>, c: C, safe: World<D, C> -> bool)
    requires Good(s, safe) && safe(World(s.disk, c))
    ensures Good(Reached(s, c), safe)
  {
  }

  // ---------------------------------------------------------------- histories

  /** One start of a script: how it is started, what befalls its calls, and where it crashes, if before its end. */
  datatype Run<P> = Run(plan: P, calls: seq<Fate>, cut: nat)

  /** The world a run started in `w` leaves behind. */
  function Left<D, C>(w: World<D, C>, trace: seq<World<D, C>>, cut: nat): World<D, C> {
    if trace == [] then w else if cut < |trace| then trace[cut] else trace[|trace| - 1]
  }

  /** The world after a history of runs of a script, which is given by the worlds it goes through. */
  function WorldAfter<D, C, P>(script: (World<D, C>, P, seq<Fate>) -> seq<World<D, C>>, w: World<D, C>,
                               runs: seq<Run<P>>): World<D, C>
    decreases |runs|
  {
    if runs == [] then w
    else WorldAfter(script, Left(w, script(w, runs[0].plan, runs[0].calls), runs[0].cut), runs[1..])
  }

  /** Every start in the history was allowed. */
  ghost predicate Allowed<D, C, P>(script: (World<D, C>, P, seq<Fate>) -> seq<World<D, C>>,
                                   allowed: (World<D, C>, P, seq<Fate>) -> bool, w: World<D, C>, runs: seq<Run<P>>)
    decreases |runs|
  {
    runs != [] ==>
      && allowed(w, runs[0].plan, runs[0].calls)
      && Allowed(script, allowed, Left(w, script(w, runs[0].plan, runs[0].calls), runs[0].cut), runs[1..])
  }

  /** Every world of every run in the history is safe. */
  ghost predicate HistorySafe<D, C, P>(script: (World<D, C>, P, seq<Fate>) -> seq<World<D, C>>,
                                       safe: World<D, C> -> bool, w: World<D, C>, runs: seq<Run<P>>)
    decreases |runs|
  {
    && safe(w)
    && (runs != [] ==>
          && AllSafe(script(w, runs[0].plan, runs[0].calls), safe)
          && HistorySafe(script, safe, Left(w, script(w, runs[0].plan, runs[0].calls), runs[0].cut), runs[1..]))
  }

  /** What one allowed run keeps in all its worlds, any history of allowed runs keeps. */
  lemma {:induction false} HistoryInduction<D(!new), C(!new), P(!new)>(
      script: (World<D, C>, P, seq<Fate>) -> seq<World<D, C>>,
      allowed: (World<D, C>, P, seq<Fate>) -> bool, safe: World<D, C> -> bool, w: World<D, C>, runs: seq<Run<P>>)
    requires safe(w) && Allowed(script, allowed, w, runs)
    requires forall v: World<D, C>, p: P, calls: seq<Fate> ::
               safe(v) && allowed(v, p, calls) ==> AllSafe(script(v, p, calls), safe)
    ensures HistorySafe(script, safe, w, runs)
    ensures safe(WorldAfter(script, w, runs))
    decreases |runs|
  {
    if runs != [] {
      var trace := script(w, runs[0].plan, runs[0].calls);
      assert AllSafe(trace, safe);
      HistoryInduction(script, allowed, safe, Left(w, trace, runs[0].cut), runs[1..]);
    }
  }

  ghost predicate AllAnswered(calls: seq<Fate>) {
    forall i :: 0 <= i < |calls| ==> calls[i] == Answered
  }

  // --------------------------------------------------------- recorded lists

  /** `list.remove(k)` for an element that may be absent. */
  function Without<T(==)>(ks: seq<T>, k: T): (r: seq<T>)
    ensures multiset(r) == multiset(ks) - multiset{k}
  {
    if ks == [] then [] else if ks[0] == k then
      assert ks == [ks[0]] + ks[1..];
      ks[1..]
    else
      assert ks == [ks[0]] + ks[1..];
      [ks[0]] + Without(ks[1..], k)
  }

  /** One element of what is still to do is dealt with, and removed from what is recorded or not. */
  lemma {:induction false} DoneOne<T>(recorded: seq<T>, todo: seq<T>, recorded': seq<T>, removed: bool)
    requires todo != [] && multiset(todo) <= multiset(recorded)
    requires multiset(recorded') == multiset(recorded) - if removed then multiset{todo[0]} else multiset{}
    ensures multiset(todo[1..]) <= multiset(recorded')
    ensures |recorded'| == |recorded| - if removed then 1 else 0
  {
    assert todo == [todo[0]] + todo[1..];
    assert todo[0] in multiset(todo);
    assert |multiset(recorded)| == |recorded| && |multiset(recorded')| == |recorded'|;
  }

  function Reversed<T>(ks: seq<T>): (r: seq<T>)
    ensures |r| == |ks|
    ensures forall i :: 0 <= i < |ks| ==> r[i] == ks[|ks| - 1 - i]
    ensures multiset(r) == multiset(ks)
  {
    if ks == [] then []
    else
      assert ks == ks[..|ks| - 1] + [ks[|ks| - 1]];
      [ks[|ks| - 1]] + Reversed(ks[..|ks| - 1])
  }
}
