/** Running a step function, and the induction principles that go with it. */
module Iteration {

  function Iterate<W>(f: (W, nat) -> W, w: W, n: nat): W {
    if n == 0 then w else f(Iterate(f, w, n - 1), n - 1)
  }

  /** What every step keeps holds at every point of a run. */
  lemma {:induction false} Induction<W(!new)>(f: (W, nat) -> W, w: W, inv: (W, nat) -> bool, n: nat)
    requires inv(w, 0)
    requires forall v: W, i: nat :: i < n && inv(v, i) ==> inv(f(v, i), i + 1)
    ensures inv(Iterate(f, w, n), n)
  {
    if n > 0 {
      Induction(f, w, inv, n - 1);
    }
  }

  /** What every pair of steps keeps relates two runs at every point. */
  lemma {:induction false} Induction2<V(!new), W(!new)>(f: (V, nat) -> V, v: V, g: (W, nat) -> W, w: W,
                                                        rel: (V, W, nat) -> bool, n: nat)
    requires rel(v, w, 0)
    requires forall x: V, y: W, i: nat :: i < n && rel(x, y, i) ==> rel(f(x, i), g(y, i), i + 1)
    ensures rel(Iterate(f, v, n), Iterate(g, w, n), n)
  {
    if n > 0 {
      Induction2(f, v, g, w, rel, n - 1);
    }
  }

  /** What every later step keeps holds at every later point. */
  lemma {:induction false} InductionFrom<W(!new)>(f: (W, nat) -> W, w: W, inv: (W, nat) -> bool, lo: nat, n: nat)
    requires lo <= n && inv(Iterate(f, w, lo), lo)
    requires forall v: W, i: nat :: lo <= i < n && inv(v, i) ==> inv(f(v, i), i + 1)
    ensures inv(Iterate(f, w, n), n)
    decreases n
  {
    if lo < n {
      InductionFrom(f, w, inv, lo, n - 1);
    }
  }
}
