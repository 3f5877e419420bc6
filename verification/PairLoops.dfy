/** Two nested loops over `i < j < n`: the positions they visit, and what they gather on the way. */
module PairLoops {
  import opened Assoc

  datatype Position = Position(p: nat, q: nat)

  /** The positions visited from `(i, j)` on. */
  function Positions(n: nat, i: nat, j: nat): seq<Position>
    requires i < j
    decreases n - i, n - j
  {
    if i >= n then []
    else if j >= n then Positions(n, i + 1, i + 2)
    else [Position(i, j)] + Positions(n, i, j + 1)
  }

  predicate From(x: Position, n: nat, i: nat, j: nat) {
    x.p < x.q < n && ((x.p == i && x.q >= j) || x.p > i)
  }

  /** Every pair of positions is visited, and only once. */
  lemma {:induction false} PositionsOnce(n: nat, i: nat, j: nat)
    requires i < j
    ensures forall x :: x in Positions(n, i, j) <==> From(x, n, i, j)
    ensures Distinct(Positions(n, i, j))
    decreases n - i, n - j
  {
    if i < n {
      if j >= n {
        PositionsOnce(n, i + 1, i + 2);
      } else {
        PositionsOnce(n, i, j + 1);
        var rest := Positions(n, i, j + 1);
        assert Position(i, j) !in rest;
        assert forall k :: 0 <= k < |rest| ==> rest[k] in rest;
      }
    }
  }

  lemma {:induction false} PositionCount(n: nat, i: nat, j: nat)
    requires i < n && i < j <= n
    ensures 2 * |Positions(n, i, j)| == 2 * (n - j) + (n - i - 1) * (n - i - 2)
    decreases n - i, n - j
  {
    if j < n {
      PositionCount(n, i, j + 1);
    } else if i + 1 < n {
      PositionCount(n, i + 1, i + 2);
      var m := n - i;
      assert 2 * (m - 2) + (m - 2) * (m - 3) == (m - 1) * (m - 2);
    }
  }

  /** There are `n (n - 1) / 2` of them. */
  lemma {:induction false} PositionTotal(n: nat)
    ensures 2 * |Positions(n, 0, 1)| == n * (n - 1)
  {
    if n > 0 {
      PositionCount(n, 0, 1);
      assert 2 * (n - 1) + (n - 1) * (n - 2) == n * (n - 1);
    }
  }

  lemma {:induction false} NoneSeen(n: nat)
    ensures [] + Positions(n, 0, 1) == Positions(n, 0, 1)
  {
  }

  lemma {:induction false} AllSeen(n: nat, seen: seq<Position>)
    requires seen + Positions(n, n, n + 1) == Positions(n, 0, 1)
    ensures seen == Positions(n, 0, 1)
  {
    assert seen + [] == seen;
  }

  /** What `f` gives at each of the positions, in order. */
  function Gathered<T>(f: Position -> seq<T>, xs: seq<Position>): seq<T> {
    if xs == [] then [] else f(xs[0]) + Gathered(f, xs[1..])
  }

  lemma {:induction false} GatheredNext<T>(f: Position -> seq<T>, xs: seq<Position>, x: Position)
    ensures Gathered(f, xs + [x]) == Gathered(f, xs) + f(x)
  {
    if xs == [] {
      assert xs + [x] == [x];
    } else {
      assert (xs + [x])[1..] == xs[1..] + [x];
      GatheredNext(f, xs[1..], x);
      Concat(f(xs[0]), Gathered(f, xs[1..]), f(x));
    }
  }

  /** When `f` gives one thing at each position. */
  lemma {:induction false} GatheredOnes<T>(f: Position -> seq<T>, xs: seq<Position>)
    requires forall x :: x in xs ==> |f(x)| == 1
    ensures |Gathered(f, xs)| == |xs|
    ensures forall k :: 0 <= k < |xs| ==> |f(xs[k])| == 1 && Gathered(f, xs)[k] == f(xs[k])[0]
  {
    if xs != [] {
      assert xs == [xs[0]] + xs[1..];
      GatheredOnes(f, xs[1..]);
      assert xs[0] in xs;
    }
  }
}
