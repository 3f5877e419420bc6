/** `walk`: the value comparison of the differential certification, and what its silence means. */
module Walk {
  import opened Assoc
  import opened Json
  import opened Matching

  const EXPLAINED_KEYS: set<string> := {
    "next", "cursor", "freshUntil", "loadedAt", "generation", "lastEventAt", "at", "startedAt", "endedAt",
    "requestId", "physicalActions", "physicalLimit"
  }

  datatype Difference = Difference(path: string, a: Value, b: Value, explained: bool, key: Option<string>)

  type Key = Option<string>

  predicate IsExplained(key: Key) {
    key.Some? && key.value in EXPLAINED_KEYS
  }

  /** The recorded key: an absent or empty key leaves no entry. */
  function Recorded(key: Key): Key {
    if key == Some("") then None else key
  }

  function Found(path: string, a: Value, b: Value, key: Key): Difference {
    Difference(path, a, b, IsExplained(key), Recorded(key))
  }

  /** `new Set([...ks])` in insertion order. */
  function Unique(ks: seq<string>): (r: seq<string>)
    ensures forall k :: k in r <==> k in ks
  {
    if ks == [] then []
    else
      var front := Unique(ks[..|ks| - 1]);
      assert ks == ks[..|ks| - 1] + [ks[|ks| - 1]];
      if ks[|ks| - 1] in front then front else front + [ks[|ks| - 1]]
  }

  function BothKeys(a: Value, b: Value): (ks: seq<string>)
    requires IsContainer(a) && IsContainer(b)
    ensures forall k :: k in ks <==> k in OwnKeys(a) || k in OwnKeys(b)
  {
    Unique(OwnKeys(a) + OwnKeys(b))
  }

  /** The differences `walk(a, b, path, key, out)` pushes, in order. */
  function Walks(a: Value, b: Value, path: string, key: Key): seq<Difference>
    decreases Height(a), 1, 0
  {
    if a.Arr? && b.Arr? then
      if |a.items| != |b.items| then [Found(path, Num(|a.items| as real), Num(|b.items| as real), key)]
      else ItemWalks(a.items, b.items, 0, path, key)
    else if IsContainer(a) && IsContainer(b) then KeyWalks(a, b, BothKeys(a, b), path)
    else if a != b then [Found(path, a, b, key)]
    else []
  }

  function ItemWalks(xs: seq<Value>, ys: seq<Value>, at: nat, path: string, key: Key): seq<Difference>
    requires |xs| == |ys|
    decreases 1 + ItemsHeight(xs), 0, |xs|
  {
    if xs == [] then []
    else Walks(xs[0], ys[0], At(path, at), key) + ItemWalks(xs[1..], ys[1..], at + 1, path, key)
  }

  function KeyWalks(a: Value, b: Value, ks: seq<string>, path: string): seq<Difference>
    requires IsContainer(a) && IsContainer(b)
    decreases Height(a), 0, |ks|
  {
    if ks == [] then []
    else
      GetLower(a, ks[0]);
      Walks(Get(a, ks[0]), Get(b, ks[0]), Dot(path, ks[0]), Some(ks[0])) + KeyWalks(a, b, ks[1..], path)
  }

  lemma {:induction false} NextKeyWalks(a: Value, b: Value, ks: seq<string>, i: nat, path: string)
    requires IsContainer(a) && IsContainer(b) && i < |ks|
    ensures KeyWalks(a, b, ks[i..], path)
         == Walks(Get(a, ks[i]), Get(b, ks[i]), Dot(path, ks[i]), Some(ks[i])) + KeyWalks(a, b, ks[i + 1..], path)
  {
    Uncons(ks, i);
  }

  lemma {:induction false} NextItemWalks(xs: seq<Value>, ys: seq<Value>, i: nat, path: string, key: Key)
    requires |xs| == |ys| && i < |xs|
    ensures ItemWalks(xs[i..], ys[i..], i, path, key)
         == Walks(xs[i], ys[i], At(path, i), key) + ItemWalks(xs[i + 1..], ys[i + 1..], i + 1, path, key)
  {
    Uncons(xs, i);
    Uncons(ys, i);
  }

  class DifferenceLog {
    var items: seq<Difference>

    constructor ()
      ensures items == []
    {
      items := [];
    }

    method Push(d: Difference)
      modifies this
      ensures items == old(items) + [d]
    {
      items := items + [d];
    }

    method Walk(a: Value, b: Value, path: string, key: Key)
      modifies this
      ensures items == old(items) + Walks(a, b, path, key)
      decreases Height(a), 1
    {
      if a.Arr? && b.Arr? {
        if |a.items| != |b.items| {
          Push(Found(path, Num(|a.items| as real), Num(|b.items| as real), key));
        } else {
          WalkItems(a.items, b.items, path, key);
        }
      } else if IsContainer(a) && IsContainer(b) {
        WalkKeys(a, b, BothKeys(a, b), path);
      } else if a != b {
        Push(Found(path, a, b, key));
      }
    }

    method WalkItems(xs: seq<Value>, ys: seq<Value>, path: string, key: Key)
      requires |xs| == |ys|
      modifies this
      ensures items == old(items) + ItemWalks(xs, ys, 0, path, key)
      decreases 1 + ItemsHeight(xs), 0
    {
      assert xs[0..] == xs && ys[0..] == ys;
      for i := 0 to |xs|
        invariant items + ItemWalks(xs[i..], ys[i..], i, path, key) == old(items) + ItemWalks(xs, ys, 0, path, key)
      {
        NextItemWalks(xs, ys, i, path, key);
        Concat(items, Walks(xs[i], ys[i], At(path, i), key), ItemWalks(xs[i + 1..], ys[i + 1..], i + 1, path, key));
        Walk(xs[i], ys[i], At(path, i), key);
      }
    }

    method WalkKeys(a: Value, b: Value, ks: seq<string>, path: string)
      requires IsContainer(a) && IsContainer(b)
      modifies this
      ensures items == old(items) + KeyWalks(a, b, ks, path)
      decreases Height(a), 0
    {
      assert ks[0..] == ks;
      for i := 0 to |ks|
        invariant items + KeyWalks(a, b, ks[i..], path) == old(items) + KeyWalks(a, b, ks, path)
      {
        NextKeyWalks(a, b, ks, i, path);
        Concat(items, Walks(Get(a, ks[i]), Get(b, ks[i]), Dot(path, ks[i]), Some(ks[i])),
               KeyWalks(a, b, ks[i + 1..], path));
        GetLower(a, ks[i]);
        Walk(Get(a, ks[i]), Get(b, ks[i]), Dot(path, ks[i]), Some(ks[i]));
      }
    }
  }

  // -------------------------------------------------------- what is reported

  lemma {:induction false} InItemWalks(d: Difference, xs: seq<Value>, ys: seq<Value>, at: nat, path: string, key: Key)
    requires |xs| == |ys|
    ensures d in ItemWalks(xs, ys, at, path, key) <==>
            exists i :: 0 <= i < |xs| && d in Walks(xs[i], ys[i], At(path, at + i), key)
    decreases |xs|
  {
    if xs != [] {
      var us, vs := xs[1..], ys[1..];
      InItemWalks(d, us, vs, at + 1, path, key);
      assert forall i :: 0 <= i < |us| ==> us[i] == xs[i + 1] && vs[i] == ys[i + 1] && at + 1 + i == at + (i + 1);
      if i :| 0 <= i < |xs| && d in Walks(xs[i], ys[i], At(path, at + i), key) {
        if i > 0 {
          assert d in Walks(us[i - 1], vs[i - 1], At(path, at + 1 + (i - 1)), key);
        }
      }
    }
  }

  lemma {:induction false} InKeyWalks(d: Difference, a: Value, b: Value, ks: seq<string>, path: string)
    requires IsContainer(a) && IsContainer(b)
    ensures d in KeyWalks(a, b, ks, path) <==>
            exists k :: k in ks && d in Walks(Get(a, k), Get(b, k), Dot(path, k), Some(k))
    decreases |ks|
  {
    if ks != [] {
      InKeyWalks(d, a, b, ks[1..], path);
    }
  }

  lemma {:induction false} ItemWithDifference(d: Difference, xs: seq<Value>, ys: seq<Value>, path: string, key: Key)
    returns (i: nat)
    requires |xs| == |ys| && d in ItemWalks(xs, ys, 0, path, key)
    ensures i < |xs| && d in Walks(xs[i], ys[i], At(path, i), key)
  {
    InItemWalks(d, xs, ys, 0, path, key);
    i :| 0 <= i < |xs| && d in Walks(xs[i], ys[i], At(path, 0 + i), key);
  }

  lemma {:induction false} DifferenceOfItem(d: Difference, xs: seq<Value>, ys: seq<Value>, i: nat, path: string,
                                            key: Key)
    requires |xs| == |ys| && i < |xs| && d in Walks(xs[i], ys[i], At(path, i), key)
    ensures d in ItemWalks(xs, ys, 0, path, key)
  {
    InItemWalks(d, xs, ys, 0, path, key);
    assert d in Walks(xs[i], ys[i], At(path, 0 + i), key);
  }

  lemma {:induction false} KeyWithDifference(d: Difference, a: Value, b: Value, ks: seq<string>, path: string)
    returns (k: string)
    requires IsContainer(a) && IsContainer(b) && d in KeyWalks(a, b, ks, path)
    ensures k in ks && d in Walks(Get(a, k), Get(b, k), Dot(path, k), Some(k))
  {
    InKeyWalks(d, a, b, ks, path);
    k :| k in ks && d in Walks(Get(a, k), Get(b, k), Dot(path, k), Some(k));
  }

  lemma {:induction false} DifferenceOfKey(d: Difference, a: Value, b: Value, ks: seq<string>, k: string, path: string)
    requires IsContainer(a) && IsContainer(b) && k in ks && d in Walks(Get(a, k), Get(b, k), Dot(path, k), Some(k))
    ensures d in KeyWalks(a, b, ks, path)
  {
    InKeyWalks(d, a, b, ks, path);
  }

  function Swapped(d: Difference): Difference {
    d.(a := d.b, b := d.a)
  }

  /** Exchanging the arguments reports the same places, keys and verdicts with the sides exchanged. */
  lemma {:induction false} WalkSwaps(a: Value, b: Value, path: string, key: Key, d: Difference)
    requires d in Walks(a, b, path, key)
    ensures Swapped(d) in Walks(b, a, path, key)
    decreases Height(a)
  {
    if a.Arr? && b.Arr? {
      if |a.items| == |b.items| {
        var i := ItemWithDifference(d, a.items, b.items, path, key);
        WalkSwaps(a.items[i], b.items[i], At(path, i), key, d);
        DifferenceOfItem(Swapped(d), b.items, a.items, i, path, key);
      }
    } else if IsContainer(a) && IsContainer(b) {
      var k := KeyWithDifference(d, a, b, BothKeys(a, b), path);
      GetLower(a, k);
      WalkSwaps(Get(a, k), Get(b, k), Dot(path, k), Some(k), d);
      assert k in BothKeys(b, a);
      DifferenceOfKey(Swapped(d), b, a, BothKeys(b, a), k, path);
    }
  }
}
