/** A JavaScript record or `Map` written key by key: entries in insertion order, one per key. */
module Assoc {

  datatype Option<+T> = None | Some(value: T)

  datatype Entry<+V> = Entry(key: string, value: V)

  function Keys<V>(m: seq<Entry<V>>): (ks: seq<string>)
    ensures |ks| == |m|
    ensures forall i :: 0 <= i < |m| ==> ks[i] == m[i].key
  {
    if m == [] then [] else [m[0].key] + Keys(m[1..])
  }

  ghost predicate Distinct<T>(s: seq<T>) {
    forall i, j :: 0 <= i < j < |s| ==> s[i] != s[j]
  }

  lemma {:induction false} Concat<T>(a: seq<T>, b: seq<T>, c: seq<T>)
    ensures a + (b + c) == (a + b) + c
  {
  }

  /** Take the first of the remaining elements. */
  lemma {:induction false} Uncons<T>(s: seq<T>, i: nat)
    requires i < |s|
    ensures s[i..] != [] && s[i..][0] == s[i] && s[i..][1..] == s[i + 1..]
  {
  }

  lemma {:induction false} TakeNext<T>(s: seq<T>, n: nat)
    requires n < |s|
    ensures s[..n + 1] == s[..n] + [s[n]]
  {
  }

  function Find<V>(m: seq<Entry<V>>, k: string): (r: Option<V>)
    ensures r.Some? <==> k in Keys(m)
  {
    if m == [] then None
    else if m[0].key == k then Some(m[0].value)
    else Find(m[1..], k)
  }

  /** `m[k] = v`: an existing key keeps its place. */
  function Put<V>(m: seq<Entry<V>>, k: string, v: V): seq<Entry<V>> {
    if m == [] then [Entry(k, v)]
    else if m[0].key == k then [Entry(k, v)] + m[1..]
    else [m[0]] + Put(m[1..], k, v)
  }

  lemma {:induction false} PutKeys<V>(m: seq<Entry<V>>, k: string, v: V)
    ensures Keys(Put(m, k, v)) == if k in Keys(m) then Keys(m) else Keys(m) + [k]
  {
    if m != [] {
      if m[0].key == k {
        assert ([Entry(k, v)] + m[1..])[1..] == m[1..];
      } else {
        PutKeys(m[1..], k, v);
        assert ([m[0]] + Put(m[1..], k, v))[1..] == Put(m[1..], k, v);
        assert k in Keys(m) <==> k in Keys(m[1..]);
      }
    }
  }

  lemma {:induction false} FindPut<V>(m: seq<Entry<V>>, k: string, v: V, k': string)
    ensures Find(Put(m, k, v), k') == if k' == k then Some(v) else Find(m, k')
  {
    if m != [] && m[0].key != k {
      FindPut(m[1..], k, v, k');
    }
  }

  /** A key that is not there yet goes to the end. */
  lemma {:induction false} PutFresh<V>(m: seq<Entry<V>>, k: string, v: V)
    requires k !in Keys(m)
    ensures Put(m, k, v) == m + [Entry(k, v)]
  {
    if m != [] {
      assert Keys(m)[0] == m[0].key;
      assert Keys(m) == [m[0].key] + Keys(m[1..]);
      PutFresh(m[1..], k, v);
    }
  }

  lemma {:induction false} FindAt<V>(m: seq<Entry<V>>, i: nat)
    requires i < |m| && Distinct(Keys(m))
    ensures Find(m, m[i].key) == Some(m[i].value)
  {
    if i > 0 {
      assert Keys(m)[0] != Keys(m)[i];
      assert Keys(m) == [m[0].key] + Keys(m[1..]);
      FindAt(m[1..], i - 1);
    }
  }
}
