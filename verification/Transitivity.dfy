/**
 * When agreement is transitive. Two things can break it: an array in the middle that lends its `length`, and objects
 * under an explained key. For each there is the exact condition, and a triple that it excludes.
 */
module Transitivity {
  import opened Text
  import opened Assoc
  import opened Json
  import opened Walk
  import opened Agreement

  // ---------------------------------------------------- an array in the middle

  /**
   * Somewhere at the same place the middle value has an array and the outer ones have objects, of which exactly one
   * has a `length` property.
   */
  ghost predicate LengthSplit(a: Value, b: Value, c: Value, pass: set<string>)
    decreases Height(a), 1
  {
    && IsContainer(a) && IsContainer(b) && IsContainer(c)
    && exists k :: (k in OwnKeys(a) || k in OwnKeys(c)) && SplitAt(a, b, c, k, pass)
  }

  ghost predicate SplitAt(a: Value, b: Value, c: Value, k: string, pass: set<string>)
    requires IsContainer(a) && IsContainer(b) && IsContainer(c)
    decreases Height(a), 0
  {
    || (k == "length" && a.Obj? && b.Arr? && c.Obj? && (k in OwnKeys(a) <==> k !in OwnKeys(c)))
    || (&& k !in pass && k in OwnKeys(a) && k in OwnKeys(b) && k in OwnKeys(c)
        && Height(Get(a, k)) < Height(a) && LengthSplit(Get(a, k), Get(b, k), Get(c, k), pass))
  }

  /** A key in force on one side of an agreement is in force on the other, or is the `length` of an array there. */
  lemma {:induction false} KeyCarries(x: Value, y: Value, k: string, pass: set<string>)
    requires IsContainer(x) && IsContainer(y) && IsJson(x) && IsJson(y) && Agrees(x, y, false, pass)
    requires k !in pass && (k in OwnKeys(x) || k in OwnKeys(y))
    ensures Agrees(Get(x, k), Get(y, k), false, pass)
    ensures k in OwnKeys(x) || (k == "length" && x.Arr?)
    ensures k in OwnKeys(y) || (k == "length" && y.Arr?)
    ensures k in OwnKeys(x) ==> IsJson(Get(x, k))
    ensures k in OwnKeys(y) ==> IsJson(Get(y, k))
  {
    OwnProperty(x, k);
    OwnProperty(y, k);
    if x.Arr? && y.Arr? {
      assert OwnKeys(x) == OwnKeys(y);
      var i :| 0 <= i < |x.items| && Decimal(i) == k;
      ItemKey(x.items, i);
      ItemKey(y.items, i);
    }
  }

  /** The three values at one key, when the induction hypothesis is known there. */
  ghost predicate TransitiveAt(a: Value, b: Value, c: Value, pass: set<string>) {
    Agrees(a, c, false, pass) <==> !LengthSplit(a, b, c, pass)
  }

  lemma {:induction false} TransitiveKey(a: Value, b: Value, c: Value, k: string, pass: set<string>)
    requires IsContainer(a) && IsContainer(b) && IsContainer(c) && !(a.Arr? && c.Arr?) && OrdinaryKeys(pass)
    requires Comparable(a, pass) && IsJson(b) && Comparable(c, pass)
    requires Agrees(a, b, false, pass) && Agrees(b, c, false, pass)
    requires k in OwnKeys(a) || k in OwnKeys(c)
    requires k !in pass && k in OwnKeys(a) && k in OwnKeys(b) && k in OwnKeys(c) ==>
             TransitiveAt(Get(a, k), Get(b, k), Get(c, k), pass)
    ensures Agrees(Get(a, k), Get(c, k), k in pass, pass) <==> !SplitAt(a, b, c, k, pass)
  {
    GetLower(a, k);
    OwnFlat(a, k, pass);
    OwnFlat(c, k, pass);
    if k in pass {
      FlatAgrees(Get(a, k), Get(c, k), pass);
    } else if k == "length" {
      TransitiveLength(a, b, c, pass);
    } else {
      if k in OwnKeys(a) {
        KeyCarries(a, b, k, pass);
        KeyCarries(b, c, k, pass);
      } else {
        KeyCarries(b, c, k, pass);
        KeyCarries(a, b, k, pass);
      }
    }
  }

  lemma {:induction false} TransitiveLength(a: Value, b: Value, c: Value, pass: set<string>)
    requires IsContainer(a) && IsContainer(b) && IsContainer(c) && !(a.Arr? && c.Arr?) && "length" !in pass
    requires IsJson(a) && IsJson(b) && IsJson(c) && Agrees(a, b, false, pass) && Agrees(b, c, false, pass)
    requires "length" in OwnKeys(a) || "length" in OwnKeys(c)
    requires "length" in OwnKeys(a) && "length" in OwnKeys(b) && "length" in OwnKeys(c) ==>
               TransitiveAt(Get(a, "length"), Get(b, "length"), Get(c, "length"), pass)
    ensures Agrees(Get(a, "length"), Get(c, "length"), false, pass) <==> !SplitAt(a, b, c, "length", pass)
  {
    GetLower(a, "length");
    OwnProperty(a, "length");
    OwnProperty(c, "length");
    if a.Arr? { LengthIsNoItem(a.items); }
    if b.Arr? { LengthIsNoItem(b.items); }
    if c.Arr? { LengthIsNoItem(c.items); }
    if "length" in OwnKeys(a) {
      KeyCarries(a, b, "length", pass);
    }
    if "length" in OwnKeys(c) {
      KeyCarries(b, c, "length", pass);
    }
    if "length" in OwnKeys(b) {
      KeyCarries(a, b, "length", pass);
      KeyCarries(b, c, "length", pass);
    }
  }

  lemma {:induction false} SameIndices(xs: seq<Value>, b: Value, ys: seq<Value>, pass: set<string>)
    requires IsContainer(b) && IsJson(Arr(xs)) && IsJson(b) && IsJson(Arr(ys)) && OrdinaryKeys(pass)
    requires Agrees(Arr(xs), b, false, pass) && Agrees(b, Arr(ys), false, pass)
    ensures |xs| == |ys|
  {
    var a, c := Arr(xs), Arr(ys);
    if |xs| < |ys| {
      ItemKey(ys, |xs|);
      NotAnItem(xs, |xs|);
      KeyCarries(b, c, Decimal(|xs|), pass);
      KeyCarries(a, b, Decimal(|xs|), pass);
    } else if |ys| < |xs| {
      ItemKey(xs, |ys|);
      NotAnItem(ys, |ys|);
      KeyCarries(a, b, Decimal(|ys|), pass);
      KeyCarries(b, c, Decimal(|ys|), pass);
    }
  }

  /** Agreement carried over a middle value, which may hold anything under the excused keys. */
  lemma {:induction false} AgreesTransitive(a: Value, b: Value, c: Value, pass: set<string>)
    requires Comparable(a, pass) && IsJson(b) && Comparable(c, pass) && OrdinaryKeys(pass)
    requires Agrees(a, b, false, pass) && Agrees(b, c, false, pass)
    ensures TransitiveAt(a, b, c, pass)
    decreases Height(a), 2
  {
    if IsContainer(a) && IsContainer(b) && IsContainer(c) {
      if a.Arr? && c.Arr? {
        ArraysTransitive(a.items, b, c.items, pass);
      } else {
        forall k | k in OwnKeys(a) || k in OwnKeys(c)
          ensures Height(Get(a, k)) < Height(a)
          ensures Agrees(Get(a, k), Get(c, k), k in pass, pass) <==> !SplitAt(a, b, c, k, pass)
        {
          PropertyTransitive(a, b, c, k, pass);
        }
      }
    }
  }

  lemma {:induction false} PropertyTransitive(a: Value, b: Value, c: Value, k: string, pass: set<string>)
    requires IsContainer(a) && IsContainer(b) && IsContainer(c) && !(a.Arr? && c.Arr?) && OrdinaryKeys(pass)
    requires Comparable(a, pass) && IsJson(b) && Comparable(c, pass)
    requires Agrees(a, b, false, pass) && Agrees(b, c, false, pass)
    requires k in OwnKeys(a) || k in OwnKeys(c)
    ensures Height(Get(a, k)) < Height(a)
    ensures Agrees(Get(a, k), Get(c, k), k in pass, pass) <==> !SplitAt(a, b, c, k, pass)
    decreases Height(a), 1
  {
    GetLower(a, k);
    if k !in pass && k in OwnKeys(a) && k in OwnKeys(b) && k in OwnKeys(c) {
      ChildTransitive(a, b, c, k, pass);
    }
    TransitiveKey(a, b, c, k, pass);
  }

  lemma {:induction false} ChildTransitive(a: Value, b: Value, c: Value, k: string, pass: set<string>)
    requires IsContainer(a) && IsContainer(b) && IsContainer(c) && OrdinaryKeys(pass)
    requires Comparable(a, pass) && IsJson(b) && Comparable(c, pass)
    requires Agrees(a, b, false, pass) && Agrees(b, c, false, pass)
    requires k !in pass && k in OwnKeys(a) && k in OwnKeys(b) && k in OwnKeys(c)
    ensures TransitiveAt(Get(a, k), Get(b, k), Get(c, k), pass)
    decreases Height(a), 0
  {
    GetLower(a, k);
    KeyCarries(a, b, k, pass);
    KeyCarries(b, c, k, pass);
    OwnFlat(a, k, pass);
    OwnFlat(c, k, pass);
    AgreesTransitive(Get(a, k), Get(b, k), Get(c, k), pass);
  }

  lemma {:induction false} ArraysTransitive(xs: seq<Value>, b: Value, ys: seq<Value>, pass: set<string>)
    requires IsContainer(b) && Comparable(Arr(xs), pass) && IsJson(b) && Comparable(Arr(ys), pass) && OrdinaryKeys(pass)
    requires Agrees(Arr(xs), b, false, pass) && Agrees(b, Arr(ys), false, pass)
    ensures TransitiveAt(Arr(xs), b, Arr(ys), pass)
    decreases Height(Arr(xs)), 1
  {
    var a, c := Arr(xs), Arr(ys);
    SameIndices(xs, b, ys, pass);
    assert OwnKeys(a) == OwnKeys(c);
    forall i | 0 <= i < |xs|
      ensures Decimal(i) in OwnKeys(a) && (Agrees(xs[i], ys[i], false, pass) <==> !SplitAt(a, b, c, Decimal(i), pass))
    {
      ItemKey(xs, i);
      ItemKey(ys, i);
      KeyCarries(a, b, Decimal(i), pass);
      GetLower(a, Decimal(i));
      ItemTransitive(xs, b, ys, i, pass);
    }
    forall k | k in OwnKeys(a) ensures exists i :: 0 <= i < |xs| && Decimal(i) == k { }
  }

  lemma {:induction false} ItemTransitive(xs: seq<Value>, b: Value, ys: seq<Value>, i: nat, pass: set<string>)
    requires i < |xs| == |ys| && IsContainer(b)
    requires Comparable(Arr(xs), pass) && IsJson(b) && Comparable(Arr(ys), pass) && OrdinaryKeys(pass)
    requires Agrees(Arr(xs), b, false, pass) && Agrees(b, Arr(ys), false, pass)
    ensures TransitiveAt(xs[i], Get(b, Decimal(i)), ys[i], pass)
    decreases Height(Arr(xs)), 0
  {
    var a, c := Arr(xs), Arr(ys);
    ItemKey(xs, i);
    ItemKey(ys, i);
    KeyCarries(a, b, Decimal(i), pass);
    KeyCarries(b, c, Decimal(i), pass);
    AgreesTransitive(xs[i], Get(b, Decimal(i)), ys[i], pass);
  }

  /**
   * With flat values under the explained keys of the outer values, agreement is transitive if and only if no array
   * in the middle value stands between two objects of which only one has a `length` property.
   */
  lemma {:induction false} AgreeingTransitive(a: Value, b: Value, c: Value)
    requires Comparable(a, EXPLAINED_KEYS) && IsJson(b) && Comparable(c, EXPLAINED_KEYS)
    requires Agreeing(a, b) && Agreeing(b, c)
    ensures Agreeing(a, c) <==> !LengthSplit(a, b, c, EXPLAINED_KEYS)
  {
    ExplainedKeysOrdinary();
    WalkAgrees(a, b, "", None);
    WalkAgrees(b, c, "", None);
    WalkAgrees(a, c, "", None);
    AgreesTransitive(a, b, c, EXPLAINED_KEYS);
  }

  lemma {:induction false} LengthOnly(n: real)
    ensures var c := Obj([Field("length", Num(n))]); OwnKeys(c) == ["length"] && Get(c, "length") == Num(n)
  {
    var c := Obj([Field("length", Num(n))]);
    assert KeysOf(c.fields)[0] == "length" && c.fields[0] == Field("length", Num(n));
  }

  lemma {:induction false} EmptiesAgree(a: Value, b: Value)
    requires IsContainer(a) && IsContainer(b) && !(a.Arr? && b.Arr?) && OwnKeys(a) == [] == OwnKeys(b)
    ensures Agreeing(a, b)
  {
    AgreesByKeys(a, b, false, EXPLAINED_KEYS);
    WalkAgrees(a, b, "", None);
  }

  /** An empty value against `{length: 0}` is decided by what it answers for `length`. */
  lemma {:induction false} EmptyAndLength(a: Value)
    requires IsContainer(a) && OwnKeys(a) == []
    ensures Agreeing(a, Obj([Field("length", Num(0.0))])) <==> Get(a, "length") == Num(0.0)
  {
    var c := Obj([Field("length", Num(0.0))]);
    LengthOnly(0.0);
    ExplainedKeysOrdinary();
    OneKeyDecides(a, c, "length");
    WalkAgrees(a, c, "", None);
  }

  lemma {:induction false} OneKeyDecides(a: Value, c: Value, k: string)
    requires IsContainer(a) && c.Obj? && OwnKeys(a) == [] && OwnKeys(c) == [k] && k !in EXPLAINED_KEYS
    requires !IsContainer(Get(c, k))
    ensures Agrees(a, c, false, EXPLAINED_KEYS) <==> Get(a, k) == Get(c, k)
  {
    assert forall j :: j in BothKeys(a, c) <==> j == k;
    AgreesByKeys(a, c, false, EXPLAINED_KEYS);
  }

  /** When one does, it is not: `{}` agrees with `[]` and `[]` with `{length: 0}`, but not `{}` with `{length: 0}`. */
  lemma {:induction false} LengthBreaksTransitivity()
    ensures var a, b, c := Obj([]), Arr([]), Obj([Field("length", Num(0.0))]);
            && (forall v :: v in {a, b, c} ==> Comparable(v, EXPLAINED_KEYS))
            && Agreeing(a, b) && Agreeing(b, c) && !Agreeing(a, c)
  {
    var a, b, c := Obj([]), Arr([]), Obj([Field("length", Num(0.0))]);
    EmptyReads();
    EmptiesAgree(a, b);
    EmptyAndLength(b);
    EmptyAndLength(a);
    EmptiesComparable();
  }

  lemma {:induction false} EmptyReads()
    ensures OwnKeys(Obj([])) == [] == OwnKeys(Arr([]))
    ensures Get(Obj([]), "length") == Undefined && Get(Arr([]), "length") == Num(0.0)
  {
  }

  lemma {:induction false} EmptiesComparable()
    ensures Comparable(Obj([]), EXPLAINED_KEYS) && Comparable(Arr([]), EXPLAINED_KEYS)
    ensures Comparable(Obj([Field("length", Num(0.0))]), EXPLAINED_KEYS)
  {
    var c := Obj([Field("length", Num(0.0))]);
    ExplainedKeysOrdinary();
    assert c.fields[0] == Field("length", Num(0.0));
  }

  function Single(k: string, v: Value): Value {
    Obj([Field(k, v)])
  }

  lemma {:induction false} SingleAgrees(k: string, v: Value, w: Value, under: bool)
    ensures Agrees(Single(k, v), Single(k, w), under, EXPLAINED_KEYS)
            <==> Agrees(v, w, k in EXPLAINED_KEYS, EXPLAINED_KEYS)
  {
    var a, b := Single(k, v), Single(k, w);
    assert OwnKeys(a)[0] == k && OwnKeys(a) == [k] == OwnKeys(b);
    assert a.fields[0] == Field(k, v) && b.fields[0] == Field(k, w);
    assert Get(a, k) == v && Get(b, k) == w;
    assert k in BothKeys(a, b);
    AgreesByKeys(a, b, under, EXPLAINED_KEYS);
  }

  /**
   * Without flat explained values agreement is not transitive: `{x: m}`, a number and `{x: n}` under any
   * explained key, such as `cursor`.
   */
  lemma {:induction false} AgreeingNotTransitive(k: string, x: string, m: real, n: real)
    requires k in EXPLAINED_KEYS && x !in EXPLAINED_KEYS && m != n
    ensures var a, b, c := Single(k, Single(x, Num(m))), Single(k, Num(m)), Single(k, Single(x, Num(n)));
            Agreeing(a, b) && Agreeing(b, c) && !Agreeing(a, c)
  {
    var v, u, w := Single(x, Num(m)), Num(m), Single(x, Num(n));
    SingleAgrees(k, v, u, false);
    SingleAgrees(k, u, w, false);
    SingleAgrees(k, v, w, false);
    SingleAgrees(x, Num(m), Num(n), true);
    WalkAgrees(Single(k, v), Single(k, u), "", None);
    WalkAgrees(Single(k, u), Single(k, w), "", None);
    WalkAgrees(Single(k, v), Single(k, w), "", None);
  }

  // ------------------------------------------------- agreement in two steps

  /** Agreement without a clash means equal trees, whatever is under the excused keys. */
  lemma {:induction false} SilentSameTree(a: Value, b: Value, pass: set<string>)
    requires IsJson(a) && IsJson(b) && OrdinaryKeys(pass)
    requires Agrees(a, b, false, pass) && !LengthClash(a, b, pass)
    ensures TreeOf(a, pass) == TreeOf(b, pass)
    decreases Height(a)
  {
    if IsContainer(a) && IsContainer(b) {
      forall k ensures k !in pass ==> (k in OwnKeys(a) <==> k in OwnKeys(b))
        ensures k in OwnKeys(a) && k in OwnKeys(b) && k !in pass ==> TreeOf(Get(a, k), pass) == TreeOf(Get(b, k), pass)
      {
        if k !in pass && (k in OwnKeys(a) || k in OwnKeys(b)) {
          SilentProperty(a, b, k, pass);
          if k in OwnKeys(a) && k in OwnKeys(b) {
            SilentSameTree(Get(a, k), Get(b, k), pass);
          }
        }
      }
      TreesEqual(a, b, pass);
    }
  }

  /** A property that agrees without a clash is there on both sides, and its values agree without a clash. */
  lemma {:induction false} SilentProperty(a: Value, b: Value, k: string, pass: set<string>)
    requires IsContainer(a) && IsContainer(b) && IsJson(a) && IsJson(b)
    requires Agrees(a, b, false, pass) && !LengthClash(a, b, pass)
    requires k !in pass && (k in OwnKeys(a) || k in OwnKeys(b))
    ensures k in OwnKeys(a) && k in OwnKeys(b) && IsJson(Get(a, k)) && IsJson(Get(b, k))
            && Height(Get(a, k)) < Height(a)
    ensures Agrees(Get(a, k), Get(b, k), false, pass) && !LengthClash(Get(a, k), Get(b, k), pass)
  {
    GetLower(a, k);
    OwnProperty(a, k);
    OwnProperty(b, k);
    if a.Arr? && b.Arr? {
      assert OwnKeys(a) == OwnKeys(b);
      var i :| 0 <= i < |a.items| && Decimal(i) == k;
      ItemKey(a.items, i);
      ItemKey(b.items, i);
    }
  }

  /** Equal trees never clash. */
  lemma {:induction false} SameTreeNoClash(a: Value, b: Value, pass: set<string>)
    requires OrdinaryKeys(pass) && TreeOf(a, pass) == TreeOf(b, pass)
    ensures !LengthClash(a, b, pass)
    decreases Height(a)
  {
    if IsContainer(a) && IsContainer(b) {
      TreesEqual(a, b, pass);
      if a.Arr? { LengthIsNoItem(a.items); }
      if b.Arr? { LengthIsNoItem(b.items); }
      forall k | k in OwnKeys(a) && k in OwnKeys(b) && k !in pass && Height(Get(a, k)) < Height(a)
        ensures !LengthClash(Get(a, k), Get(b, k), pass)
      {
        SameTreeNoClash(Get(a, k), Get(b, k), pass);
      }
    }
  }

  /** The excused keys hold no arrays or objects. */
  ghost predicate ScalarUnder(v: Value, pass: set<string>)
    decreases Height(v)
  {
    IsContainer(v) ==> forall k :: k in OwnKeys(v) ==>
      if k in pass then !IsContainer(Get(v, k)) else Height(Get(v, k)) < Height(v) && ScalarUnder(Get(v, k), pass)
  }

  lemma {:induction false} SameLength(xs: seq<Value>, ys: seq<Value>, pass: set<string>)
    requires OrdinaryKeys(pass) && SameNames(Arr(xs), Arr(ys), pass)
    ensures |xs| == |ys|
  {
    if |xs| < |ys| {
      ItemKey(ys, |xs|);
      NotAnItem(xs, |xs|);
    } else if |ys| < |xs| {
      ItemKey(xs, |ys|);
      NotAnItem(ys, |ys|);
    }
  }

  /** A value with scalars under the excused keys agrees with every value that has the same tree. */
  lemma {:induction false} ScalarAgrees(v: Value, c: Value, pass: set<string>)
    requires OrdinaryKeys(pass) && ScalarUnder(v, pass) && TreeOf(v, pass) == TreeOf(c, pass)
    ensures Agrees(v, c, false, pass)
    decreases Height(v)
  {
    if IsContainer(v) && IsContainer(c) {
      TreesEqual(v, c, pass);
      if v.Arr? && c.Arr? {
        SameLength(v.items, c.items, pass);
        forall i | 0 <= i < |v.items| ensures Agrees(v.items[i], c.items[i], false, pass) {
          ItemKey(v.items, i);
          ItemKey(c.items, i);
          ScalarAgrees(v.items[i], c.items[i], pass);
        }
      } else {
        forall k | k in OwnKeys(v) || k in OwnKeys(c)
          ensures Height(Get(v, k)) < Height(v) && Agrees(Get(v, k), Get(c, k), k in pass, pass)
        {
          ScalarKey(v, c, k, pass);
          if k !in pass {
            ScalarAgrees(Get(v, k), Get(c, k), pass);
          }
        }
      }
    }
  }

  lemma {:induction false} ScalarKey(v: Value, c: Value, k: string, pass: set<string>)
    requires IsContainer(v) && IsContainer(c) && OrdinaryKeys(pass) && ScalarUnder(v, pass)
    requires SameNames(v, c, pass) && SameKids(v, c, pass) && (k in OwnKeys(v) || k in OwnKeys(c))
    ensures Height(Get(v, k)) < Height(v)
    ensures k in pass ==> Agrees(Get(v, k), Get(c, k), true, pass)
    ensures k !in pass ==> ScalarUnder(Get(v, k), pass) && TreeOf(Get(v, k), pass) == TreeOf(Get(c, k), pass)
  {
    GetLower(v, k);
    if k in pass && k !in OwnKeys(v) {
      assert !IsContainer(Get(v, k));
    }
  }

  /** The value without the excused keys. */
  function Pruned(v: Value, pass: set<string>): Value
    decreases v, 0
  {
    match v
    case Arr(xs) => Arr(seq(|xs|, i requires 0 <= i < |xs| => Pruned(xs[i], pass)))
    case Obj(fs) => Obj(PrunedFields(fs, pass))
    case _ => v
  }

  function PrunedFields(fs: seq<Field>, pass: set<string>): seq<Field>
    decreases fs, 1
  {
    if fs == [] then []
    else
      var n := |fs| - 1;
      PrunedFields(fs[..n], pass) + if fs[n].key in pass then [] else [Field(fs[n].key, Pruned(fs[n].val, pass))]
  }

  lemma {:induction false} LastKey(fs: seq<Field>, f: Field, k: string)
    ensures k in KeysOf(fs + [f]) <==> k == f.key || k in KeysOf(fs)
    ensures Lookup(fs + [f], k) == if k == f.key then f.val else Lookup(fs, k)
  {
    assert (fs + [f])[..|fs|] == fs;
    assert KeysOf(fs + [f]) == KeysOf(fs) + [f.key];
  }

  lemma {:induction false} PrunedKeys(fs: seq<Field>, pass: set<string>, k: string)
    ensures k in KeysOf(PrunedFields(fs, pass)) <==> k in KeysOf(fs) && k !in pass
    ensures k !in pass ==> Lookup(PrunedFields(fs, pass), k) == Pruned(Lookup(fs, k), pass)
    decreases fs
  {
    if fs != [] {
      var n := |fs| - 1;
      var gs, g := PrunedFields(fs[..n], pass), Field(fs[n].key, Pruned(fs[n].val, pass));
      PrunedKeys(fs[..n], pass, k);
      assert fs == fs[..n] + [fs[n]];
      LastKey(fs[..n], fs[n], k);
      LastKey(gs, g, k);
      assert PrunedFields(fs, pass) == if fs[n].key in pass then gs + [] else gs + [g];
      assert gs + [] == gs;
    }
  }

  lemma {:induction false} PrunedJson(v: Value, pass: set<string>)
    requires IsJson(v)
    ensures IsJson(Pruned(v, pass))
    decreases v, 0
  {
    match v
    case Arr(xs) => forall i | 0 <= i < |xs| ensures IsJson(Pruned(xs[i], pass)) { PrunedJson(xs[i], pass); }
    case Obj(fs) => PrunedFieldsJson(fs, pass);
    case _ =>
  }

  lemma {:induction false} PrunedFieldsJson(fs: seq<Field>, pass: set<string>)
    requires forall i :: 0 <= i < |fs| ==> IsJson(fs[i].val)
    ensures forall i :: 0 <= i < |PrunedFields(fs, pass)| ==> IsJson(PrunedFields(fs, pass)[i].val)
    decreases fs, 1
  {
    if fs != [] {
      var n := |fs| - 1;
      PrunedFieldsJson(fs[..n], pass);
      PrunedJson(fs[n].val, pass);
    }
  }

  /** Reading a property of the pruned value. */
  lemma {:induction false} PrunedGet(v: Value, pass: set<string>, k: string)
    requires IsContainer(v) && OrdinaryKeys(pass)
    ensures var m := Pruned(v, pass);
            && IsContainer(m) && m.Arr? == v.Arr?
            && (k in OwnKeys(m) <==> k in OwnKeys(v) && k !in pass)
            && (k in pass ==> Get(m, k) == Undefined)
            && (k in OwnKeys(m) ==> Get(m, k) == Pruned(Get(v, k), pass))
  {
    match v
    case Arr(xs) =>
      assert OwnKeys(Pruned(v, pass)) == OwnKeys(v);
      if k in OwnKeys(v) {
        var i :| 0 <= i < |xs| && Decimal(i) == k;
        ItemKey(xs, i);
      }
    case Obj(fs) => PrunedKeys(fs, pass, k);
  }

  lemma {:induction false} PrunedTree(v: Value, pass: set<string>)
    requires OrdinaryKeys(pass)
    ensures TreeOf(Pruned(v, pass), pass) == TreeOf(v, pass)
    decreases Height(v)
  {
    if IsContainer(v) {
      var m := Pruned(v, pass);
      forall k ensures IsContainer(m) && (k !in pass ==> (k in OwnKeys(m) <==> k in OwnKeys(v)))
        ensures k in OwnKeys(m) && k in OwnKeys(v) && k !in pass ==> TreeOf(Get(m, k), pass) == TreeOf(Get(v, k), pass)
      {
        PrunedGet(v, pass, k);
        GetLower(v, k);
        if k in OwnKeys(m) {
          PrunedTree(Get(v, k), pass);
        }
      }
      TreesEqual(m, v, pass);
    }
  }

  lemma {:induction false} PrunedScalar(v: Value, pass: set<string>)
    requires OrdinaryKeys(pass)
    ensures ScalarUnder(Pruned(v, pass), pass)
    decreases Height(v)
  {
    if IsContainer(v) {
      var m := Pruned(v, pass);
      forall k | k in OwnKeys(m) ensures k !in pass && Height(Get(m, k)) < Height(m) && ScalarUnder(Get(m, k), pass) {
        PrunedGet(v, pass, k);
        GetLower(m, k);
        GetLower(v, k);
        PrunedScalar(Get(v, k), pass);
      }
    }
  }

  /** The two values agree, and no array of one meets a `length` property of the other. */
  ghost predicate AgreeingPlainly(a: Value, b: Value) {
    Agreeing(a, b) && !LengthClash(a, b, EXPLAINED_KEYS)
  }

  /**
   * Agreement in two steps is exactly equality after erasing the explained keys, whatever those keys hold: a third
   * value links the two if and only if their trees are the same.
   */
  lemma {:induction false} LinkedExact(a: Value, c: Value)
    requires IsJson(a) && IsJson(c)
    ensures TreeOf(a, EXPLAINED_KEYS) == TreeOf(c, EXPLAINED_KEYS) <==>
            exists m :: IsJson(m) && AgreeingPlainly(a, m) && AgreeingPlainly(m, c)
  {
    ExplainedKeysOrdinary();
    if m :| IsJson(m) && AgreeingPlainly(a, m) && AgreeingPlainly(m, c) {
      PlainlySameTree(a, m);
      PlainlySameTree(m, c);
    }
    if TreeOf(a, EXPLAINED_KEYS) == TreeOf(c, EXPLAINED_KEYS) {
      var m := Pruned(a, EXPLAINED_KEYS);
      PrunedJson(a, EXPLAINED_KEYS);
      PrunedLinks(a, a);
      PrunedLinks(a, c);
      AgreeingSymmetric(m, a);
      PrunedTree(a, EXPLAINED_KEYS);
      SameTreeNoClash(a, m, EXPLAINED_KEYS);
    }
  }

  lemma {:induction false} PlainlySameTree(a: Value, b: Value)
    requires IsJson(a) && IsJson(b) && AgreeingPlainly(a, b)
    ensures TreeOf(a, EXPLAINED_KEYS) == TreeOf(b, EXPLAINED_KEYS)
  {
    ExplainedKeysOrdinary();
    WalkAgrees(a, b, "", None);
    SilentSameTree(a, b, EXPLAINED_KEYS);
  }

  lemma {:induction false} PrunedLinks(a: Value, c: Value)
    requires TreeOf(a, EXPLAINED_KEYS) == TreeOf(c, EXPLAINED_KEYS)
    ensures AgreeingPlainly(Pruned(a, EXPLAINED_KEYS), c)
  {
    var m := Pruned(a, EXPLAINED_KEYS);
    ExplainedKeysOrdinary();
    PrunedTree(a, EXPLAINED_KEYS);
    PrunedScalar(a, EXPLAINED_KEYS);
    ScalarAgrees(m, c, EXPLAINED_KEYS);
    WalkAgrees(m, c, "", None);
    SameTreeNoClash(m, c, EXPLAINED_KEYS);
  }

  // --------------------------------------------- objects under an explained key

  /** A value that disagrees with the container `v`, even under an excused key. */
  function Clashing(v: Value): Value
    requires IsContainer(v)
  {
    Single("x", if Get(v, "x") == Null then Bool(true) else Null)
  }

  lemma {:induction false} ClashingDisagrees(v: Value, pass: set<string>)
    requires IsContainer(v) && "x" !in pass
    ensures !Agrees(v, Clashing(v), true, pass) && IsJson(Clashing(v))
  {
    var w := Clashing(v);
    assert OwnKeys(w)[0] == "x" && w.fields[0].key == "x" && Get(w, "x") == w.fields[0].val;
    assert "x" in BothKeys(v, w) && !Agrees(Get(v, "x"), Get(w, "x"), false, pass);
    AgreesByKeys(v, w, true, pass);
  }

  /** The value with everything that is not a scalar under the excused keys changed. */
  function Twisted(v: Value, pass: set<string>): Value
    decreases v, 0
  {
    match v
    case Arr(xs) => Arr(seq(|xs|, i requires 0 <= i < |xs| => Twisted(xs[i], pass)))
    case Obj(fs) => Obj(TwistedFields(fs, pass))
    case _ => v
  }

  function TwistedFields(fs: seq<Field>, pass: set<string>): seq<Field>
    decreases fs, 1
  {
    if fs == [] then []
    else
      var n := |fs| - 1;
      TwistedFields(fs[..n], pass) + [Field(fs[n].key, TwistedAt(fs[n].key, fs[n].val, pass))]
  }

  function TwistedAt(k: string, v: Value, pass: set<string>): Value
    decreases v, 1
  {
    if k !in pass then Twisted(v, pass) else if IsContainer(v) then Clashing(v) else v
  }

  lemma {:induction false} TwistedKeys(fs: seq<Field>, pass: set<string>, k: string)
    ensures k in KeysOf(TwistedFields(fs, pass)) <==> k in KeysOf(fs)
    ensures k in KeysOf(fs) ==> Lookup(TwistedFields(fs, pass), k) == TwistedAt(k, Lookup(fs, k), pass)
    decreases fs
  {
    if fs != [] {
      var n := |fs| - 1;
      TwistedKeys(fs[..n], pass, k);
      assert fs == fs[..n] + [fs[n]];
      LastKey(fs[..n], fs[n], k);
      LastKey(TwistedFields(fs[..n], pass), Field(fs[n].key, TwistedAt(fs[n].key, fs[n].val, pass)), k);
    }
  }

  lemma {:induction false} TwistedJson(v: Value, pass: set<string>)
    requires IsJson(v) && "x" !in pass
    ensures IsJson(Twisted(v, pass))
    decreases v, 0
  {
    match v
    case Arr(xs) => forall i | 0 <= i < |xs| ensures IsJson(Twisted(xs[i], pass)) { TwistedJson(xs[i], pass); }
    case Obj(fs) => TwistedFieldsJson(fs, pass);
    case _ =>
  }

  lemma {:induction false} TwistedFieldsJson(fs: seq<Field>, pass: set<string>)
    requires "x" !in pass && forall i :: 0 <= i < |fs| ==> IsJson(fs[i].val)
    ensures forall i :: 0 <= i < |TwistedFields(fs, pass)| ==> IsJson(TwistedFields(fs, pass)[i].val)
    decreases fs, 1
  {
    if fs != [] {
      var n := |fs| - 1;
      TwistedFieldsJson(fs[..n], pass);
      TwistedJson(fs[n].val, pass);
      if IsContainer(fs[n].val) {
        ClashingDisagrees(fs[n].val, pass);
      }
    }
  }

  /** Reading a property of the twisted value. */
  lemma {:induction false} TwistedGet(v: Value, pass: set<string>, k: string)
    requires IsContainer(v) && OrdinaryKeys(pass)
    ensures var m := Twisted(v, pass);
            && IsContainer(m) && m.Arr? == v.Arr?
            && (k in OwnKeys(m) <==> k in OwnKeys(v))
            && (k in OwnKeys(v) ==> Get(m, k) == TwistedAt(k, Get(v, k), pass))
  {
    match v
    case Arr(xs) =>
      assert OwnKeys(Twisted(v, pass)) == OwnKeys(v);
      if k in OwnKeys(v) {
        var i :| 0 <= i < |xs| && Decimal(i) == k;
        ItemKey(xs, i);
      }
    case Obj(fs) => TwistedKeys(fs, pass, k);
  }

  lemma {:induction false} TwistedTree(v: Value, pass: set<string>)
    requires OrdinaryKeys(pass)
    ensures TreeOf(Twisted(v, pass), pass) == TreeOf(v, pass)
    decreases Height(v)
  {
    if IsContainer(v) {
      var m := Twisted(v, pass);
      forall k ensures IsContainer(m) && (k in OwnKeys(m) <==> k in OwnKeys(v))
        ensures k in OwnKeys(v) && k !in pass ==> TreeOf(Get(m, k), pass) == TreeOf(Get(v, k), pass)
      {
        TwistedGet(v, pass, k);
        GetLower(v, k);
        if k in OwnKeys(v) && k !in pass {
          TwistedTree(Get(v, k), pass);
        }
      }
      TreesEqual(m, v, pass);
    }
  }

  /** A value that has a container under an excused key disagrees with its twisted form. */
  lemma {:induction false} TwistedDisagrees(v: Value, pass: set<string>)
    requires OrdinaryKeys(pass) && "x" !in pass && !ScalarUnder(v, pass)
    ensures !Agrees(v, Twisted(v, pass), false, pass)
    decreases Height(v)
  {
    var m := Twisted(v, pass);
    var k :| k in OwnKeys(v)
      && !(if k in pass then !IsContainer(Get(v, k))
           else Height(Get(v, k)) < Height(v) && ScalarUnder(Get(v, k), pass));
    GetLower(v, k);
    TwistedGet(v, pass, k);
    if k in pass {
      ClashingDisagrees(Get(v, k), pass);
    } else {
      TwistedDisagrees(Get(v, k), pass);
    }
    if v.Arr? {
      var i :| 0 <= i < |v.items| && Decimal(i) == k;
      ItemKey(v.items, i);
      ItemKey(m.items, i);
    }
  }

  /** Whatever agrees with `a` in two steps without a clash agrees with it. */
  ghost predicate TransitiveFrom(a: Value) {
    forall m: Value, c: Value :: IsJson(m) && IsJson(c) && AgreeingPlainly(a, m) && AgreeingPlainly(m, c) ==>
      Agreeing(a, c)
  }

  /** Apart from `length`, agreement is transitive from a value if and only if its explained keys hold scalars. */
  lemma {:induction false} TransitiveExactly(a: Value)
    requires IsJson(a)
    ensures TransitiveFrom(a) <==> ScalarUnder(a, EXPLAINED_KEYS)
  {
    ExplainedKeysOrdinary();
    if ScalarUnder(a, EXPLAINED_KEYS) {
      forall m: Value, c: Value | IsJson(m) && IsJson(c) && AgreeingPlainly(a, m) && AgreeingPlainly(m, c)
        ensures Agreeing(a, c)
      {
        LinkedExact(a, c);
        ScalarAgrees(a, c, EXPLAINED_KEYS);
        WalkAgrees(a, c, "", None);
      }
    } else {
      TwistedLink(a);
    }
  }

  lemma {:induction false} NotAgreeing(a: Value, c: Value)
    requires !Agrees(a, c, false, EXPLAINED_KEYS)
    ensures !Agreeing(a, c)
  {
    WalkAgrees(a, c, "", None);
  }

  lemma {:induction false} PlainKey()
    ensures "x" !in EXPLAINED_KEYS
  {
  }

  lemma {:induction false} TwistedLink(a: Value)
    requires IsJson(a) && !ScalarUnder(a, EXPLAINED_KEYS)
    ensures !TransitiveFrom(a)
  {
    var c := Twisted(a, EXPLAINED_KEYS);
    ExplainedKeysOrdinary();
    PlainKey();
    TwistedJson(a, EXPLAINED_KEYS);
    TwistedTree(a, EXPLAINED_KEYS);
    TwistedDisagrees(a, EXPLAINED_KEYS);
    NotAgreeing(a, c);
    LinkedExact(a, c);
  }
}
