/**
 * The meaning of a silent `walk`. A value is read as a tree whose array items are properties named by
 * their index; `walk` is compared with equality of those trees, with a set of keys erased.
 */
module Agreement {
  import opened Text
  import opened Assoc
  import opened Json
  import opened Matching
  import opened Walk

  datatype Tree = Leaf(v: Value) | Node(kids: map<string, Tree>)

  /** The tree of `v` without the properties named in `erase`. */
  ghost function TreeOf(v: Value, erase: set<string>): Tree
    decreases Height(v)
  {
    if IsContainer(v) then
      Node(map k | k in OwnKeys(v) && k !in erase :: GetLower(v, k); TreeOf(Get(v, k), erase))
    else Leaf(v)
  }

  /** `walk` finds nothing between `a` and `b` outside the keys of `pass`; `under` says that one of them is in force. */
  ghost predicate Agrees(a: Value, b: Value, under: bool, pass: set<string>)
    decreases Height(a)
  {
    if a.Arr? && b.Arr? then
      if |a.items| != |b.items| then under
      else forall i :: 0 <= i < |a.items| ==> Agrees(a.items[i], b.items[i], under, pass)
    else if IsContainer(a) && IsContainer(b) then
      forall k :: k in OwnKeys(a) || k in OwnKeys(b) ==>
        Height(Get(a, k)) < Height(a) && Agrees(Get(a, k), Get(b, k), k in pass, pass)
    else a == b || under
  }

  lemma {:induction false} AgreesByKeys(a: Value, b: Value, under: bool, pass: set<string>)
    requires IsContainer(a) && IsContainer(b) && !(a.Arr? && b.Arr?)
    ensures Agrees(a, b, under, pass)
            <==> forall k :: k in BothKeys(a, b) ==> Agrees(Get(a, k), Get(b, k), k in pass, pass)
  {
    forall k ensures Height(Get(a, k)) < Height(a) {
      GetLower(a, k);
    }
  }

  // ------------------------------------------------ walk decides agreement

  ghost predicate AllExplained(ds: seq<Difference>) {
    forall d :: d in ds ==> d.explained
  }

  /** `walk` leaves nothing unexplained exactly when its arguments agree outside the explained keys. */
  lemma {:induction false} WalkAgrees(a: Value, b: Value, path: string, key: Key)
    ensures AllExplained(Walks(a, b, path, key)) <==> Agrees(a, b, IsExplained(key), EXPLAINED_KEYS)
    decreases Height(a), 1, 0
  {
    if a.Arr? && b.Arr? {
      if |a.items| == |b.items| {
        ItemsAgree(a.items, b.items, 0, path, key);
      } else {
        assert Found(path, Num(|a.items| as real), Num(|b.items| as real), key) in Walks(a, b, path, key);
      }
    } else if IsContainer(a) && IsContainer(b) {
      KeysAgree(a, b, BothKeys(a, b), path);
      AgreesByKeys(a, b, IsExplained(key), EXPLAINED_KEYS);
    } else if a != b {
      assert Found(path, a, b, key) in Walks(a, b, path, key);
    }
  }

  lemma {:induction false} ItemsAgree(xs: seq<Value>, ys: seq<Value>, at: nat, path: string, key: Key)
    requires |xs| == |ys|
    ensures AllExplained(ItemWalks(xs, ys, at, path, key)) <==>
            forall i :: 0 <= i < |xs| ==> Agrees(xs[i], ys[i], IsExplained(key), EXPLAINED_KEYS)
    decreases 1 + ItemsHeight(xs), 0, |xs|
  {
    if xs != [] {
      WalkAgrees(xs[0], ys[0], At(path, at), key);
      ItemsAgree(xs[1..], ys[1..], at + 1, path, key);
      assert forall i :: 0 < i < |xs| ==> xs[i] == xs[1..][i - 1] && ys[i] == ys[1..][i - 1];
    }
  }

  lemma {:induction false} KeysAgree(a: Value, b: Value, ks: seq<string>, path: string)
    requires IsContainer(a) && IsContainer(b)
    ensures AllExplained(KeyWalks(a, b, ks, path)) <==>
            forall k :: k in ks ==> Agrees(Get(a, k), Get(b, k), k in EXPLAINED_KEYS, EXPLAINED_KEYS)
    decreases Height(a), 0, |ks|
  {
    if ks != [] {
      GetLower(a, ks[0]);
      WalkAgrees(Get(a, ks[0]), Get(b, ks[0]), Dot(path, ks[0]), Some(ks[0]));
      KeysAgree(a, b, ks[1..], path);
    }
  }

  /** `walk` reports nothing at all exactly when its arguments agree with no key excused. */
  lemma {:induction false} WalkSilent(a: Value, b: Value, path: string, key: Key)
    ensures Walks(a, b, path, key) == [] <==> Agrees(a, b, false, {})
    decreases Height(a), 1, 0
  {
    if a.Arr? && b.Arr? {
      if |a.items| == |b.items| { ItemsSilent(a.items, b.items, 0, path, key); }
    } else if IsContainer(a) && IsContainer(b) {
      KeysSilent(a, b, BothKeys(a, b), path);
      AgreesByKeys(a, b, false, {});
    }
  }

  lemma {:induction false} ItemsSilent(xs: seq<Value>, ys: seq<Value>, at: nat, path: string, key: Key)
    requires |xs| == |ys|
    ensures ItemWalks(xs, ys, at, path, key) == [] <==> forall i :: 0 <= i < |xs| ==> Agrees(xs[i], ys[i], false, {})
    decreases 1 + ItemsHeight(xs), 0, |xs|
  {
    if xs != [] {
      WalkSilent(xs[0], ys[0], At(path, at), key);
      ItemsSilent(xs[1..], ys[1..], at + 1, path, key);
      assert forall i :: 0 < i < |xs| ==> xs[i] == xs[1..][i - 1] && ys[i] == ys[1..][i - 1];
    }
  }

  lemma {:induction false} KeysSilent(a: Value, b: Value, ks: seq<string>, path: string)
    requires IsContainer(a) && IsContainer(b)
    ensures KeyWalks(a, b, ks, path) == [] <==> forall k :: k in ks ==> Agrees(Get(a, k), Get(b, k), false, {})
    decreases Height(a), 0, |ks|
  {
    if ks != [] {
      GetLower(a, ks[0]);
      WalkSilent(Get(a, ks[0]), Get(b, ks[0]), Dot(path, ks[0]), Some(ks[0]));
      KeysSilent(a, b, ks[1..], path);
    }
  }

  // ----------------------------------------------- agreement is tree equality

  /** Scalars and nested arrays of scalars. */
  ghost predicate Flat(v: Value)
    decreases v
  {
    match v
    case Arr(xs) => forall i :: 0 <= i < |xs| ==> Flat(xs[i])
    case Obj(_) => false
    case _ => true
  }

  /** The keys of `pass` hold only flat values, everywhere in `v`. */
  ghost predicate FlatUnder(v: Value, pass: set<string>)
    decreases v
  {
    match v
    case Arr(xs) => forall i :: 0 <= i < |xs| ==> FlatUnder(xs[i], pass)
    case Obj(fs) => forall i :: 0 <= i < |fs| ==>
      if fs[i].key in pass then Flat(fs[i].val) else FlatUnder(fs[i].val, pass)
    case _ => true
  }

  /** Somewhere at the same place one value has an array and the other an object with a `length` property. */
  ghost predicate LengthClash(a: Value, b: Value, pass: set<string>)
    decreases Height(a)
  {
    IsContainer(a) && IsContainer(b) &&
    (|| (a.Arr? && b.Obj? && "length" in KeysOf(b.fields))
     || (a.Obj? && b.Arr? && "length" in KeysOf(a.fields))
     || exists k :: k in OwnKeys(a) && k in OwnKeys(b) && k !in pass
                    && Height(Get(a, k)) < Height(a) && LengthClash(Get(a, k), Get(b, k), pass))
  }

  /** Names an array can never use as an item or as its size. */
  ghost predicate OrdinaryKeys(pass: set<string>) {
    forall k :: k in pass ==> !IsIndexKey(k) && k != "length"
  }

  lemma {:induction false} ItemKey(xs: seq<Value>, i: nat)
    requires i < |xs|
    ensures Decimal(i) in OwnKeys(Arr(xs)) && Decimal(i) != "length" && IsIndexKey(Decimal(i))
            && Get(Arr(xs), Decimal(i)) == xs[i]
  {
    DecimalRoundTrip(i);
    assert OwnKeys(Arr(xs))[i] == Decimal(i);
    assert !IsDigit("length"[0]);
  }

  /** In JSON, an own property has a JSON value and everything else but an array's length is undefined. */
  lemma {:induction false} OwnProperty(v: Value, k: string)
    requires IsContainer(v) && IsJson(v)
    ensures k in OwnKeys(v) ==> IsJson(Get(v, k)) && Get(v, k) != Undefined
    ensures k !in OwnKeys(v) && !(v.Arr? && k == "length") ==> Get(v, k) == Undefined
  {
    match v
    case Arr(xs) =>
      if IsIndexKey(k) && ParseDecimal(k) < |xs| {
        assert OwnKeys(v)[ParseDecimal(k)] == k;
      }
      if k in OwnKeys(v) {
        var i :| 0 <= i < |xs| && Decimal(i) == k;
        ItemKey(xs, i);
      }
    case Obj(fs) =>
      if k in OwnKeys(v) {
        var i :| 0 <= i < |fs| && fs[i] == Field(k, Lookup(fs, k));
      }
  }

  lemma {:induction false} OwnFlat(v: Value, k: string, pass: set<string>)
    requires IsContainer(v) && FlatUnder(v, pass) && OrdinaryKeys(pass)
    ensures k in OwnKeys(v) && k !in pass ==> FlatUnder(Get(v, k), pass)
    ensures k in pass ==> Flat(Get(v, k))
  {
    match v
    case Arr(xs) =>
      if k in OwnKeys(v) {
        var i :| 0 <= i < |xs| && Decimal(i) == k;
        ItemKey(xs, i);
      }
    case Obj(fs) =>
      if k in OwnKeys(v) {
        var i :| 0 <= i < |fs| && fs[i] == Field(k, Lookup(fs, k));
      }
  }

  /** Under an excused key flat values always agree. */
  lemma {:induction false} FlatAgrees(a: Value, b: Value, pass: set<string>)
    requires Flat(a) && Flat(b)
    ensures Agrees(a, b, true, pass)
    decreases Height(a)
  {
    if a.Arr? && b.Arr? && |a.items| == |b.items| {
      forall i | 0 <= i < |a.items| ensures Agrees(a.items[i], b.items[i], true, pass) {
        FlatAgrees(a.items[i], b.items[i], pass);
      }
    }
  }

  ghost predicate SameNames(a: Value, b: Value, pass: set<string>)
    requires IsContainer(a) && IsContainer(b)
  {
    forall k :: k !in pass ==> (k in OwnKeys(a) <==> k in OwnKeys(b))
  }

  ghost predicate SameKids(a: Value, b: Value, pass: set<string>)
    requires IsContainer(a) && IsContainer(b)
  {
    forall k :: k in OwnKeys(a) && k in OwnKeys(b) && k !in pass ==> TreeOf(Get(a, k), pass) == TreeOf(Get(b, k), pass)
  }

  lemma {:induction false} Kids(v: Value, pass: set<string>, k: string)
    requires IsContainer(v)
    ensures var kids := TreeOf(v, pass).kids;
            (k in kids <==> k in OwnKeys(v) && k !in pass) && (k in kids ==> kids[k] == TreeOf(Get(v, k), pass))
  {
  }

  /** Equal trees, told property by property. */
  lemma {:induction false} TreesEqual(a: Value, b: Value, pass: set<string>)
    requires IsContainer(a) && IsContainer(b)
    ensures TreeOf(a, pass) == TreeOf(b, pass) <==> SameNames(a, b, pass) && SameKids(a, b, pass)
  {
    if TreeOf(a, pass) == TreeOf(b, pass) {
      forall k ensures k !in pass ==> (k in OwnKeys(a) <==> k in OwnKeys(b))
        ensures k in OwnKeys(a) && k in OwnKeys(b) && k !in pass ==> TreeOf(Get(a, k), pass) == TreeOf(Get(b, k), pass)
      {
        Kids(a, pass, k);
        Kids(b, pass, k);
      }
    }
    if SameNames(a, b, pass) && SameKids(a, b, pass) {
      KidsEqual(a, b, pass);
    }
  }

  lemma {:induction false} KidsEqual(a: Value, b: Value, pass: set<string>)
    requires IsContainer(a) && IsContainer(b) && SameNames(a, b, pass) && SameKids(a, b, pass)
    ensures TreeOf(a, pass) == TreeOf(b, pass)
  {
    forall k ensures SameEntry(TreeOf(a, pass).kids, TreeOf(b, pass).kids, k) {
      Kids(a, pass, k);
      Kids(b, pass, k);
    }
    MapsEqual(TreeOf(a, pass).kids, TreeOf(b, pass).kids);
  }

  ghost predicate SameEntry<V>(s: map<string, V>, t: map<string, V>, k: string) {
    (k in s <==> k in t) && (k in s ==> s[k] == t[k])
  }

  lemma {:induction false} MapsEqual<V>(s: map<string, V>, t: map<string, V>)
    requires forall k :: SameEntry(s, t, k)
    ensures s == t
  {
    assert forall k :: k in s ==> SameEntry(s, t, k);
    assert forall k :: k in t ==> SameEntry(s, t, k);
  }

  ghost predicate Comparable(v: Value, pass: set<string>) {
    IsJson(v) && FlatUnder(v, pass)
  }

  /**
   * Two JSON values are the same tree, with the excused keys erased, exactly when `walk` finds nothing outside
   * those keys and never read an array's length as if it were a property.
   */
  lemma {:induction false} AgreementExact(a: Value, b: Value, pass: set<string>)
    requires Comparable(a, pass) && Comparable(b, pass) && OrdinaryKeys(pass)
    ensures TreeOf(a, pass) == TreeOf(b, pass) <==> Agrees(a, b, false, pass) && !LengthClash(a, b, pass)
    decreases Height(a), 1
  {
    if a.Arr? && b.Arr? {
      ArraysExact(a.items, b.items, pass);
    } else if IsContainer(a) && IsContainer(b) {
      TreesEqual(a, b, pass);
      forall k ensures KeyExact(a, b, k, pass) {
        PropertyExact(a, b, k, pass);
      }
      PropertiesExact(a, b, pass);
    }
  }

  lemma {:induction false} LengthIsNoItem(xs: seq<Value>)
    ensures "length" !in OwnKeys(Arr(xs))
  {
    if "length" in OwnKeys(Arr(xs)) {
      var i :| 0 <= i < |xs| && Decimal(i) == "length";
      ItemKey(xs, i);
    }
  }

  lemma {:induction false} PropertiesExact(a: Value, b: Value, pass: set<string>)
    requires IsContainer(a) && IsContainer(b) && !(a.Arr? && b.Arr?) && OrdinaryKeys(pass)
    requires forall k :: KeyExact(a, b, k, pass)
    ensures SameNames(a, b, pass) && SameKids(a, b, pass) <==> Agrees(a, b, false, pass) && !LengthClash(a, b, pass)
  {
    if SameNames(a, b, pass) && SameKids(a, b, pass) {
      SameIsSilent(a, b, pass);
    }
    if Agrees(a, b, false, pass) && !LengthClash(a, b, pass) {
      SilentIsSame(a, b, pass);
    }
  }

  lemma {:induction false} SameIsSilent(a: Value, b: Value, pass: set<string>)
    requires IsContainer(a) && IsContainer(b) && !(a.Arr? && b.Arr?) && OrdinaryKeys(pass)
    requires forall k :: KeyExact(a, b, k, pass)
    requires SameNames(a, b, pass) && SameKids(a, b, pass)
    ensures Agrees(a, b, false, pass) && !LengthClash(a, b, pass)
  {
    if a.Arr? { LengthIsNoItem(a.items); }
    if b.Arr? { LengthIsNoItem(b.items); }
    forall k | k in OwnKeys(a) || k in OwnKeys(b)
      ensures Height(Get(a, k)) < Height(a) && Agrees(Get(a, k), Get(b, k), k in pass, pass)
    {
      assert KeyExact(a, b, k, pass);
    }
    forall k | k in OwnKeys(a) && k in OwnKeys(b) && k !in pass ensures !LengthClash(Get(a, k), Get(b, k), pass) {
      assert KeyExact(a, b, k, pass);
    }
  }

  lemma {:induction false} SilentIsSame(a: Value, b: Value, pass: set<string>)
    requires IsContainer(a) && IsContainer(b) && !(a.Arr? && b.Arr?) && OrdinaryKeys(pass)
    requires forall k :: KeyExact(a, b, k, pass)
    requires Agrees(a, b, false, pass) && !LengthClash(a, b, pass)
    ensures SameNames(a, b, pass) && SameKids(a, b, pass)
  {
    if a.Arr? { LengthIsNoItem(a.items); }
    if b.Arr? { LengthIsNoItem(b.items); }
    forall k ensures k !in pass ==> (k in OwnKeys(a) <==> k in OwnKeys(b))
      ensures k in OwnKeys(a) && k in OwnKeys(b) && k !in pass ==> TreeOf(Get(a, k), pass) == TreeOf(Get(b, k), pass)
    {
      assert KeyExact(a, b, k, pass);
    }
  }

  /** What one property contributes to agreement and to equality of the trees. */
  ghost predicate KeyExact(a: Value, b: Value, k: string, pass: set<string>)
    requires IsContainer(a) && IsContainer(b)
  {
    && Height(Get(a, k)) < Height(a)
    && (k in pass ==> Agrees(Get(a, k), Get(b, k), true, pass))
    && (k !in pass && k in OwnKeys(a) && k in OwnKeys(b) ==>
          (TreeOf(Get(a, k), pass) == TreeOf(Get(b, k), pass) <==>
           Agrees(Get(a, k), Get(b, k), false, pass) && !LengthClash(Get(a, k), Get(b, k), pass)))
    && (k !in pass && (k in OwnKeys(a) <==> k !in OwnKeys(b)) ==>
          !Agrees(Get(a, k), Get(b, k), false, pass) || (k == "length" && (a.Arr? || b.Arr?)))
  }

  lemma {:induction false} PropertyExact(a: Value, b: Value, k: string, pass: set<string>)
    requires IsContainer(a) && IsContainer(b) && !(a.Arr? && b.Arr?)
    requires Comparable(a, pass) && Comparable(b, pass) && OrdinaryKeys(pass)
    ensures KeyExact(a, b, k, pass)
    decreases Height(a), 0
  {
    GetLower(a, k);
    OwnProperty(a, k);
    OwnProperty(b, k);
    OwnFlat(a, k, pass);
    OwnFlat(b, k, pass);
    if k in pass {
      FlatAgrees(Get(a, k), Get(b, k), pass);
    } else if k in OwnKeys(a) && k in OwnKeys(b) {
      AgreementExact(Get(a, k), Get(b, k), pass);
    }
  }

  lemma {:induction false} ArraysExact(xs: seq<Value>, ys: seq<Value>, pass: set<string>)
    requires Comparable(Arr(xs), pass) && Comparable(Arr(ys), pass) && OrdinaryKeys(pass)
    ensures var a, b := Arr(xs), Arr(ys);
            TreeOf(a, pass) == TreeOf(b, pass) <==> Agrees(a, b, false, pass) && !LengthClash(a, b, pass)
    decreases Height(Arr(xs)), 0
  {
    var a, b := Arr(xs), Arr(ys);
    TreesEqual(a, b, pass);
    if |xs| < |ys| {
      ItemKey(ys, |xs|);
      NotAnItem(xs, |xs|);
    } else if |ys| < |xs| {
      ItemKey(xs, |ys|);
      NotAnItem(ys, |ys|);
    } else {
      forall i | 0 <= i < |xs|
        ensures TreeOf(xs[i], pass) == TreeOf(ys[i], pass)
                <==> Agrees(xs[i], ys[i], false, pass) && !LengthClash(xs[i], ys[i], pass)
        ensures Decimal(i) in OwnKeys(a) && Decimal(i) in OwnKeys(b) && Decimal(i) !in pass
        ensures Get(a, Decimal(i)) == xs[i] && Get(b, Decimal(i)) == ys[i] && Height(xs[i]) < Height(a)
      {
        ItemKey(xs, i);
        ItemKey(ys, i);
        AgreementExact(xs[i], ys[i], pass);
      }
      assert OwnKeys(a) == OwnKeys(b);
    }
  }

  lemma {:induction false} NotAnItem(xs: seq<Value>, n: nat)
    requires |xs| <= n
    ensures Decimal(n) !in OwnKeys(Arr(xs))
  {
    if Decimal(n) in OwnKeys(Arr(xs)) {
      var i :| 0 <= i < |xs| && Decimal(i) == Decimal(n);
      DecimalInjective(i, n);
    }
  }

  // ------------------------------------------------------------ main results

  lemma {:induction false} NothingExcused(v: Value)
    ensures FlatUnder(v, {})
    decreases v
  {
    match v
    case Arr(xs) => forall i | 0 <= i < |xs| ensures FlatUnder(xs[i], {}) { NothingExcused(xs[i]); }
    case Obj(fs) => forall i | 0 <= i < |fs| ensures FlatUnder(fs[i].val, {}) { NothingExcused(fs[i].val); }
    case _ =>
  }

  /** `walk` on JSON is equality of trees, except for the `length` an array lends to a comparison with an object. */
  lemma {:induction false} WalkExact(a: Value, b: Value, path: string, key: Key)
    requires IsJson(a) && IsJson(b)
    ensures TreeOf(a, {}) == TreeOf(b, {}) <==> Walks(a, b, path, key) == [] && !LengthClash(a, b, {})
  {
    NothingExcused(a);
    NothingExcused(b);
    AgreementExact(a, b, {});
    WalkSilent(a, b, path, key);
  }

  /** The exception is real: an empty array and `{length: 0}` show no difference but are different trees. */
  lemma {:induction false} LengthIsRead(path: string, key: Key)
    ensures var a, b := Arr([]), Obj([Field("length", Num(0.0))]);
            Walks(a, b, path, key) == [] && TreeOf(a, {}) != TreeOf(b, {})
  {
    var a, b := Arr([]), Obj([Field("length", Num(0.0))]);
    assert KeysOf(b.fields)[0] == "length";
    assert OwnKeys(b) == ["length"] && OwnKeys(a) == [];
    assert b.fields[0] == Field("length", Num(0.0));
    assert Get(b, "length") == Num(0.0) == Get(a, "length");
    assert Agrees(Num(0.0), Num(0.0), false, {});
    AgreesByKeys(a, b, false, {});
    WalkSilent(a, b, path, key);
    Kids(a, {}, "length");
    Kids(b, {}, "length");
  }

  lemma {:induction false} ExplainedKeysOrdinary()
    ensures OrdinaryKeys(EXPLAINED_KEYS)
  {
    assert forall k :: k in EXPLAINED_KEYS ==> k != "length" && k != "" && !IsDigit(k[0]);
  }

  /**
   * With flat values under the explained keys, `walk` leaves nothing unexplained exactly when the two values
   * are the same tree after erasing those keys (and no array met a `length` property).
   */
  lemma {:induction false} ExplainedAgreementExact(a: Value, b: Value, path: string)
    requires Comparable(a, EXPLAINED_KEYS) && Comparable(b, EXPLAINED_KEYS)
    ensures TreeOf(a, EXPLAINED_KEYS) == TreeOf(b, EXPLAINED_KEYS) <==>
            AllExplained(Walks(a, b, path, None)) && !LengthClash(a, b, EXPLAINED_KEYS)
  {
    ExplainedKeysOrdinary();
    AgreementExact(a, b, EXPLAINED_KEYS);
    WalkAgrees(a, b, path, None);
  }

  /** Agreement of two values as the differential certification sees it. */
  ghost predicate Agreeing(a: Value, b: Value) {
    AllExplained(Walks(a, b, "", None))
  }

  lemma {:induction false} AgreesReflexive(a: Value, under: bool, pass: set<string>)
    ensures Agrees(a, a, under, pass)
    decreases Height(a)
  {
    if a.Arr? {
      forall i | 0 <= i < |a.items| ensures Agrees(a.items[i], a.items[i], under, pass) {
        AgreesReflexive(a.items[i], under, pass);
      }
    } else if a.Obj? {
      forall k ensures Height(Get(a, k)) < Height(a) && Agrees(Get(a, k), Get(a, k), k in pass, pass) {
        GetLower(a, k);
        AgreesReflexive(Get(a, k), k in pass, pass);
      }
    }
  }

  lemma {:induction false} AgreeingReflexive(a: Value)
    ensures Agreeing(a, a)
  {
    AgreesReflexive(a, false, EXPLAINED_KEYS);
    WalkAgrees(a, a, "", None);
  }

  lemma {:induction false} AgreeingSymmetric(a: Value, b: Value)
    requires Agreeing(a, b)
    ensures Agreeing(b, a)
  {
    forall d | d in Walks(b, a, "", None) ensures d.explained {
      WalkSwaps(b, a, "", None, d);
      assert Swapped(d).explained;
    }
  }
}
