/** Where `diff` and `walk` report: each finding is at a path, and holds what the two values have there. */
module Places {
  import opened Text
  import opened Assoc
  import opened Json
  import opened Matching
  import opened Walk
  import opened References

  /** The text of a path: property names with dots before them, positions in brackets. */
  function PathText(path: string, steps: seq<PathStep>): string
    decreases |steps|
  {
    if steps == [] then path
    else
      match steps[0]
      case Key(k) => PathText(if path == "" then k else path + "." + k, steps[1..])
      case Item(i) => PathText(path + "[" + Decimal(i) + "]", steps[1..])
  }

  lemma {:induction false} StepFirst(step: PathStep, steps: seq<PathStep>)
    ensures ([step] + steps)[0] == step && ([step] + steps)[1..] == steps
  {
  }

  // --------------------------------------------------------------------- diff

  /** Along the path both values have properties of that name, or arrays of equal length, and end in `x` and `y`. */
  ghost predicate Expects(e: Value, a: Value, steps: seq<PathStep>, x: Value, y: Value)
    decreases |steps|
  {
    if steps == [] then x == e && y == a
    else
      match steps[0]
      case Key(k) => e.Obj? && IsContainer(a) && ExpectsKey(e.fields, a, k, steps, x, y)
      case Item(i) =>
        && e.Arr? && a.Arr? && i < |e.items| == |a.items|
        && Expects(e.items[i], a.items[i], steps[1..], x, y)
  }

  ghost predicate ExpectsKey(fs: seq<Field>, a: Value, k: string, steps: seq<PathStep>, x: Value, y: Value)
    requires IsContainer(a) && steps != []
    decreases |steps|, 0
  {
    exists i :: 0 <= i < |fs| && fs[i].key == k && Expects(fs[i].val, Get(a, k), steps[1..], x, y)
  }

  /** The values themselves do not fit, whatever is below. */
  ghost predicate Clash(x: Value, y: Value) {
    match x
    case Obj(_) => !IsContainer(y)
    case Arr(xs) => !y.Arr? || |y.items| != |xs|
    case _ => x != y
  }

  ghost predicate FailureAt(f: Failure, e: Value, a: Value, path: string, step: string, steps: seq<PathStep>) {
    && f.step == step && f.path == PathText(path, steps)
    && Expects(e, a, steps, f.expected, f.actual) && Clash(f.expected, f.actual)
  }

  ghost predicate Fails(f: Failure, e: Value, a: Value, path: string, step: string) {
    exists steps :: FailureAt(f, e, a, path, step, steps)
  }

  lemma {:induction false} InFieldDiffs(f: Failure, fs: seq<Field>, a: Value, path: string, step: string)
    requires IsContainer(a)
    ensures f in FieldDiffs(fs, a, path, step) <==>
            exists i :: 0 <= i < |fs| && f in Diffs(fs[i].val, Get(a, fs[i].key), Dot(path, fs[i].key), step)
    decreases |fs|
  {
    if fs != [] {
      InFieldDiffs(f, fs[1..], a, path, step);
      assert forall i :: 0 < i < |fs| ==> fs[i] == fs[1..][i - 1];
    }
  }

  lemma {:induction false} InItemDiffs(f: Failure, xs: seq<Value>, ys: seq<Value>, at: nat, path: string, step: string)
    requires |xs| == |ys|
    ensures f in ItemDiffs(xs, ys, at, path, step) <==>
            exists i :: 0 <= i < |xs| && f in Diffs(xs[i], ys[i], At(path, at + i), step)
    decreases |xs|
  {
    if xs != [] {
      var us, vs := xs[1..], ys[1..];
      InItemDiffs(f, us, vs, at + 1, path, step);
      assert forall i :: 0 <= i < |us| ==> us[i] == xs[i + 1] && vs[i] == ys[i + 1] && at + 1 + i == at + (i + 1);
      if i :| 0 <= i < |xs| && f in Diffs(xs[i], ys[i], At(path, at + i), step) {
        if i > 0 {
          assert f in Diffs(us[i - 1], vs[i - 1], At(path, at + 1 + (i - 1)), step);
        }
      }
    }
  }

  lemma {:induction false} FailureBelowKey(f: Failure, e: Value, a: Value, path: string, step: string, i: nat,
                                           steps: seq<PathStep>)
    requires e.Obj? && IsContainer(a) && i < |e.fields|
    requires FailureAt(f, e.fields[i].val, Get(a, e.fields[i].key), Dot(path, e.fields[i].key), step, steps)
    ensures Fails(f, e, a, path, step)
  {
    var k := e.fields[i].key;
    StepFirst(Key(k), steps);
    assert ExpectsKey(e.fields, a, k, [Key(k)] + steps, f.expected, f.actual);
    assert FailureAt(f, e, a, path, step, [Key(k)] + steps);
  }

  lemma {:induction false} FailureKey(f: Failure, e: Value, a: Value, path: string, step: string, steps: seq<PathStep>)
    returns (i: nat)
    requires e.Obj? && IsContainer(a) && FailureAt(f, e, a, path, step, steps)
    ensures i < |e.fields| && Fails(f, e.fields[i].val, Get(a, e.fields[i].key), Dot(path, e.fields[i].key), step)
  {
    assert steps != [] && steps[0].Key?;
    var fs, k := e.fields, steps[0].k;
    assert ExpectsKey(fs, a, k, steps, f.expected, f.actual);
    i :| 0 <= i < |fs| && fs[i].key == k && Expects(fs[i].val, Get(a, k), steps[1..], f.expected, f.actual);
    assert FailureAt(f, fs[i].val, Get(a, k), Dot(path, k), step, steps[1..]);
  }

  lemma {:induction false} FailureBelowItem(f: Failure, e: Value, a: Value, path: string, step: string, i: nat,
                                            steps: seq<PathStep>)
    requires e.Arr? && a.Arr? && i < |e.items| == |a.items|
    requires FailureAt(f, e.items[i], a.items[i], At(path, i), step, steps)
    ensures Fails(f, e, a, path, step)
  {
    StepFirst(Item(i), steps);
    assert FailureAt(f, e, a, path, step, [Item(i)] + steps);
  }

  lemma {:induction false} FailureItem(f: Failure, e: Value, a: Value, path: string, step: string, steps: seq<PathStep>)
    returns (i: nat)
    requires e.Arr? && a.Arr? && |e.items| == |a.items| && FailureAt(f, e, a, path, step, steps)
    ensures i < |e.items| && Fails(f, e.items[i], a.items[i], At(path, i), step)
  {
    assert steps != [] && steps[0].Item?;
    i := steps[0].i;
    assert FailureAt(f, e.items[i], a.items[i], At(path, i), step, steps[1..]);
  }

  /** `diff` reports exactly the places at which the two values do not fit, and what they hold there. */
  lemma {:induction false} DiffFinds(f: Failure, e: Value, a: Value, path: string, step: string)
    ensures f in Diffs(e, a, path, step) <==> Fails(f, e, a, path, step)
    decreases e, 1
  {
    if Clash(e, a) {
      ClashHere(f, e, a, path, step);
    } else if e.Obj? {
      KeysFail(f, e, a, path, step);
    } else if e.Arr? {
      ItemsFail(f, e, a, path, step);
    } else {
      ScalarFits(f, e, a, path, step);
    }
  }

  lemma {:induction false} ClashHere(f: Failure, e: Value, a: Value, path: string, step: string)
    requires Clash(e, a)
    ensures Diffs(e, a, path, step) == [Failure(step, path, e, a)]
    ensures Fails(f, e, a, path, step) <==> f == Failure(step, path, e, a)
  {
    if f == Failure(step, path, e, a) {
      assert FailureAt(f, e, a, path, step, []);
    }
    if steps: seq<PathStep> :| FailureAt(f, e, a, path, step, steps) {
      assert steps == [];
    }
  }

  lemma {:induction false} ScalarFits(f: Failure, e: Value, a: Value, path: string, step: string)
    requires !IsContainer(e) && !Clash(e, a)
    ensures Diffs(e, a, path, step) == [] && !Fails(f, e, a, path, step)
  {
    forall steps: seq<PathStep> ensures !FailureAt(f, e, a, path, step, steps) {
      if steps != [] {
        assert steps[0].Key? || steps[0].Item?;
      }
    }
  }

  lemma {:induction false} KeysFail(f: Failure, e: Value, a: Value, path: string, step: string)
    requires e.Obj? && IsContainer(a)
    ensures f in Diffs(e, a, path, step) <==> Fails(f, e, a, path, step)
    decreases e, 0
  {
    var fs := e.fields;
    InFieldDiffs(f, fs, a, path, step);
    if i :| 0 <= i < |fs| && f in Diffs(fs[i].val, Get(a, fs[i].key), Dot(path, fs[i].key), step) {
      var k := fs[i].key;
      DiffFinds(f, fs[i].val, Get(a, k), Dot(path, k), step);
      var steps: seq<PathStep> :| FailureAt(f, fs[i].val, Get(a, k), Dot(path, k), step, steps);
      FailureBelowKey(f, e, a, path, step, i, steps);
    }
    if steps: seq<PathStep> :| FailureAt(f, e, a, path, step, steps) {
      var i := FailureKey(f, e, a, path, step, steps);
      DiffFinds(f, fs[i].val, Get(a, fs[i].key), Dot(path, fs[i].key), step);
    }
  }

  lemma {:induction false} ItemsFail(f: Failure, e: Value, a: Value, path: string, step: string)
    requires e.Arr? && a.Arr? && |e.items| == |a.items|
    ensures f in Diffs(e, a, path, step) <==> Fails(f, e, a, path, step)
    decreases e, 0
  {
    var xs, ys := e.items, a.items;
    InItemDiffs(f, xs, ys, 0, path, step);
    if i :| 0 <= i < |xs| && f in Diffs(xs[i], ys[i], At(path, 0 + i), step) {
      DiffFinds(f, xs[i], ys[i], At(path, i), step);
      var steps: seq<PathStep> :| FailureAt(f, xs[i], ys[i], At(path, i), step, steps);
      FailureBelowItem(f, e, a, path, step, i, steps);
    }
    if steps: seq<PathStep> :| FailureAt(f, e, a, path, step, steps) {
      var i := FailureItem(f, e, a, path, step, steps);
      DiffFinds(f, xs[i], ys[i], At(path, i), step);
      assert f in Diffs(xs[i], ys[i], At(path, 0 + i), step);
    }
  }

  // --------------------------------------------------------------------- walk

  /** What two values hold at a path: the items of arrays of equal length, the properties of other containers. */
  ghost function Both(a: Value, b: Value, steps: seq<PathStep>): Option<(Value, Value)>
    decreases |steps|
  {
    if steps == [] then Some((a, b))
    else
      match steps[0]
      case Item(i) =>
        if a.Arr? && b.Arr? && i < |a.items| == |b.items| then Both(a.items[i], b.items[i], steps[1..]) else None
      case Key(k) =>
        if IsContainer(a) && IsContainer(b) && !(a.Arr? && b.Arr?) && (k in OwnKeys(a) || k in OwnKeys(b))
        then Both(Get(a, k), Get(b, k), steps[1..]) else None
  }

  /** The last property name on the path; array positions do not count. */
  ghost function KeyAt(key: Key, steps: seq<PathStep>): Key
    decreases |steps|
  {
    if steps == [] then key
    else KeyAt(match steps[0] case Key(k) => Some(k) case Item(_) => key, steps[1..])
  }

  /** Scalars that differ, a scalar and a container, or arrays of different lengths. */
  ghost predicate Differ(x: Value, y: Value) {
    if x.Arr? && y.Arr? then |x.items| != |y.items| else x != y && !(IsContainer(x) && IsContainer(y))
  }

  /** Of two arrays the lengths are shown, of other values the values. */
  ghost predicate Shown(x: Value, y: Value, d: Difference) {
    if x.Arr? && y.Arr? then d.a == Num(|x.items| as real) && d.b == Num(|y.items| as real) else d.a == x && d.b == y
  }

  /** The keys whose values a provider makes up, or counts in its own way. */
  ghost predicate OfProvider(k: string) {
    || k == "next" || k == "cursor" || k == "freshUntil" || k == "loadedAt" || k == "generation" || k == "lastEventAt"
    || k == "at" || k == "startedAt" || k == "endedAt" || k == "requestId"
    || k == "physicalActions" || k == "physicalLimit"
  }

  lemma {:induction false} ProviderKeys(k: string)
    ensures k in EXPLAINED_KEYS <==> OfProvider(k)
  {
  }

  ghost predicate DifferenceAt(d: Difference, a: Value, b: Value, path: string, key: Key, steps: seq<PathStep>) {
    && Both(a, b, steps).Some?
    && Differ(Both(a, b, steps).value.0, Both(a, b, steps).value.1)
    && Shown(Both(a, b, steps).value.0, Both(a, b, steps).value.1, d)
    && d.path == PathText(path, steps)
    && Marked(d, KeyAt(key, steps))
  }

  /** The difference is explained if that key is a provider's; an empty key is not recorded. */
  ghost predicate Marked(d: Difference, k: Key) {
    (d.explained <==> k.Some? && OfProvider(k.value)) && d.key == if k == Some("") then None else k
  }

  lemma {:induction false} MarkedExact(d: Difference, path: string, x: Value, y: Value, k: Key)
    requires d.path == path && d.a == x && d.b == y
    ensures Marked(d, k) <==> d == Found(path, x, y, k)
  {
    if k.Some? {
      ProviderKeys(k.value);
    }
  }

  /** `walk` reports exactly the places at which the two values differ, and what they hold there. */
  lemma {:induction false} WalkFinds(d: Difference, a: Value, b: Value, path: string, key: Key)
    ensures d in Walks(a, b, path, key) <==> exists steps :: DifferenceAt(d, a, b, path, key, steps)
    decreases Height(a), 2
  {
    if a.Arr? && b.Arr? && |a.items| == |b.items| {
      ItemsDiffer(d, a, b, path, key);
    } else if IsContainer(a) && IsContainer(b) && !(a.Arr? && b.Arr?) {
      KeysDiffer(d, a, b, path, key);
    } else {
      DifferHere(d, a, b, path, key);
    }
  }

  lemma {:induction false} DifferHere(d: Difference, a: Value, b: Value, path: string, key: Key)
    requires !(IsContainer(a) && IsContainer(b)) || (a.Arr? && b.Arr? && |a.items| != |b.items|)
    ensures d in Walks(a, b, path, key) <==> exists steps :: DifferenceAt(d, a, b, path, key, steps)
  {
    var both := a.Arr? && b.Arr?;
    var x, y := if both then Num(|a.items| as real) else a, if both then Num(|b.items| as real) else b;
    if d.path == path && d.a == x && d.b == y {
      MarkedExact(d, path, x, y, key);
    }
    assert DifferenceAt(d, a, b, path, key, []) <==> Differ(a, b) && d == Found(path, x, y, key);
    if steps: seq<PathStep> :| DifferenceAt(d, a, b, path, key, steps) {
      assert steps == [];
    }
  }

  /** A difference below one item, or one property, is a difference of the whole, and the other way round. */
  lemma {:induction false} BelowItem(d: Difference, a: Value, b: Value, path: string, key: Key, i: nat,
                                     steps: seq<PathStep>)
    requires a.Arr? && b.Arr? && i < |a.items| == |b.items|
    ensures DifferenceAt(d, a, b, path, key, [Item(i)] + steps)
            <==> DifferenceAt(d, a.items[i], b.items[i], At(path, i), key, steps)
  {
    StepFirst(Item(i), steps);
  }

  lemma {:induction false} BelowKey(d: Difference, a: Value, b: Value, path: string, key: Key, k: string,
                                    steps: seq<PathStep>)
    requires IsContainer(a) && IsContainer(b) && !(a.Arr? && b.Arr?) && (k in OwnKeys(a) || k in OwnKeys(b))
    ensures DifferenceAt(d, a, b, path, key, [Key(k)] + steps)
            <==> DifferenceAt(d, Get(a, k), Get(b, k), Dot(path, k), Some(k), steps)
  {
    StepFirst(Key(k), steps);
  }

  lemma {:induction false} ItemsDiffer(d: Difference, a: Value, b: Value, path: string, key: Key)
    requires a.Arr? && b.Arr? && |a.items| == |b.items|
    ensures d in Walks(a, b, path, key) <==> exists steps :: DifferenceAt(d, a, b, path, key, steps)
    decreases Height(a), 1
  {
    var xs, ys := a.items, b.items;
    if d in Walks(a, b, path, key) {
      var i := ItemWithDifference(d, xs, ys, path, key);
      WalkFinds(d, xs[i], ys[i], At(path, i), key);
      var steps: seq<PathStep> :| DifferenceAt(d, xs[i], ys[i], At(path, i), key, steps);
      BelowItem(d, a, b, path, key, i, steps);
    }
    if steps: seq<PathStep> :| DifferenceAt(d, a, b, path, key, steps) {
      var i := FirstItem(d, a, b, path, key, steps);
      WalkFinds(d, xs[i], ys[i], At(path, i), key);
      DifferenceOfItem(d, xs, ys, i, path, key);
    }
  }

  lemma {:induction false} FirstItem(d: Difference, a: Value, b: Value, path: string, key: Key, steps: seq<PathStep>)
    returns (i: nat)
    requires a.Arr? && b.Arr? && |a.items| == |b.items| && DifferenceAt(d, a, b, path, key, steps)
    ensures i < |a.items| && DifferenceAt(d, a.items[i], b.items[i], At(path, i), key, steps[1..]) && steps != []
  {
    assert steps != [] && steps[0].Item?;
    i := steps[0].i;
    assert steps == [Item(i)] + steps[1..];
    BelowItem(d, a, b, path, key, i, steps[1..]);
  }

  lemma {:induction false} FirstKey(d: Difference, a: Value, b: Value, path: string, key: Key, steps: seq<PathStep>)
    returns (k: string)
    requires IsContainer(a) && IsContainer(b) && !(a.Arr? && b.Arr?) && DifferenceAt(d, a, b, path, key, steps)
    ensures (k in OwnKeys(a) || k in OwnKeys(b)) && steps != []
    ensures DifferenceAt(d, Get(a, k), Get(b, k), Dot(path, k), Some(k), steps[1..])
  {
    assert steps != [] && steps[0].Key?;
    k := steps[0].k;
    assert steps == [Key(k)] + steps[1..];
    BelowKey(d, a, b, path, key, k, steps[1..]);
  }

  lemma {:induction false} KeysDiffer(d: Difference, a: Value, b: Value, path: string, key: Key)
    requires IsContainer(a) && IsContainer(b) && !(a.Arr? && b.Arr?)
    ensures d in Walks(a, b, path, key) <==> exists steps :: DifferenceAt(d, a, b, path, key, steps)
    decreases Height(a), 1
  {
    if d in Walks(a, b, path, key) {
      var k := KeyWithDifference(d, a, b, BothKeys(a, b), path);
      GetLower(a, k);
      WalkFinds(d, Get(a, k), Get(b, k), Dot(path, k), Some(k));
      var steps: seq<PathStep> :| DifferenceAt(d, Get(a, k), Get(b, k), Dot(path, k), Some(k), steps);
      BelowKey(d, a, b, path, key, k, steps);
    }
    if steps: seq<PathStep> :| DifferenceAt(d, a, b, path, key, steps) {
      var k := FirstKey(d, a, b, path, key, steps);
      KeyReported(d, a, b, path, key, k, steps[1..]);
    }
  }

  lemma {:induction false} KeyReported(d: Difference, a: Value, b: Value, path: string, key: Key, k: string,
                                       steps: seq<PathStep>)
    requires IsContainer(a) && IsContainer(b) && !(a.Arr? && b.Arr?) && (k in OwnKeys(a) || k in OwnKeys(b))
    requires DifferenceAt(d, Get(a, k), Get(b, k), Dot(path, k), Some(k), steps)
    ensures d in Walks(a, b, path, key)
    decreases Height(a), 0
  {
    GetLower(a, k);
    WalkFinds(d, Get(a, k), Get(b, k), Dot(path, k), Some(k));
    DifferenceOfKey(d, a, b, BothKeys(a, b), k, path);
  }
}
