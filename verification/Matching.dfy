/**
 * The three recursive walks of the scenario runner: placeholders in (`resolveRefs`), generated ids
 * out (`normalize`), and subset matching of an expectation (`diff`).
 */
module Matching {
  import opened Text
  import opened Assoc
  import opened Json

  datatype CallResult = Ok(value: Value) | Err(code: string, detail: Value)

  type Raw = map<string, CallResult>

  // -------------------------------------------------------------- resolveRefs

  /** `/^\$id:(\d+)$/`. */
  predicate IsPlaceholder(s: string) {
    |s| > 4 && s[..4] == "$id:" && AllDigits(s[4..])
  }

  function Placeholder(n: nat): string {
    "$id:" + Decimal(n)
  }

  /** Follow a dotted path; anything that is not a container ends in `undefined`. */
  function Follow(v: Value, path: seq<string>): Value
    decreases path
  {
    if path == [] then v
    else Follow(if IsContainer(v) then Get(v, path[0]) else Undefined, path[1..])
  }

  function ResolveString(s: string, raw: Raw, ids: seq<string>, useIds: bool): Value {
    if s == "" || s[0] != '$' then Str(s)
    else if IsPlaceholder(s) then
      var n := ParseDecimal(s[4..]);
      if useIds && 1 <= n <= |ids| then Str(ids[n - 1]) else Str(s)
    else
      var parts := Split(s[1..], '.');
      if parts[0] != "" && parts[0] in raw && raw[parts[0]].Ok? then Follow(raw[parts[0]].value, parts[1..])
      else Str(s)
  }

  function Resolve(v: Value, raw: Raw, ids: seq<string>, useIds: bool): Value
    decreases v
  {
    match v
    case Str(s) => ResolveString(s, raw, ids, useIds)
    case Arr(xs) => Arr(seq(|xs|, i requires 0 <= i < |xs| => Resolve(xs[i], raw, ids, useIds)))
    case Obj(fs) => Obj(seq(|fs|, i requires 0 <= i < |fs| => Field(fs[i].key, Resolve(fs[i].val, raw, ids, useIds))))
    case _ => v
  }

  // ---------------------------------------------------------------- normalize

  const VOLATILE: set<string> := {"createdAt", "updatedAt", "requestId", "etag", "expiresAt", "url"}

  /** `ids.indexOf(s)`, with `|ids|` for absent. */
  function IdIndex(ids: seq<string>, s: string): (i: nat)
    ensures i <= |ids|
    ensures i < |ids| ==> ids[i] == s
    ensures i == |ids| <==> s !in ids
    ensures forall j :: 0 <= j < i ==> ids[j] != s
  {
    if ids == [] then 0 else if ids[0] == s then 0 else 1 + IdIndex(ids[1..], s)
  }

  function NormalString(s: string, ids: seq<string>): string {
    if s in ids then Placeholder(IdIndex(ids, s) + 1) else s
  }

  /** The fields that survive normalization. */
  function Stable(fs: seq<Field>): (r: seq<Field>)
    ensures forall f :: f in r <==> f in fs && f.key !in VOLATILE
  {
    if fs == [] then [] else (if fs[0].key in VOLATILE then [] else [fs[0]]) + Stable(fs[1..])
  }

  function Normalize(v: Value, ids: seq<string>): Value
    decreases v
  {
    match v
    case Str(s) => Str(NormalString(s, ids))
    case Arr(xs) => Arr(seq(|xs|, i requires 0 <= i < |xs| => Normalize(xs[i], ids)))
    case Obj(fs) =>
      var kept := Stable(fs);
      Obj(seq(|kept|, i requires 0 <= i < |kept| =>
        assert kept[i] in fs; Field(kept[i].key, Normalize(kept[i].val, ids))))
    case _ => v
  }

  // --------------------------------------------------------------------- diff

  datatype Failure = Failure(step: string, path: string, expected: Value, actual: Value)

  function Dot(path: string, k: string): string {
    if path == "" then k else path + "." + k
  }

  function At(path: string, i: nat): string {
    path + "[" + Decimal(i) + "]"
  }

  /** The failures `diff(expected, actual, path, out, step)` pushes, in order. */
  function Diffs(expected: Value, actual: Value, path: string, step: string): seq<Failure>
    decreases expected, 1
  {
    match expected
    case Obj(fs) =>
      if IsContainer(actual) then FieldDiffs(fs, actual, path, step) else [Failure(step, path, expected, actual)]
    case Arr(xs) =>
      if actual.Arr? && |actual.items| == |xs| then ItemDiffs(xs, actual.items, 0, path, step)
      else [Failure(step, path, expected, actual)]
    case _ =>
      if expected == actual then [] else [Failure(step, path, expected, actual)]
  }

  function FieldDiffs(fs: seq<Field>, actual: Value, path: string, step: string): seq<Failure>
    requires IsContainer(actual)
    decreases fs, 0
  {
    if fs == [] then []
    else Diffs(fs[0].val, Get(actual, fs[0].key), Dot(path, fs[0].key), step) + FieldDiffs(fs[1..], actual, path, step)
  }

  function ItemDiffs(xs: seq<Value>, ys: seq<Value>, at: nat, path: string, step: string): seq<Failure>
    requires |xs| == |ys|
    decreases xs, 0
  {
    if xs == [] then []
    else Diffs(xs[0], ys[0], At(path, at), step) + ItemDiffs(xs[1..], ys[1..], at + 1, path, step)
  }

  lemma {:induction false} NextFieldDiffs(fs: seq<Field>, i: nat, actual: Value, path: string, step: string)
    requires IsContainer(actual) && i < |fs|
    ensures FieldDiffs(fs[i..], actual, path, step)
         == Diffs(fs[i].val, Get(actual, fs[i].key), Dot(path, fs[i].key), step)
           + FieldDiffs(fs[i + 1..], actual, path, step)
  {
    Uncons(fs, i);
  }

  lemma {:induction false} NextItemDiffs(xs: seq<Value>, ys: seq<Value>, i: nat, path: string, step: string)
    requires |xs| == |ys| && i < |xs|
    ensures ItemDiffs(xs[i..], ys[i..], i, path, step)
         == Diffs(xs[i], ys[i], At(path, i), step) + ItemDiffs(xs[i + 1..], ys[i + 1..], i + 1, path, step)
  {
    Uncons(xs, i);
    Uncons(ys, i);
  }

  class FailureLog {
    var items: seq<Failure>

    constructor ()
      ensures items == []
    {
      items := [];
    }

    method Push(f: Failure)
      modifies this
      ensures items == old(items) + [f]
    {
      items := items + [f];
    }

    method Diff(expected: Value, actual: Value, path: string, step: string)
      modifies this
      ensures items == old(items) + Diffs(expected, actual, path, step)
      decreases expected, 1
    {
      match expected
      case Obj(fs) =>
        if IsContainer(actual) {
          DiffFields(fs, actual, path, step);
        } else {
          Push(Failure(step, path, expected, actual));
        }
      case Arr(xs) =>
        if actual.Arr? && |actual.items| == |xs| {
          DiffItems(xs, actual.items, path, step);
        } else {
          Push(Failure(step, path, expected, actual));
        }
      case _ =>
        if expected != actual {
          Push(Failure(step, path, expected, actual));
        }
    }

    method DiffFields(fs: seq<Field>, actual: Value, path: string, step: string)
      requires IsContainer(actual)
      modifies this
      ensures items == old(items) + FieldDiffs(fs, actual, path, step)
      decreases fs, 0
    {
      assert fs[0..] == fs;
      for i := 0 to |fs|
        invariant items + FieldDiffs(fs[i..], actual, path, step) == old(items) + FieldDiffs(fs, actual, path, step)
      {
        NextFieldDiffs(fs, i, actual, path, step);
        Concat(items, Diffs(fs[i].val, Get(actual, fs[i].key), Dot(path, fs[i].key), step),
               FieldDiffs(fs[i + 1..], actual, path, step));
        Diff(fs[i].val, Get(actual, fs[i].key), Dot(path, fs[i].key), step);
      }
    }

    method DiffItems(xs: seq<Value>, ys: seq<Value>, path: string, step: string)
      requires |xs| == |ys|
      modifies this
      ensures items == old(items) + ItemDiffs(xs, ys, 0, path, step)
      decreases xs, 0
    {
      assert xs[0..] == xs && ys[0..] == ys;
      for i := 0 to |xs|
        invariant items + ItemDiffs(xs[i..], ys[i..], i, path, step) == old(items) + ItemDiffs(xs, ys, 0, path, step)
      {
        NextItemDiffs(xs, ys, i, path, step);
        Concat(items, Diffs(xs[i], ys[i], At(path, i), step), ItemDiffs(xs[i + 1..], ys[i + 1..], i + 1, path, step));
        Diff(xs[i], ys[i], At(path, i), step);
      }
    }
  }

  // -------------------------------------------------------- subset matching

  /** `expected` is contained in `actual`: every property it names has a containing value there. */
  ghost predicate Contained(expected: Value, actual: Value)
    decreases expected
  {
    match expected
    case Obj(fs) =>
      IsContainer(actual) && forall i :: 0 <= i < |fs| ==> Contained(fs[i].val, Get(actual, fs[i].key))
    case Arr(xs) =>
      actual.Arr? && |actual.items| == |xs| && forall i :: 0 <= i < |xs| ==> Contained(xs[i], actual.items[i])
    case _ => expected == actual
  }

  /** `diff` decides containment: it reports nothing exactly when `expected` is contained. */
  lemma {:induction false} DiffDecides(expected: Value, actual: Value, path: string, step: string)
    ensures Diffs(expected, actual, path, step) == [] <==> Contained(expected, actual)
    decreases expected, 1
  {
    match expected
    case Obj(fs) => if IsContainer(actual) { FieldDiffsDecide(fs, actual, path, step); }
    case Arr(xs) => if actual.Arr? && |actual.items| == |xs| { ItemDiffsDecide(xs, actual.items, 0, path, step); }
    case _ =>
  }

  lemma {:induction false} FieldDiffsDecide(fs: seq<Field>, actual: Value, path: string, step: string)
    requires IsContainer(actual)
    ensures FieldDiffs(fs, actual, path, step) == [] <==>
            forall i :: 0 <= i < |fs| ==> Contained(fs[i].val, Get(actual, fs[i].key))
    decreases fs, 0
  {
    if fs != [] {
      DiffDecides(fs[0].val, Get(actual, fs[0].key), Dot(path, fs[0].key), step);
      FieldDiffsDecide(fs[1..], actual, path, step);
      assert forall i :: 0 < i < |fs| ==> fs[i] == fs[1..][i - 1];
    }
  }

  lemma {:induction false} ItemDiffsDecide(xs: seq<Value>, ys: seq<Value>, at: nat, path: string, step: string)
    requires |xs| == |ys|
    ensures ItemDiffs(xs, ys, at, path, step) == [] <==> forall i :: 0 <= i < |xs| ==> Contained(xs[i], ys[i])
    decreases xs, 0
  {
    if xs != [] {
      DiffDecides(xs[0], ys[0], At(path, at), step);
      ItemDiffsDecide(xs[1..], ys[1..], at + 1, path, step);
      assert forall i :: 0 < i < |xs| ==> xs[i] == xs[1..][i - 1] && ys[i] == ys[1..][i - 1];
    }
  }

  /** No object in the value repeats a key. */
  ghost predicate NoRepeatedKeys(v: Value)
    decreases v
  {
    match v
    case Arr(xs) => forall i :: 0 <= i < |xs| ==> NoRepeatedKeys(xs[i])
    case Obj(fs) => Distinct(KeysOf(fs)) && forall i :: 0 <= i < |fs| ==> NoRepeatedKeys(fs[i].val)
    case _ => true
  }

  lemma {:induction false} LookupAt(fs: seq<Field>, i: nat)
    requires i < |fs| && Distinct(KeysOf(fs))
    ensures Lookup(fs, fs[i].key) == fs[i].val
  {
    var k, ks := fs[i].key, KeysOf(fs);
    assert ks[i] == k;
    var j :| 0 <= j < |fs| && fs[j] == Field(k, Lookup(fs, k));
    assert ks[j] == k;
    assert i == j;
  }

  lemma {:induction false} ContainedReflexive(v: Value)
    requires NoRepeatedKeys(v)
    ensures Contained(v, v)
    decreases v
  {
    match v
    case Arr(xs) => forall i | 0 <= i < |xs| ensures Contained(xs[i], xs[i]) { ContainedReflexive(xs[i]); }
    case Obj(fs) =>
      forall i | 0 <= i < |fs| ensures Contained(fs[i].val, Get(v, fs[i].key)) {
        LookupAt(fs, i);
        ContainedReflexive(fs[i].val);
      }
    case _ =>
  }

  /** No object in the value has an `undefined` property; an array may have such items. */
  ghost predicate DefinedProps(v: Value)
    decreases v
  {
    match v
    case Arr(xs) => forall i :: 0 <= i < |xs| ==> DefinedProps(xs[i])
    case Obj(fs) => forall i :: 0 <= i < |fs| ==> fs[i].val != Undefined && DefinedProps(fs[i].val)
    case _ => true
  }

  /** Containment is transitive from a value without `undefined` properties. */
  lemma {:induction false} ContainedTransitive(a: Value, b: Value, c: Value)
    requires DefinedProps(a) && Contained(a, b) && Contained(b, c)
    ensures Contained(a, c)
    decreases a
  {
    match a
    case Arr(xs) =>
      forall i | 0 <= i < |xs| ensures Contained(xs[i], c.items[i]) {
        ContainedTransitive(xs[i], b.items[i], c.items[i]);
      }
    case Obj(fs) =>
      forall i | 0 <= i < |fs| ensures Contained(fs[i].val, Get(c, fs[i].key)) {
        var k := fs[i].key;
        assert Contained(fs[i].val, Get(b, k));
        ContainedGet(b, c, k);
        ContainedTransitive(fs[i].val, Get(b, k), Get(c, k));
      }
    case _ =>
  }

  /** A property that is there is contained in the property of the same name. */
  lemma {:induction false} ContainedGet(b: Value, c: Value, k: string)
    requires IsContainer(b) && Contained(b, c) && Get(b, k) != Undefined
    ensures IsContainer(c) && Contained(Get(b, k), Get(c, k))
  {
    if b.Obj? {
      var i :| 0 <= i < |b.fields| && b.fields[i] == Field(k, Get(b, k));
      assert Contained(b.fields[i].val, Get(c, b.fields[i].key));
    }
  }

  function DefinedFields(fs: seq<Field>): (r: seq<Field>)
    ensures forall f :: f in r <==> f in fs && f.val != Undefined
  {
    if fs == [] then [] else (if fs[0].val == Undefined then [] else [fs[0]]) + DefinedFields(fs[1..])
  }

  /** The value without its `undefined` properties. */
  function Stripped(v: Value): Value
    decreases v
  {
    match v
    case Arr(xs) => Arr(seq(|xs|, i requires 0 <= i < |xs| => Stripped(xs[i])))
    case Obj(fs) =>
      var kept := DefinedFields(fs);
      Obj(seq(|kept|, i requires 0 <= i < |kept| => assert kept[i] in fs; Field(kept[i].key, Stripped(kept[i].val))))
    case _ => v
  }

  /** The value with null for its `undefined` properties. */
  function Filled(v: Value): Value
    decreases v
  {
    match v
    case Arr(xs) => Arr(seq(|xs|, i requires 0 <= i < |xs| => Filled(xs[i])))
    case Obj(fs) =>
      Obj(seq(|fs|, i requires 0 <= i < |fs| =>
        Field(fs[i].key, if fs[i].val == Undefined then Null else Filled(fs[i].val))))
    case _ => v
  }

  lemma {:induction false} StrippedAt(fs: seq<Field>, i: nat)
    requires i < |fs| && Distinct(KeysOf(fs))
    ensures Get(Stripped(Obj(fs)), fs[i].key) == Stripped(fs[i].val)
  {
    var k, kept, gs := fs[i].key, DefinedFields(fs), Stripped(Obj(fs)).fields;
    forall m | 0 <= m < |kept| && kept[m].key == k ensures kept[m] == fs[i] {
      SameField(fs, kept[m], i);
    }
    if fs[i].val != Undefined {
      assert fs[i] in kept;
      var m :| 0 <= m < |kept| && kept[m] == fs[i];
      assert KeysOf(gs)[m] == k;
    }
    if k in KeysOf(gs) {
      var n :| 0 <= n < |gs| && gs[n] == Field(k, Lookup(gs, k));
      assert kept[n].key == k;
    }
  }

  /** Under distinct keys a field is known by its key. */
  lemma {:induction false} SameField(fs: seq<Field>, f: Field, i: nat)
    requires i < |fs| && Distinct(KeysOf(fs)) && f in fs && f.key == fs[i].key
    ensures f == fs[i]
  {
    var j :| 0 <= j < |fs| && fs[j] == f;
    assert KeysOf(fs)[j] == KeysOf(fs)[i];
  }

  lemma {:induction false} FilledAt(fs: seq<Field>, i: nat)
    requires i < |fs| && Distinct(KeysOf(fs))
    ensures Get(Filled(Obj(fs)), fs[i].key) == if fs[i].val == Undefined then Null else Filled(fs[i].val)
  {
    var gs := Filled(Obj(fs)).fields;
    assert KeysOf(gs) == KeysOf(fs);
    LookupAt(gs, i);
  }

  lemma {:induction false} StrippedBetween(v: Value)
    requires NoRepeatedKeys(v)
    ensures Contained(v, Stripped(v)) && Contained(Stripped(v), Filled(v))
    decreases v
  {
    match v
    case Arr(xs) =>
      forall i | 0 <= i < |xs| ensures Contained(xs[i], Stripped(xs[i])) && Contained(Stripped(xs[i]), Filled(xs[i])) {
        StrippedBetween(xs[i]);
      }
    case Obj(fs) =>
      forall i | 0 <= i < |fs| ensures Contained(fs[i].val, Get(Stripped(v), fs[i].key)) {
        StrippedAt(fs, i);
        StrippedBetween(fs[i].val);
      }
      var kept, gs := DefinedFields(fs), Stripped(v).fields;
      forall m | 0 <= m < |gs| ensures Contained(gs[m].val, Get(Filled(v), gs[m].key)) {
        assert kept[m] in fs;
        var i :| 0 <= i < |fs| && fs[i] == kept[m];
        FilledAt(fs, i);
        StrippedBetween(fs[i].val);
      }
    case _ =>
  }

  lemma {:induction false} FilledContains(v: Value)
    requires NoRepeatedKeys(v) && Contained(v, Filled(v))
    ensures DefinedProps(v)
    decreases v
  {
    match v
    case Arr(xs) =>
      forall i | 0 <= i < |xs| ensures DefinedProps(xs[i]) {
        FilledContains(xs[i]);
      }
    case Obj(fs) =>
      forall i | 0 <= i < |fs| ensures fs[i].val != Undefined && DefinedProps(fs[i].val) {
        FilledAt(fs, i);
        assert Contained(fs[i].val, Get(Filled(v), fs[i].key));
        if fs[i].val != Undefined {
          FilledContains(fs[i].val);
        }
      }
    case _ =>
  }

  /** Whatever `a` is contained in is contained only in what contains `a`. */
  ghost predicate TransitiveMatch(a: Value) {
    forall b: Value, c: Value :: Contained(a, b) && Contained(b, c) ==> Contained(a, c)
  }

  /** Matching is transitive from a value exactly when none of its properties is `undefined`. */
  lemma {:induction false} ContainedTransitiveExactly(a: Value)
    requires NoRepeatedKeys(a)
    ensures TransitiveMatch(a) <==> DefinedProps(a)
  {
    if TransitiveMatch(a) {
      StrippedBetween(a);
      FilledContains(a);
    }
    if DefinedProps(a) {
      forall b: Value, c: Value | Contained(a, b) && Contained(b, c) ensures Contained(a, c) {
        ContainedTransitive(a, b, c);
      }
    }
  }

  /** The smallest case. */
  lemma {:induction false} UndefinedBreaksTransitivity()
    ensures var a, b, c := Obj([Field("k", Undefined)]), Obj([]), Obj([Field("k", Null)]);
            Contained(a, b) && Contained(b, c) && !Contained(a, c)
  {
    var a, b, c := Obj([Field("k", Undefined)]), Obj([]), Obj([Field("k", Null)]);
    assert KeysOf(c.fields)[0] == "k";
    assert a.fields[0] == Field("k", Undefined);
    assert Get(b, "k") == Undefined;
    assert Get(c, "k") == Null;
    assert !Contained(a.fields[0].val, Get(c, a.fields[0].key));
  }

  /** One leaf function on both sides keeps a match. */
  lemma {:induction false} ContainedMap(e: Value, a: Value, f: string -> string)
    requires Contained(e, a)
    ensures Contained(MapStrings(e, f), MapStrings(a, f))
    decreases e
  {
    match e
    case Arr(xs) =>
      forall i | 0 <= i < |xs| ensures Contained(MapStrings(xs[i], f), MapStrings(a.items[i], f)) {
        ContainedMap(xs[i], a.items[i], f);
      }
    case Obj(fs) =>
      forall i | 0 <= i < |fs|
        ensures Contained(MapStrings(fs[i].val, f), Get(MapStrings(a, f), fs[i].key))
      {
        ContainedMap(fs[i].val, Get(a, fs[i].key), f);
        GetMap(a, f, fs[i].key);
      }
    case _ =>
  }

  /** Failure lists that name the same steps and the same paths. */
  ghost predicate SamePlaces(fs: seq<Failure>, gs: seq<Failure>) {
    |fs| == |gs| && forall i :: 0 <= i < |fs| ==> fs[i].step == gs[i].step && fs[i].path == gs[i].path
  }

  /** Under an injective leaf function `diff` reports at exactly the same paths. */
  lemma {:induction false} DiffsMap(e: Value, a: Value, f: string -> string, path: string, step: string)
    requires Injective(f)
    ensures SamePlaces(Diffs(MapStrings(e, f), MapStrings(a, f), path, step), Diffs(e, a, path, step))
    decreases e, 1
  {
    match e
    case Arr(xs) =>
      if a.Arr? && |a.items| == |xs| { ItemDiffsMap(xs, a.items, f, 0, path, step); }
    case Obj(fs) =>
      if IsContainer(a) { FieldDiffsMap(fs, a, f, path, step); }
    case _ =>
      MapInjective(e, a, f);
  }

  lemma {:induction false} FieldDiffsMap(fs: seq<Field>, a: Value, f: string -> string, path: string, step: string)
    requires Injective(f) && IsContainer(a)
    ensures SamePlaces(FieldDiffs(MapStrings(Obj(fs), f).fields, MapStrings(a, f), path, step),
                       FieldDiffs(fs, a, path, step))
    decreases fs, 0
  {
    if fs != [] {
      DiffsMap(fs[0].val, Get(a, fs[0].key), f, Dot(path, fs[0].key), step);
      GetMap(a, f, fs[0].key);
      FieldDiffsMap(fs[1..], a, f, path, step);
      var gs := MapStrings(Obj(fs), f).fields;
      assert gs[1..] == MapStrings(Obj(fs[1..]), f).fields;
    }
  }

  lemma {:induction false} ItemDiffsMap(xs: seq<Value>, ys: seq<Value>, f: string -> string, at: nat, path: string,
                                        step: string)
    requires Injective(f) && |xs| == |ys|
    ensures SamePlaces(ItemDiffs(MapStrings(Arr(xs), f).items, MapStrings(Arr(ys), f).items, at, path, step),
                       ItemDiffs(xs, ys, at, path, step))
    decreases xs, 0
  {
    if xs != [] {
      DiffsMap(xs[0], ys[0], f, At(path, at), step);
      ItemDiffsMap(xs[1..], ys[1..], f, at + 1, path, step);
      assert MapStrings(Arr(xs), f).items[1..] == MapStrings(Arr(xs[1..]), f).items;
      assert MapStrings(Arr(ys), f).items[1..] == MapStrings(Arr(ys[1..]), f).items;
    }
  }
}
