/**
 * What generated ids can and cannot change. A renaming acts on string leaves; resolving, normalizing
 * and matching all commute with it, and normalization erases it once every moved string is a known id.
 */
module Renaming {
  import opened Text
  import opened Json
  import opened Matching

  type Rename = string -> string

  /** `$id:n` is the runner's own notation and is never generated. */
  ghost predicate FixesPlaceholders(rho: Rename) {
    forall s :: IsPlaceholder(s) ==> rho(s) == s
  }

  ghost predicate Lawful(rho: Rename) {
    Injective(rho) && FixesPlaceholders(rho)
  }

  /** The renaming moves no string of `v`. */
  ghost predicate Fixed(v: Value, rho: Rename) {
    MapStrings(v, rho) == v
  }

  function RenamedIds(ids: seq<string>, rho: Rename): (r: seq<string>)
    ensures |r| == |ids|
    ensures forall i :: 0 <= i < |ids| ==> r[i] == rho(ids[i])
  {
    seq(|ids|, i requires 0 <= i < |ids| => rho(ids[i]))
  }

  function RenamedResult(r: CallResult, rho: Rename): CallResult {
    match r
    case Ok(v) => Ok(MapStrings(v, rho))
    case Err(code, detail) => Err(code, MapStrings(detail, rho))
  }

  ghost predicate RenamedRaw(raw: Raw, raw': Raw, rho: Rename) {
    && raw'.Keys == raw.Keys
    && forall k :: k in raw ==> raw'[k] == RenamedResult(raw[k], rho)
  }

  // ------------------------------------------------------------ normalization

  lemma {:induction false} PlaceholderShape(n: nat)
    ensures IsPlaceholder(Placeholder(n)) && ParseDecimal(Placeholder(n)[4..]) == n
  {
    DecimalRoundTrip(n);
    assert Placeholder(n)[..4] == "$id:" && Placeholder(n)[4..] == Decimal(n);
  }

  lemma {:induction false} IdIndexRenamed(ids: seq<string>, s: string, rho: Rename)
    requires Injective(rho)
    ensures IdIndex(RenamedIds(ids, rho), rho(s)) == IdIndex(ids, s)
  {
    if ids != [] && ids[0] != s {
      IdIndexRenamed(ids[1..], s, rho);
      assert RenamedIds(ids, rho)[1..] == RenamedIds(ids[1..], rho);
    }
  }

  lemma {:induction false} NormalStringRenamed(s: string, ids: seq<string>, rho: Rename)
    requires Lawful(rho)
    ensures NormalString(rho(s), RenamedIds(ids, rho)) == rho(NormalString(s, ids))
  {
    IdIndexRenamed(ids, s, rho);
    PlaceholderShape(IdIndex(ids, s) + 1);
  }

  lemma {:induction false} MapFieldsFirst(fs: seq<Field>, f: string -> string)
    requires fs != []
    ensures MapStrings(Obj(fs), f).fields
            == [Field(fs[0].key, MapStrings(fs[0].val, f))] + MapStrings(Obj(fs[1..]), f).fields
  {
  }

  lemma {:induction false} StableFirst(g: Field, rest: seq<Field>)
    ensures Stable([g] + rest) == (if g.key in VOLATILE then [] else [g]) + Stable(rest)
  {
    assert ([g] + rest)[1..] == rest;
  }

  lemma {:induction false} StableMap(fs: seq<Field>, f: string -> string)
    ensures Stable(MapStrings(Obj(fs), f).fields) == MapStrings(Obj(Stable(fs)), f).fields
  {
    if fs != [] {
      StableMap(fs[1..], f);
      var g := Field(fs[0].key, MapStrings(fs[0].val, f));
      var rest := MapStrings(Obj(fs[1..]), f).fields;
      MapFieldsFirst(fs, f);
      StableFirst(g, rest);
      if fs[0].key !in VOLATILE {
        MapFieldsFirst([fs[0]] + Stable(fs[1..]), f);
        assert ([fs[0]] + Stable(fs[1..]))[1..] == Stable(fs[1..]);
      }
    }
  }

  /** Normalizing a renamed value renames the normalized value. */
  lemma {:induction false} NormalizeRenamed(v: Value, ids: seq<string>, rho: Rename)
    requires Lawful(rho)
    ensures Normalize(MapStrings(v, rho), RenamedIds(ids, rho)) == MapStrings(Normalize(v, ids), rho)
    decreases v
  {
    match v
    case Str(s) => NormalStringRenamed(s, ids, rho);
    case Arr(xs) => forall i | 0 <= i < |xs| { NormalizeRenamed(xs[i], ids, rho); }
    case Obj(fs) =>
      StableMap(fs, rho);
      var kept := Stable(fs);
      var kept', ids' := MapStrings(Obj(kept), rho).fields, RenamedIds(ids, rho);
      forall i | 0 <= i < |kept|
        ensures Normalize(kept'[i].val, ids') == MapStrings(Normalize(kept[i].val, ids), rho)
      {
        assert kept[i] in fs;
        NormalizeRenamed(kept[i].val, ids, rho);
      }
      var lhs, rhs := Normalize(MapStrings(v, rho), ids').fields, MapStrings(Normalize(v, ids), rho).fields;
      assert |lhs| == |kept'| == |rhs|;
      assert forall i :: 0 <= i < |lhs| ==> lhs[i] == rhs[i];
      assert lhs == rhs;
    case _ =>
  }

  /** `s` occurs in `v` at a place that normalization keeps. */
  ghost predicate Occurs(s: string, v: Value)
    decreases v
  {
    match v
    case Str(t) => s == t
    case Arr(xs) => exists i :: 0 <= i < |xs| && Occurs(s, xs[i])
    case Obj(fs) => exists f :: f in fs && f.key !in VOLATILE && Occurs(s, f.val)
    case _ => false
  }

  /** Every string the renaming moves has been captured as an id. */
  ghost predicate Surfaced(v: Value, ids: seq<string>, rho: Rename) {
    forall s :: Occurs(s, v) && rho(s) != s ==> s in ids
  }

  /**
   * Normalized values show no trace of the renaming exactly when every moved string in a kept place
   * has surfaced as an id.
   */
  lemma {:induction false} SurfacedErases(v: Value, ids: seq<string>, rho: Rename)
    requires Lawful(rho)
    ensures Fixed(Normalize(v, ids), rho) <==> Surfaced(v, ids, rho)
    decreases v
  {
    match v
    case Str(s) =>
      PlaceholderShape(IdIndex(ids, s) + 1);
      assert Occurs(s, v);
    case Arr(xs) =>
      var ys := Normalize(v, ids).items;
      var zs := MapStrings(Normalize(v, ids), rho).items;
      forall i | 0 <= i < |xs| ensures ys[i] == zs[i] <==> Surfaced(xs[i], ids, rho) {
        SurfacedErases(xs[i], ids, rho);
      }
      assert ys == zs <==> forall i :: 0 <= i < |xs| ==> ys[i] == zs[i];
      assert forall i, s :: 0 <= i < |xs| && Occurs(s, xs[i]) ==> Occurs(s, v);
    case Obj(fs) =>
      var kept := Stable(fs);
      var ys := Normalize(v, ids).fields;
      var zs := MapStrings(Normalize(v, ids), rho).fields;
      forall i | 0 <= i < |kept| ensures ys[i] == zs[i] <==> Surfaced(kept[i].val, ids, rho) {
        assert kept[i] in fs;
        SurfacedErases(kept[i].val, ids, rho);
      }
      assert ys == zs <==> forall i :: 0 <= i < |kept| ==> ys[i] == zs[i];
      SurfacedFields(fs, ids, rho);
    case _ =>
  }

  ghost predicate FieldsSurfaced(kept: seq<Field>, ids: seq<string>, rho: Rename) {
    forall i :: 0 <= i < |kept| ==> Surfaced(kept[i].val, ids, rho)
  }

  lemma {:induction false} SurfacedFields(fs: seq<Field>, ids: seq<string>, rho: Rename)
    ensures Surfaced(Obj(fs), ids, rho) <==> FieldsSurfaced(Stable(fs), ids, rho)
  {
    var v, kept := Obj(fs), Stable(fs);
    if Surfaced(v, ids, rho) {
      forall i | 0 <= i < |kept| ensures Surfaced(kept[i].val, ids, rho) {
        assert kept[i] in fs;
        assert forall s :: Occurs(s, kept[i].val) ==> Occurs(s, v);
      }
    }
    if FieldsSurfaced(kept, ids, rho) {
      forall s | Occurs(s, v) && rho(s) != s ensures s in ids {
        var f :| f in fs && f.key !in VOLATILE && Occurs(s, f.val);
        assert f in kept;
        var i :| 0 <= i < |kept| && kept[i] == f;
        assert Surfaced(kept[i].val, ids, rho);
      }
    }
  }

  // -------------------------------------------------------- one more known id

  /** What capturing `x` as id number `n` does to a normalized string. */
  function Capture(x: string, n: nat): Rename {
    s => if s == x then Placeholder(n) else s
  }

  lemma {:induction false} IdIndexAppend(ids: seq<string>, x: string, s: string)
    ensures IdIndex(ids + [x], s) == if s in ids then IdIndex(ids, s) else if s == x then |ids| else |ids| + 1
  {
    if ids != [] && ids[0] != s {
      assert (ids + [x])[1..] == ids[1..] + [x];
      IdIndexAppend(ids[1..], x, s);
    }
  }

  /** `x` is spelled like the placeholder of one of the first `n` ids. */
  predicate Shadows(x: string, n: nat) {
    exists k :: 1 <= k <= n && Placeholder(k) == x
  }

  /** Normalizing with one more id is capturing that id in the value normalized before. */
  lemma {:induction false} NormalizeCaptured(v: Value, ids: seq<string>, x: string)
    requires x !in ids && !Shadows(x, |ids|)
    ensures Normalize(v, ids + [x]) == MapStrings(Normalize(v, ids), Capture(x, |ids| + 1))
    decreases v
  {
    match v
    case Str(s) =>
      IdIndexAppend(ids, x, s);
      if s in ids { assert Placeholder(IdIndex(ids, s) + 1) != x; }
    case Arr(xs) => forall i | 0 <= i < |xs| { NormalizeCaptured(xs[i], ids, x); }
    case Obj(fs) =>
      var kept := Stable(fs);
      forall i | 0 <= i < |kept|
        ensures Normalize(kept[i].val, ids + [x]) == MapStrings(Normalize(kept[i].val, ids), Capture(x, |ids| + 1))
      {
        assert kept[i] in fs;
        NormalizeCaptured(kept[i].val, ids, x);
      }
      var lhs := Normalize(v, ids + [x]).fields;
      var rhs := MapStrings(Normalize(v, ids), Capture(x, |ids| + 1)).fields;
      assert forall i :: 0 <= i < |kept| ==> lhs[i] == rhs[i];
      assert lhs == rhs;
    case _ =>
  }

  // ---------------------------------------------------------------- resolving

  lemma {:induction false} FollowRenamed(v: Value, path: seq<string>, rho: Rename)
    ensures Follow(MapStrings(v, rho), path) == MapStrings(Follow(v, path), rho)
    decreases path
  {
    if path != [] {
      if IsContainer(v) {
        GetMap(v, rho, path[0]);
        FollowRenamed(Get(v, path[0]), path[1..], rho);
      } else {
        FollowRenamed(Undefined, path[1..], rho);
      }
    }
  }

  lemma {:induction false} ResolveStringRenamed(s: string, raw: Raw, raw': Raw, ids: seq<string>, useIds: bool,
                                                rho: Rename)
    requires RenamedRaw(raw, raw', rho) && rho(s) == s
    ensures ResolveString(s, raw', RenamedIds(ids, rho), useIds) == MapStrings(ResolveString(s, raw, ids, useIds), rho)
  {
    if s != "" && s[0] == '$' && !IsPlaceholder(s) {
      var parts := Split(s[1..], '.');
      if parts[0] in raw && raw[parts[0]].Ok? {
        FollowRenamed(raw[parts[0]].value, parts[1..], rho);
      }
    }
  }

  /** A literal the renaming fixes resolves to the renamed value. */
  lemma {:induction false} ResolveRenamed(v: Value, raw: Raw, raw': Raw, ids: seq<string>, useIds: bool, rho: Rename)
    requires RenamedRaw(raw, raw', rho) && Fixed(v, rho)
    ensures Resolve(v, raw', RenamedIds(ids, rho), useIds) == MapStrings(Resolve(v, raw, ids, useIds), rho)
    decreases v
  {
    match v
    case Str(s) => ResolveStringRenamed(s, raw, raw', ids, useIds, rho);
    case Arr(xs) =>
      var ids' := RenamedIds(ids, rho);
      var lhs, rhs := Resolve(v, raw', ids', useIds).items, MapStrings(Resolve(v, raw, ids, useIds), rho).items;
      forall i | 0 <= i < |xs| ensures lhs[i] == rhs[i] {
        assert MapStrings(v, rho).items[i] == xs[i];
        ResolveRenamed(xs[i], raw, raw', ids, useIds, rho);
      }
      assert lhs == rhs;
    case Obj(fs) =>
      var ids' := RenamedIds(ids, rho);
      var lhs, rhs := Resolve(v, raw', ids', useIds).fields, MapStrings(Resolve(v, raw, ids, useIds), rho).fields;
      forall i | 0 <= i < |fs| ensures lhs[i] == rhs[i] {
        assert MapStrings(v, rho).fields[i] == fs[i];
        ResolveRenamed(fs[i].val, raw, raw', ids, useIds, rho);
      }
      assert lhs == rhs;
    case _ =>
  }
}
