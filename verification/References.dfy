/**
 * What `resolveRefs` and `normalize` make of each place in a value. Both keep the shape; only string leaves change,
 * and `normalize` drops some properties.
 */
module References {
  import opened Text
  import opened Assoc
  import opened Json
  import opened Matching

  datatype PathStep = Key(k: string) | Item(i: nat)

  /** The value at the end of a path through own properties and array items. */
  ghost function Below(v: Value, path: seq<PathStep>): Option<Value>
    decreases path
  {
    if path == [] then Some(v)
    else
      match path[0]
      case Item(i) => if v.Arr? && i < |v.items| then Below(v.items[i], path[1..]) else None
      case Key(k) => if v.Obj? && k in KeysOf(v.fields) then Below(Get(v, k), path[1..]) else None
  }

  // ------------------------------------------------------------- one property

  /** Two objects with the same keys answer a key at the same position. */
  lemma {:induction false} SamePosition(fs: seq<Field>, gs: seq<Field>, k: string) returns (i: nat)
    requires KeysOf(fs) == KeysOf(gs) && k in KeysOf(fs)
    ensures i < |fs| == |gs| && fs[i].key == k
    ensures Lookup(fs, k) == fs[i].val && Lookup(gs, k) == gs[i].val
  {
    assert |fs| == |KeysOf(fs)| == |gs|;
    var n := |fs| - 1;
    assert fs[n].key == KeysOf(fs)[n] == gs[n].key;
    if fs[n].key == k {
      i := n;
    } else {
      assert KeysOf(fs[..n]) == KeysOf(fs)[..n] == KeysOf(gs[..n]);
      assert k in KeysOf(fs[..n]) by {
        var j :| 0 <= j < |fs| && KeysOf(fs)[j] == k;
        assert KeysOf(fs[..n])[j] == k;
      }
      i := SamePosition(fs[..n], gs[..n], k);
    }
  }

  lemma {:induction false} ResolveProperty(fs: seq<Field>, raw: Raw, ids: seq<string>, useIds: bool, k: string)
    ensures var gs := Resolve(Obj(fs), raw, ids, useIds).fields;
            && KeysOf(gs) == KeysOf(fs)
            && (k in KeysOf(fs) ==> Lookup(gs, k) == Resolve(Lookup(fs, k), raw, ids, useIds))
  {
    var gs := Resolve(Obj(fs), raw, ids, useIds).fields;
    assert KeysOf(gs) == KeysOf(fs);
    if k in KeysOf(fs) {
      var i := SamePosition(fs, gs, k);
    }
  }

  // ----------------------------------------------------------- what a leaf names

  /** `s` is `$id:` and the digits of `n`. */
  ghost predicate NamesId(s: string, n: nat) {
    exists d :: AllDigits(d) && d != "" && s == "$id:" + d && n == ParseDecimal(d)
  }

  /** `s` is `$` and these parts with dots between them: a step, and a path into its answer. */
  ghost predicate NamesStep(s: string, parts: seq<string>) {
    parts != [] && (forall i :: 0 <= i < |parts| ==> '.' !in parts[i]) && s == "$" + Joined(parts, '.')
  }

  /** Each value is the property of the one before; what is no container has none. */
  ghost predicate Chained(vs: seq<Value>, keys: seq<string>) {
    && |vs| == |keys| + 1
    && forall i :: 0 <= i < |keys| ==> vs[i + 1] == if IsContainer(vs[i]) then Get(vs[i], keys[i]) else Undefined
  }

  /** Following the keys one at a time leads from `v` to `r`. */
  ghost predicate Reaches(v: Value, keys: seq<string>, r: Value) {
    exists vs :: Chained(vs, keys) && vs[0] == v && vs[|keys|] == r
  }

  /** What the string leaf `s` has to become. */
  ghost predicate StandsFor(s: string, r: Value, raw: Raw, ids: seq<string>, useIds: bool) {
    && (forall n: nat :: NamesId(s, n) ==> r == if useIds && 1 <= n <= |ids| then Str(ids[n - 1]) else Str(s))
    && ((forall n: nat :: !NamesId(s, n)) ==> forall parts :: NamesStep(s, parts) ==> StepValue(parts, s, r, raw))
    && (s == "" || s[0] != '$' ==> r == Str(s))
  }

  /** The answer of a step that succeeded is read; otherwise the leaf stays. */
  ghost predicate StepValue(parts: seq<string>, s: string, r: Value, raw: Raw)
    requires parts != []
  {
    if parts[0] != "" && parts[0] in raw && raw[parts[0]].Ok? then Reaches(raw[parts[0]].value, parts[1..], r)
    else r == Str(s)
  }

  lemma {:induction false} FollowReaches(v: Value, keys: seq<string>)
    ensures Reaches(v, keys, Follow(v, keys))
    decreases |keys|
  {
    if keys == [] {
      assert Chained([v], keys) && [v][0] == v;
    } else {
      var u := if IsContainer(v) then Get(v, keys[0]) else Undefined;
      FollowReaches(u, keys[1..]);
      var us :| Chained(us, keys[1..]) && us[0] == u && us[|keys[1..]|] == Follow(v, keys);
      var vs := [v] + us;
      forall i | 0 <= i < |keys|
        ensures vs[i + 1] == if IsContainer(vs[i]) then Get(vs[i], keys[i]) else Undefined
      {
        if i > 0 {
          assert vs[i] == us[i - 1] && keys[i] == keys[1..][i - 1];
        }
      }
      assert Chained(vs, keys) && vs[0] == v && vs[|keys|] == Follow(v, keys);
    }
  }

  /** Only one value is reached. */
  lemma {:induction false} ReachesOne(v: Value, keys: seq<string>, r: Value)
    requires Reaches(v, keys, r)
    ensures r == Follow(v, keys)
    decreases |keys|
  {
    var vs :| Chained(vs, keys) && vs[0] == v && vs[|keys|] == r;
    if keys != [] {
      var us := vs[1..];
      assert Chained(us, keys[1..]) by {
        forall i | 0 <= i < |keys[1..]|
          ensures us[i + 1] == if IsContainer(us[i]) then Get(us[i], keys[1..][i]) else Undefined
        {
          assert us[i + 1] == vs[i + 2] && us[i] == vs[i + 1] && keys[1..][i] == keys[i + 1];
        }
      }
      assert us[|keys[1..]|] == r;
      ReachesOne(us[0], keys[1..], r);
    }
  }

  lemma {:induction false} PlaceholderNames(s: string)
    ensures IsPlaceholder(s) <==> exists n: nat :: NamesId(s, n)
    ensures forall n: nat :: NamesId(s, n) ==> IsPlaceholder(s) && n == ParseDecimal(s[4..])
  {
    if IsPlaceholder(s) {
      assert s == "$id:" + s[4..];
      assert NamesId(s, ParseDecimal(s[4..]));
    }
    forall n: nat | NamesId(s, n) ensures IsPlaceholder(s) && n == ParseDecimal(s[4..]) {
      var d :| AllDigits(d) && d != "" && s == "$id:" + d && n == ParseDecimal(d);
      assert s[4..] == d && s[..4] == "$id:";
    }
  }

  /** The parts of a reference are those of the split text. */
  lemma {:induction false} StepNames(s: string)
    requires s != "" && s[0] == '$'
    ensures NamesStep(s, Split(s[1..], '.'))
    ensures forall parts :: NamesStep(s, parts) ==> parts == Split(s[1..], '.')
  {
    JoinedSplit(s[1..], '.');
    assert s == "$" + s[1..];
    forall parts | NamesStep(s, parts) ensures parts == Split(s[1..], '.') {
      assert s[1..] == Joined(parts, '.');
      SplitJoined(parts, '.');
    }
  }

  lemma {:induction false} StepLeaf(s: string, r: Value, raw: Raw, ids: seq<string>, useIds: bool)
    requires s != "" && s[0] == '$' && !IsPlaceholder(s)
    ensures StepValue(Split(s[1..], '.'), s, r, raw) <==> r == ResolveString(s, raw, ids, useIds)
  {
    var parts := Split(s[1..], '.');
    if parts[0] != "" && parts[0] in raw && raw[parts[0]].Ok? {
      var v := raw[parts[0]].value;
      FollowReaches(v, parts[1..]);
      if Reaches(v, parts[1..], r) {
        ReachesOne(v, parts[1..], r);
      }
    }
  }

  lemma {:induction false} IdLeaf(s: string, r: Value, raw: Raw, ids: seq<string>, useIds: bool)
    requires IsPlaceholder(s)
    ensures StandsFor(s, r, raw, ids, useIds) <==> r == ResolveString(s, raw, ids, useIds)
  {
    PlaceholderNames(s);
    assert s == "$id:" + s[4..];
    assert NamesId(s, ParseDecimal(s[4..]));
    assert s[0] == s[..4][0] == '$';
  }

  lemma {:induction false} PathLeaf(s: string, r: Value, raw: Raw, ids: seq<string>, useIds: bool)
    requires s != "" && s[0] == '$' && !IsPlaceholder(s)
    ensures StandsFor(s, r, raw, ids, useIds) <==> r == ResolveString(s, raw, ids, useIds)
  {
    PlaceholderNames(s);
    StepNames(s);
    StepLeaf(s, r, raw, ids, useIds);
  }

  lemma {:induction false} PlainLeaf(s: string, r: Value, raw: Raw, ids: seq<string>, useIds: bool)
    requires s == "" || s[0] != '$'
    ensures StandsFor(s, r, raw, ids, useIds) <==> r == Str(s)
  {
    PlaceholderNames(s);
    assert forall parts :: !NamesStep(s, parts);
  }

  /** A leaf becomes what it stands for, and it stands for one value only. */
  lemma {:induction false} LeafExact(s: string, r: Value, raw: Raw, ids: seq<string>, useIds: bool)
    ensures StandsFor(s, r, raw, ids, useIds) <==> r == Resolve(Str(s), raw, ids, useIds)
  {
    if s == "" || s[0] != '$' {
      PlainLeaf(s, r, raw, ids, useIds);
    } else if IsPlaceholder(s) {
      IdLeaf(s, r, raw, ids, useIds);
    } else {
      PathLeaf(s, r, raw, ids, useIds);
    }
  }

  // ------------------------------------------------------------------ results

  /** `r` has the shape of `u`, and is `u` unless that is a container or a string. */
  ghost predicate SameShape(u: Value, r: Value) {
    match u
    case Arr(xs) => r.Arr? && |r.items| == |xs|
    case Obj(fs) => r.Obj? && KeysOf(r.fields) == KeysOf(fs)
    case Str(_) => true
    case _ => r == u
  }

  /** At every place of a value, resolving keeps the shape and gives a string leaf what it stands for. */
  lemma {:induction false} ResolvedAt(v: Value, raw: Raw, ids: seq<string>, useIds: bool, path: seq<PathStep>)
    requires Below(v, path).Some?
    ensures var u, r := Below(v, path).value, Below(Resolve(v, raw, ids, useIds), path);
            && r.Some? && SameShape(u, r.value)
            && (u.Str? ==> StandsFor(u.s, r.value, raw, ids, useIds))
    decreases path
  {
    if path == [] {
      if v.Str? {
        LeafExact(v.s, Resolve(v, raw, ids, useIds), raw, ids, useIds);
      } else if v.Obj? {
        ResolveProperty(v.fields, raw, ids, useIds, "");
      }
    } else {
      match path[0]
      case Item(i) => ResolvedAt(v.items[i], raw, ids, useIds, path[1..]);
      case Key(k) =>
        ResolveProperty(v.fields, raw, ids, useIds, k);
        ResolvedAt(Get(v, k), raw, ids, useIds, path[1..]);
    }
  }

  // ------------------------------------------------------------- normalization

  /** A known id becomes the placeholder of its first place, any other string stays. */
  ghost predicate Named(s: string, r: Value, ids: seq<string>) {
    && (s !in ids ==> r == Str(s))
    && forall i :: 0 <= i < |ids| && ids[i] == s && s !in ids[..i] ==> r == Str("$id:" + Decimal(i + 1))
  }

  /** The properties that differ from run to run and target to target. */
  ghost predicate DiffersByRun(k: string) {
    || k == "createdAt" || k == "updatedAt" || k == "requestId"
    || k == "etag" || k == "expiresAt" || k == "url"
  }

  lemma {:induction false} LookupCons(f: Field, rest: seq<Field>, k: string)
    ensures Lookup([f] + rest, k)
         == if k in KeysOf(rest) then Lookup(rest, k) else if f.key == k then f.val else Undefined
    ensures k in KeysOf([f] + rest) <==> k == f.key || k in KeysOf(rest)
  {
    var fs := [f] + rest;
    assert KeysOf(fs) == [f.key] + KeysOf(rest);
    if rest == [] {
      assert fs == [f];
    } else {
      var n := |rest| - 1;
      assert fs[..|fs| - 1] == [f] + rest[..n];
      assert KeysOf(rest) == KeysOf(rest[..n]) + [rest[n].key];
      LookupCons(f, rest[..n], k);
    }
  }

  lemma {:induction false} StableLookup(fs: seq<Field>, k: string)
    ensures k in KeysOf(Stable(fs)) <==> k in KeysOf(fs) && k !in VOLATILE
    ensures k !in VOLATILE ==> Lookup(Stable(fs), k) == Lookup(fs, k)
  {
    if fs != [] {
      var f, rest := fs[0], fs[1..];
      assert fs == [f] + rest;
      StableLookup(rest, k);
      LookupCons(f, rest, k);
      LookupCons(f, Stable(rest), k);
      if f.key in VOLATILE {
        assert Stable(fs) == Stable(rest);
      }
    }
  }

  lemma {:induction false} NormalizeProperty(fs: seq<Field>, ids: seq<string>, k: string)
    ensures var gs := Normalize(Obj(fs), ids).fields;
            && (k in KeysOf(gs) <==> k in KeysOf(fs) && k !in VOLATILE)
            && (k in KeysOf(gs) ==> Lookup(gs, k) == Normalize(Lookup(fs, k), ids))
  {
    var kept, gs := Stable(fs), Normalize(Obj(fs), ids).fields;
    assert KeysOf(gs) == KeysOf(kept);
    StableLookup(fs, k);
    if k in KeysOf(gs) {
      var i := SamePosition(kept, gs, k);
    }
  }

  lemma {:induction false} NamedExact(s: string, r: Value, ids: seq<string>)
    ensures Named(s, r, ids) <==> r == Normalize(Str(s), ids)
  {
    if s in ids {
      var i := IdIndex(ids, s);
      assert ids[i] == s && s !in ids[..i];
      assert forall j :: i < j < |ids| ==> ids[..j][i] == s;
    }
  }

  /** Like `Below`, but not through properties that `normalize` drops. */
  ghost predicate Survives(path: seq<PathStep>) {
    forall i :: 0 <= i < |path| && path[i].Key? ==> !DiffersByRun(path[i].k)
  }

  ghost predicate NormalAt(u: Value, r: Value, ids: seq<string>) {
    match u
    case Str(s) => Named(s, r, ids)
    case Arr(xs) => r.Arr? && |r.items| == |xs|
    case Obj(fs) =>
      r.Obj? && forall k :: k in KeysOf(r.fields) <==> k in KeysOf(fs) && !DiffersByRun(k)
    case _ => r == u
  }

  lemma {:induction false} VolatileKeys(k: string)
    ensures k in VOLATILE <==> DiffersByRun(k)
  {
  }

  /** At every place normalization reaches, known ids have become placeholders and nothing else has changed. */
  lemma {:induction false} NormalizedAt(v: Value, ids: seq<string>, path: seq<PathStep>)
    requires Below(v, path).Some? && Survives(path)
    ensures var r := Below(Normalize(v, ids), path); r.Some? && NormalAt(Below(v, path).value, r.value, ids)
    decreases path
  {
    if path == [] {
      if v.Str? {
        NamedExact(v.s, Normalize(v, ids), ids);
      } else if v.Obj? {
        forall k ensures k in KeysOf(Normalize(v, ids).fields) <==> k in KeysOf(v.fields) && !DiffersByRun(k) {
          NormalizeProperty(v.fields, ids, k);
          VolatileKeys(k);
        }
      }
    } else {
      assert Survives(path[1..]);
      match path[0]
      case Item(i) => NormalizedAt(v.items[i], ids, path[1..]);
      case Key(k) =>
        NormalizeProperty(v.fields, ids, k);
        VolatileKeys(k);
        NormalizedAt(Get(v, k), ids, path[1..]);
    }
  }
}
