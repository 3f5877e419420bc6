/**
 * The fixture extractor: a selection of a document and the closure of its local references, copied into a
 * partial document while the reference graph, which may be cyclic, is walked.
 */
module Closure {
  import opened Text
  import opened Assoc
  import opened Json
  import opened Pointer

  datatype Error = ExternalRef(r: string) | NotAString | Unresolvable(r: string)

  predicate IsLocal(r: string) {
    |r| >= 2 && r[..2] == "#/"
  }

  function UnescapeAll(parts: seq<string>): (ks: seq<string>)
    ensures |ks| == |parts|
  {
    seq(|parts|, i requires 0 <= i < |parts| => Unescape(parts[i]))
  }

  /** The property names a local reference goes through. */
  function PathOf(r: string): (ks: seq<string>)
    ensures ks != []
  {
    UnescapeAll(Split(if IsLocal(r) then r[2..] else r, '/'))
  }

  lemma {:induction false} EscapeClear(k: string)
    ensures '/' !in Escape(k)
  {
    if k != "" {
      EscapeClear(k[1..]);
    }
  }

  /** The pointer to a path of property names, as RFC 6901 writes it. */
  function PointerTo(keys: seq<string>): string
    requires keys != []
  {
    "#/" + Joined(seq(|keys|, i requires 0 <= i < |keys| => Escape(keys[i])), '/')
  }

  /** Each path is recovered from its pointer. */
  lemma {:induction false} PathOfPointer(keys: seq<string>)
    requires keys != []
    ensures IsLocal(PointerTo(keys)) && PathOf(PointerTo(keys)) == keys
  {
    var parts := seq(|keys|, i requires 0 <= i < |keys| => Escape(keys[i]));
    forall i | 0 <= i < |parts| ensures '/' !in parts[i] && Unescape(parts[i]) == keys[i] {
      EscapeClear(keys[i]);
      UnescapeEscape(keys[i]);
    }
    SplitJoined(parts, '/');
    assert PointerTo(keys)[..2] == "#/" && PointerTo(keys)[2..] == Joined(parts, '/');
    assert UnescapeAll(parts) == keys;
  }

  /** The reference is local and goes through objects of the document. */
  predicate Resolves(doc: Value, r: string) {
    IsLocal(r) && At(doc, PathOf(r)).Some?
  }

  function TargetOf(doc: Value, r: string): Value
    requires Resolves(doc, r)
  {
    At(doc, PathOf(r)).value
  }

  // ------------------------------------------------------- references of a value

  function OwnRef(fs: seq<Field>): set<string> {
    if Lookup(fs, "$ref").Str? then {Lookup(fs, "$ref").s} else {}
  }

  /** Every reference written anywhere in `v`. */
  function RefsIn(v: Value): set<string>
    decreases v, 0
  {
    match v
    case Arr(xs) => ItemRefs(xs)
    case Obj(fs) => OwnRef(fs) + FieldRefs(fs)
    case _ => {}
  }

  function ItemRefs(xs: seq<Value>): set<string>
    decreases xs, 1
  {
    if xs == [] then {} else RefsIn(xs[0]) + ItemRefs(xs[1..])
  }

  function FieldRefs(fs: seq<Field>): set<string>
    decreases fs, 1
  {
    if fs == [] then {} else RefsIn(fs[0].val) + FieldRefs(fs[1..])
  }

  /** `$ref` is only ever a string in `v`. */
  predicate StringRefs(v: Value)
    decreases v, 0
  {
    match v
    case Arr(xs) => forall i :: 0 <= i < |xs| ==> StringRefs(xs[i])
    case Obj(fs) =>
      && ("$ref" in KeysOf(fs) ==> Lookup(fs, "$ref").Str?)
      && forall i :: 0 <= i < |fs| ==> StringRefs(fs[i].val)
    case _ => true
  }

  /** `u` is `v`, or an item or member of it, or of one of those, and so on. */
  ghost predicate Inside(u: Value, v: Value)
    decreases v
  {
    u == v ||
    match v
    case Arr(xs) => exists i :: 0 <= i < |xs| && Inside(u, xs[i])
    case Obj(fs) => exists i :: 0 <= i < |fs| && Inside(u, fs[i].val)
    case _ => false
  }

  /** The references of a value are the strings that objects inside it have at `$ref`. */
  lemma {:induction false} RefsExact(v: Value, q: string)
    ensures q in RefsIn(v) <==> exists o :: Inside(o, v) && o.Obj? && Lookup(o.fields, "$ref") == Str(q)
    decreases v, 0
  {
    match v
    case Arr(xs) => ItemRefsExact(xs, q);
    case Obj(fs) =>
      FieldRefsExact(fs, q);
      if Lookup(fs, "$ref") == Str(q) {
        assert Inside(v, v);
      }
    case _ =>
  }

  lemma {:induction false} ItemRefsExact(xs: seq<Value>, q: string)
    ensures q in ItemRefs(xs) <==>
            exists o, i :: 0 <= i < |xs| && Inside(o, xs[i]) && o.Obj? && Lookup(o.fields, "$ref") == Str(q)
    decreases xs, 1
  {
    if xs != [] {
      RefsExact(xs[0], q);
      ItemRefsExact(xs[1..], q);
      assert forall i :: 0 < i < |xs| ==> xs[i] == xs[1..][i - 1];
    }
  }

  lemma {:induction false} FieldRefsExact(fs: seq<Field>, q: string)
    ensures q in FieldRefs(fs) <==>
            exists o, i :: 0 <= i < |fs| && Inside(o, fs[i].val) && o.Obj? && Lookup(o.fields, "$ref") == Str(q)
    decreases fs, 1
  {
    if fs != [] {
      RefsExact(fs[0].val, q);
      FieldRefsExact(fs[1..], q);
      assert forall i :: 0 < i < |fs| ==> fs[i] == fs[1..][i - 1];
    }
  }

  /** `$ref` is a string in every object inside the value. */
  lemma {:induction false} StringRefsExact(v: Value)
    ensures StringRefs(v) <==>
            forall o :: Inside(o, v) && o.Obj? && "$ref" in KeysOf(o.fields) ==> Lookup(o.fields, "$ref").Str?
    decreases v
  {
    match v
    case Arr(xs) =>
      forall i | 0 <= i < |xs| { StringRefsExact(xs[i]); }
    case Obj(fs) =>
      forall i | 0 <= i < |fs| { StringRefsExact(fs[i].val); }
      assert Inside(v, v);
    case _ =>
  }

  lemma {:induction false} FieldRefsAt(fs: seq<Field>, i: nat)
    requires i < |fs|
    ensures RefsIn(fs[i].val) <= FieldRefs(fs)
    decreases |fs|
  {
    if i > 0 {
      FieldRefsAt(fs[1..], i - 1);
    }
  }

  /** The references below a path are references of the whole; so are string references. */
  lemma {:induction false} RefsBelow(v: Value, keys: seq<string>)
    requires At(v, keys).Some?
    ensures RefsIn(At(v, keys).value) <= RefsIn(v)
    ensures StringRefs(v) ==> StringRefs(At(v, keys).value)
    decreases keys
  {
    if keys != [] {
      var i :| 0 <= i < |v.fields| && v.fields[i] == Field(keys[0], Lookup(v.fields, keys[0]));
      FieldRefsAt(v.fields, i);
      RefsBelow(Lookup(v.fields, keys[0]), keys[1..]);
    }
  }

  // ---------------------------------------------------------------- fixpoints

  /** The set holds the references of every value its references point at. */
  ghost predicate Closed(doc: Value, c: set<string>) {
    forall r :: r in c && Resolves(doc, r) ==> RefsIn(TargetOf(doc, r)) <= c
  }

  /** The reference resolves, and every `$ref` in what it points at is a string. */
  ghost predicate Sound(doc: Value, r: string) {
    Resolves(doc, r) && StringRefs(TargetOf(doc, r))
  }

  /**
   * From `before` to `after` references were added so that `need` is covered: all of them are sound, what they point
   * at is covered too, and each was forced, because every closed set with `need` has it.
   */
  ghost predicate Grew(doc: Value, before: set<string>, after: set<string>, need: set<string>) {
    && before <= after
    && need <= after
    && (forall r :: r in after - before ==> Sound(doc, r) && RefsIn(TargetOf(doc, r)) <= after)
    && (forall c :: Closed(doc, c) && need <= c ==> after - before <= c)
  }

  lemma {:induction false} GrewNothing(doc: Value, refs: set<string>)
    ensures Grew(doc, refs, refs, {})
  {
  }

  lemma {:induction false} GrewBoth(doc: Value, a: set<string>, b: set<string>, c: set<string>, m: set<string>,
                                    n: set<string>)
    requires Grew(doc, a, b, m) && Grew(doc, b, c, n)
    ensures Grew(doc, a, c, m + n)
  {
    forall r | r in c - a ensures Sound(doc, r) && RefsIn(TargetOf(doc, r)) <= c {
      assert r in b - a || r in c - b;
    }
    forall s | Closed(doc, s) && m + n <= s ensures c - a <= s {
      assert b - a <= s && c - b <= s;
    }
  }

  /** Visiting a new reference covers it once its target is covered. */
  lemma {:induction false} GrewVisit(doc: Value, before: set<string>, after: set<string>, r: string)
    requires r !in before && Sound(doc, r) && Grew(doc, before + {r}, after, RefsIn(TargetOf(doc, r)))
    ensures Grew(doc, before, after, {r})
  {
    forall q | q in after - before ensures Sound(doc, q) && RefsIn(TargetOf(doc, q)) <= after {
      assert q == r || q in after - (before + {r});
    }
    forall c | Closed(doc, c) && {r} <= c ensures after - before <= c {
      assert r in c && RefsIn(TargetOf(doc, r)) <= c;
    }
  }

  /** The least closed set is unique. */
  lemma {:induction false} LeastUnique(doc: Value, need: set<string>, a: set<string>, b: set<string>)
    requires Grew(doc, {}, a, need) && Grew(doc, {}, b, need)
    ensures a == b
  {
    assert Closed(doc, a) && Closed(doc, b);
    assert a - {} == a && b - {} == b;
  }

  /** What `p` points at mentions `q`. */
  ghost predicate Link(doc: Value, p: string, q: string) {
    Resolves(doc, p) && q in RefsIn(TargetOf(doc, p))
  }

  /** A chain of references from the selection. */
  ghost predicate Chain(doc: Value, need: set<string>, rs: seq<string>)
    decreases |rs|
  {
    && rs != []
    && (if |rs| == 1 then rs[0] in need
        else Chain(doc, need, rs[..|rs| - 1]) && Link(doc, rs[|rs| - 2], rs[|rs| - 1]))
  }

  ghost predicate Reachable(doc: Value, need: set<string>, r: string) {
    exists rs :: Chain(doc, need, rs) && rs[|rs| - 1] == r
  }

  lemma {:induction false} ChainCovered(doc: Value, need: set<string>, c: set<string>, rs: seq<string>)
    requires Closed(doc, c) && need <= c && Chain(doc, need, rs)
    ensures rs[|rs| - 1] in c
    decreases |rs|
  {
    if |rs| > 1 {
      var front := rs[..|rs| - 1];
      ChainCovered(doc, need, c, front);
      assert front[|front| - 1] == rs[|rs| - 2];
    }
  }

  lemma {:induction false} ReachableStart(doc: Value, need: set<string>, q: string)
    requires q in need
    ensures Reachable(doc, need, q)
  {
    assert Chain(doc, need, [q]) && [q][|[q]| - 1] == q;
  }

  lemma {:induction false} ChainGrows(doc: Value, need: set<string>, rs: seq<string>, q: string)
    requires Chain(doc, need, rs) && Link(doc, rs[|rs| - 1], q)
    ensures Chain(doc, need, rs + [q])
  {
    assert (rs + [q])[..|rs|] == rs;
  }

  lemma {:induction false} ReachableStep(doc: Value, need: set<string>, p: string, q: string)
    requires Reachable(doc, need, p) && Link(doc, p, q)
    ensures Reachable(doc, need, q)
  {
    var rs :| Chain(doc, need, rs) && rs[|rs| - 1] == p;
    ChainGrows(doc, need, rs, q);
    assert (rs + [q])[|rs + [q]| - 1] == q;
  }

  /** The set a complete walk collects is exactly what chains of references reach from the selection. */
  lemma {:induction false} GrewIsReachable(doc: Value, need: set<string>, refs: set<string>, r: string)
    requires Grew(doc, {}, refs, need)
    ensures r in refs <==> Reachable(doc, need, r)
  {
    assert refs - {} == refs;
    assert Closed(doc, refs);
    if Reachable(doc, need, r) {
      var rs :| Chain(doc, need, rs) && rs[|rs| - 1] == r;
      ChainCovered(doc, need, refs, rs);
    }
    if r in refs {
      var c := set q | q in refs && Reachable(doc, need, q);
      ReachedClosed(doc, need, refs, c);
      assert refs - {} <= c;
    }
  }

  lemma {:induction false} ReachedClosed(doc: Value, need: set<string>, refs: set<string>, c: set<string>)
    requires Closed(doc, refs) && need <= refs && c == set q | q in refs && Reachable(doc, need, q)
    ensures Closed(doc, c) && need <= c
  {
    forall q | q in need ensures q in c {
      ReachableStart(doc, need, q);
    }
    forall p | p in c && Resolves(doc, p) ensures RefsIn(TargetOf(doc, p)) <= c {
      forall q | q in RefsIn(TargetOf(doc, p)) ensures q in c {
        assert Link(doc, p, q);
        ReachableStep(doc, need, p, q);
      }
    }
  }

  // ------------------------------------------------------- when a walk succeeds

  /** Every reference that chains reach from `need` is sound. */
  ghost predicate LinkedFrom(doc: Value, need: set<string>) {
    forall q :: Reachable(doc, need, q) ==> Sound(doc, q)
  }

  lemma {:induction false} ChainFromMore(doc: Value, need: set<string>, more: set<string>, rs: seq<string>)
    requires need <= more && Chain(doc, need, rs)
    ensures Chain(doc, more, rs)
    decreases |rs|
  {
    if |rs| > 1 {
      ChainFromMore(doc, need, more, rs[..|rs| - 1]);
    }
  }

  lemma {:induction false} LinkedFromFewer(doc: Value, need: set<string>, more: set<string>)
    requires need <= more && LinkedFrom(doc, more)
    ensures LinkedFrom(doc, need)
  {
    forall q | Reachable(doc, need, q) ensures Sound(doc, q) {
      var rs :| Chain(doc, need, rs) && rs[|rs| - 1] == q;
      ChainFromMore(doc, need, more, rs);
      assert Reachable(doc, more, q);
    }
  }

  /** What the target of `r` reaches, `r` reaches. */
  lemma {:induction false} ChainThrough(doc: Value, r: string, rs: seq<string>)
    requires Resolves(doc, r) && Chain(doc, RefsIn(TargetOf(doc, r)), rs)
    ensures Reachable(doc, {r}, rs[|rs| - 1])
    decreases |rs|
  {
    if |rs| == 1 {
      ReachableStart(doc, {r}, r);
      assert Link(doc, r, rs[0]);
      ReachableStep(doc, {r}, r, rs[0]);
    } else {
      var front := rs[..|rs| - 1];
      ChainThrough(doc, r, front);
      ReachableStep(doc, {r}, front[|front| - 1], rs[|rs| - 1]);
    }
  }

  lemma {:induction false} LinkedThrough(doc: Value, r: string)
    requires LinkedFrom(doc, {r})
    ensures Sound(doc, r) && LinkedFrom(doc, RefsIn(TargetOf(doc, r)))
  {
    ReachableStart(doc, {r}, r);
    forall q | Reachable(doc, RefsIn(TargetOf(doc, r)), q) ensures Sound(doc, q) {
      var rs :| Chain(doc, RefsIn(TargetOf(doc, r)), rs) && rs[|rs| - 1] == q;
      ChainThrough(doc, r, rs);
    }
  }

  // -------------------------------------------------------- the partial copy

  /** What writing `v` at `keys` makes a reference of the copy, beside the references in `v`. */
  function PlantedAt(keys: seq<string>, v: Value): set<string>
    requires keys != []
  {
    if keys[|keys| - 1] == "$ref" && v.Str? then {v.s} else {}
  }

  /** A reference at a `$ref` member plants the string it finds there as a reference of the copy. */
  function Planted(doc: Value, r: string): set<string>
    requires Resolves(doc, r)
  {
    PlantedAt(PathOf(r), TargetOf(doc, r))
  }

  /** The copy is part of the document and answers every visited reference as the document does. */
  ghost predicate CopyOf(doc: Value, out: Value, refs: set<string>) {
    PartOf(out, doc, "components") && forall r :: r in refs ==> Resolves(doc, r) && Answers(out, doc, PathOf(r))
  }

  lemma {:induction false} CopyVisit(doc: Value, out: Value, refs: set<string>, r: string)
    requires CopyOf(doc, out, refs) && Resolves(doc, r)
    ensures CanSet(out, PathOf(r))
    ensures CopyOf(doc, SetPath(out, PathOf(r), TargetOf(doc, r)), refs + {r})
  {
    SetPathPart(out, doc, "components", PathOf(r));
    var out' := SetPath(out, PathOf(r), TargetOf(doc, r));
    forall q | q in refs + {r} ensures Resolves(doc, q) && Answers(out', doc, PathOf(q)) {
      if q != r {
        SetPathPartKeeps(out, doc, "components", PathOf(r), PathOf(q));
      }
    }
  }

  lemma {:induction false} FieldRefsSnoc(fs: seq<Field>, f: Field)
    ensures FieldRefs(fs + [f]) == FieldRefs(fs) + RefsIn(f.val)
    decreases |fs|
  {
    if fs == [] {
      assert fs + [f] == [f];
      assert FieldRefs([f][1..]) == {};
    } else {
      assert (fs + [f])[1..] == fs[1..] + [f];
      FieldRefsSnoc(fs[1..], f);
    }
  }

  lemma {:induction false} ItemRefsSnoc(xs: seq<Value>, x: Value)
    ensures ItemRefs(xs + [x]) == ItemRefs(xs) + RefsIn(x)
    decreases |xs|
  {
    if xs == [] {
      assert xs + [x] == [x];
      assert ItemRefs([x][1..]) == {};
    } else {
      assert (xs + [x])[1..] == xs[1..] + [x];
      ItemRefsSnoc(xs[1..], x);
    }
  }

  lemma {:induction false} ItemRefsAt(xs: seq<Value>, i: nat)
    requires i < |xs|
    ensures RefsIn(xs[i]) <= ItemRefs(xs)
    decreases |xs|
  {
    if i > 0 {
      ItemRefsAt(xs[1..], i - 1);
    }
  }

  lemma {:induction false} SetFieldRefs(fs: seq<Field>, k: string, v: Value)
    ensures FieldRefs(SetField(fs, k, v)) <= FieldRefs(fs) + RefsIn(v)
  {
    if fs == [] {
      FieldRefsSnoc([], Field(k, v));
      assert [] + [Field(k, v)] == [Field(k, v)];
    } else {
      var front, last := fs[..|fs| - 1], fs[|fs| - 1];
      assert fs == front + [last];
      FieldRefsSnoc(front, last);
      if last.key == k {
        FieldRefsSnoc(front, Field(k, v));
      } else {
        SetFieldRefs(front, k, v);
        FieldRefsSnoc(SetField(front, k, v), last);
      }
    }
  }

  /** Writing a value brings only the references of that value, and those it plants, into the copy. */
  lemma {:induction false} SetPathRefs(o: Value, keys: seq<string>, v: Value)
    requires keys != [] && CanSet(o, keys)
    ensures RefsIn(SetPath(o, keys, v)) <= RefsIn(o) + RefsIn(v) + PlantedAt(keys, v)
    decreases keys
  {
    var k, rest := keys[0], keys[1..];
    if |keys| == 1 {
      assert keys == [k];
      SetMemberRefs(o, k, v);
    } else {
      var inner := Member(o, k);
      var child := SetPath(inner, rest, v);
      SetPathRefs(inner, rest, v);
      MemberRefs(o, k);
      SetObjectRefs(o, k, child);
      PlantedBelow(keys, v);
      Within(RefsIn(Obj(SetField(o.fields, k, child))), RefsIn(o), RefsIn(child), RefsIn(inner),
             RefsIn(v) + PlantedAt(rest, v));
    }
  }

  lemma {:induction false} PlantedBelow(keys: seq<string>, v: Value)
    requires |keys| > 1
    ensures PlantedAt(keys[1..], v) == PlantedAt(keys, v)
  {
  }

  lemma {:induction false} Within(whole: set<string>, old_: set<string>, child: set<string>, inner: set<string>,
                                  added: set<string>)
    requires whole <= old_ + child && child <= inner + added && inner <= old_
    ensures whole <= old_ + added
  {
  }

  lemma {:induction false} SetObjectRefs(o: Value, k: string, child: Value)
    requires o.Obj? && child.Obj?
    ensures RefsIn(Obj(SetField(o.fields, k, child))) <= RefsIn(o) + RefsIn(child)
  {
    SetMemberRefs(o, k, child);
  }

  lemma {:induction false} SetMemberRefs(o: Value, k: string, child: Value)
    requires o.Obj?
    ensures RefsIn(Obj(SetField(o.fields, k, child))) <= RefsIn(o) + RefsIn(child) + PlantedAt([k], child)
  {
    SetFieldRefs(o.fields, k, child);
    SetFieldLookup(o.fields, k, child, "$ref");
  }

  lemma {:induction false} MemberRefs(o: Value, k: string)
    requires o.Obj?
    ensures RefsIn(Member(o, k)) <= RefsIn(o)
  {
    if k in KeysOf(o.fields) {
      var i :| 0 <= i < |o.fields| && o.fields[i] == Field(k, Lookup(o.fields, k));
      FieldRefsAt(o.fields, i);
    } else {
      assert RefsIn(Obj([])) == {};
    }
  }

  /** A string at a `$ref` member is a reference of the whole. */
  lemma {:induction false} RefMemberIsRef(o: Value, keys: seq<string>, s: string)
    requires keys != [] && keys[|keys| - 1] == "$ref" && At(o, keys) == Some(Str(s))
    ensures s in RefsIn(o)
    decreases keys
  {
    if |keys| > 1 {
      RefMemberIsRef(Lookup(o.fields, keys[0]), keys[1..], s);
      var i :| 0 <= i < |o.fields| && o.fields[i] == Field(keys[0], Lookup(o.fields, keys[0]));
      FieldRefsAt(o.fields, i);
    } else {
      assert keys[1..] == [];
    }
  }

  /** `q` is a reference of what `r` points at, or planted by it. */
  ghost predicate Brings(doc: Value, r: string, q: string) {
    Resolves(doc, r) && (q in RefsIn(TargetOf(doc, r)) || q in Planted(doc, r))
  }

  /** Every reference in the copy was in the selection or was brought by a visited one. */
  ghost predicate Accounted(doc: Value, out: Value, refs: set<string>, need: set<string>) {
    forall q :: q in RefsIn(out) ==> q in need || exists r :: r in refs && Brings(doc, r, q)
  }

  lemma {:induction false} AccountedVisit(doc: Value, out: Value, refs: set<string>, need: set<string>, r: string)
    requires Accounted(doc, out, refs, need) && Resolves(doc, r) && CanSet(out, PathOf(r))
    ensures Accounted(doc, SetPath(out, PathOf(r), TargetOf(doc, r)), refs + {r}, need)
  {
    SetPathRefs(out, PathOf(r), TargetOf(doc, r));
    forall q | q in RefsIn(SetPath(out, PathOf(r), TargetOf(doc, r))) && q !in need
      ensures exists p :: p in refs + {r} && Brings(doc, p, q)
    {
      if q in RefsIn(TargetOf(doc, r)) || q in Planted(doc, r) {
        assert r in refs + {r} && Brings(doc, r, q);
      } else {
        var p :| p in refs && Brings(doc, p, q);
        assert p in refs + {r};
      }
    }
  }

  /** Whatever a reachable reference plants is reachable. */
  ghost predicate PlantsReachable(doc: Value, need: set<string>) {
    forall r, q :: Reachable(doc, need, r) && Resolves(doc, r) && q in Planted(doc, r) ==> Reachable(doc, need, q)
  }

  /** `refs` are the references reachable from `need`. */
  ghost predicate AreReachable(doc: Value, need: set<string>, refs: set<string>) {
    forall q :: q in refs <==> Reachable(doc, need, q)
  }

  lemma {:induction false} CopyHolds(doc: Value, out: Value, refs: set<string>, need: set<string>)
    requires AreReachable(doc, need, refs) && need <= refs && Accounted(doc, out, refs, need)
    requires forall r :: r in refs && Resolves(doc, r) ==> RefsIn(TargetOf(doc, r)) <= refs
    requires PlantsReachable(doc, need)
    ensures RefsIn(out) <= refs
  {
    forall q | q in RefsIn(out) ensures q in refs {
      if q !in need {
        var r :| r in refs && Brings(doc, r, q);
        assert Reachable(doc, need, r);
      }
    }
  }

  lemma {:induction false} PlantIsHeld(doc: Value, out: Value, refs: set<string>, r: string, q: string)
    requires CopyOf(doc, out, refs) && r in refs && q in Planted(doc, r)
    ensures q in RefsIn(out)
  {
    assert Answers(out, doc, PathOf(r));
    RefMemberIsRef(out, PathOf(r), q);
  }

  /**
   * A complete walk leaves a copy closed under its own references if and only if every string planted by a reachable
   * reference at a `$ref` member is reachable for another reason.
   */
  lemma {:induction false} CopyClosed(doc: Value, out: Value, refs: set<string>, need: set<string>)
    requires Grew(doc, {}, refs, need) && CopyOf(doc, out, refs) && Accounted(doc, out, refs, need)
    ensures RefsIn(out) <= refs <==> PlantsReachable(doc, need)
  {
    assert refs - {} == refs;
    forall q ensures q in refs <==> Reachable(doc, need, q) {
      GrewIsReachable(doc, need, refs, q);
    }
    if PlantsReachable(doc, need) {
      CopyHolds(doc, out, refs, need);
    }
    if RefsIn(out) <= refs {
      forall r, q | Reachable(doc, need, r) && Resolves(doc, r) && q in Planted(doc, r)
        ensures Reachable(doc, need, q)
      {
        PlantIsHeld(doc, out, refs, r, q);
      }
    }
  }

  // --------------------------------------------------------------------- walk

  lemma {:induction false} NextItem(xs: seq<Value>, i: nat)
    requires i < |xs|
    ensures ItemRefs(xs[..i + 1]) == ItemRefs(xs[..i]) + RefsIn(xs[i]) && RefsIn(xs[i]) <= ItemRefs(xs)
  {
    ItemRefsAt(xs, i);
    ItemRefsSnoc(xs[..i], xs[i]);
    assert xs[..i] + [xs[i]] == xs[..i + 1];
  }

  lemma {:induction false} NextField(fs: seq<Field>, i: nat)
    requires i < |fs|
    ensures FieldRefs(fs[..i + 1]) == FieldRefs(fs[..i]) + RefsIn(fs[i].val) && RefsIn(fs[i].val) <= FieldRefs(fs)
  {
    FieldRefsAt(fs, i);
    FieldRefsSnoc(fs[..i], fs[i]);
    assert fs[..i] + [fs[i]] == fs[..i + 1];
  }

  /** The first `n` items, or field values, have string references only. */
  ghost predicate AllStringRefs(xs: seq<Value>, n: nat)
    requires n <= |xs|
  {
    forall j :: 0 <= j < n ==> StringRefs(xs[j])
  }

  ghost predicate FieldsStringRefs(fs: seq<Field>, n: nat)
    requires n <= |fs|
  {
    forall j :: 0 <= j < n ==> StringRefs(fs[j].val)
  }

  lemma {:induction false} AllOf<T>(s: seq<T>)
    ensures s[..|s|] == s
  {
  }

  lemma {:induction false} FewerLeft(universe: set<string>, before: set<string>, after: set<string>)
    requires before <= after <= universe
    ensures |universe - after| <= |universe - before|
    ensures before != after ==> |universe - after| < |universe - before|
  {
    assert universe - before == (universe - after) + (after - before);
    if before != after {
      var r :| r in after - before;
    }
  }

  class Extractor {
    const doc: Value
    var refs: set<string>
    var out: Value
    /** What the walk started from. */
    ghost const need: set<string>

    constructor (doc: Value, selection: Value)
      ensures this.doc == doc && refs == {} && out == selection && need == RefsIn(selection)
    {
      this.doc, refs, out := doc, {}, selection;
      need := RefsIn(selection);
    }

    /** Every reference that may turn up. */
    ghost function Universe(): set<string> {
      RefsIn(doc) + need
    }

    /** How many references have not been visited. */
    ghost function Left(): nat
      reads this
    {
      |Universe() - refs|
    }

    ghost predicate Valid()
      reads this
    {
      && refs <= Universe()
      && CopyOf(doc, out, refs)
      && Accounted(doc, out, refs, need)
    }

    method Walk(x: Value) returns (error: Option<Error>)
      requires Valid() && RefsIn(x) <= Universe()
      modifies this
      ensures Valid()
      ensures error.None? ==> Grew(doc, old(refs), refs, RefsIn(x)) && StringRefs(x)
      ensures StringRefs(x) && LinkedFrom(doc, RefsIn(x)) ==> error.None?
      ensures old(refs) <= refs
      decreases Left(), 1, x, 1
    {
      match x
      case Arr(xs) => error := WalkItems(xs);
      case Obj(fs) =>
        ghost var before := refs;
        GrewNothing(doc, refs);
        if LinkedFrom(doc, RefsIn(x)) {
          LinkedFromFewer(doc, OwnRef(fs), RefsIn(x));
          LinkedFromFewer(doc, FieldRefs(fs), RefsIn(x));
        }
        if "$ref" in KeysOf(fs) {
          var ref := Lookup(fs, "$ref");
          if !ref.Str? {
            return Some(NotAString);
          }
          error := Visit(ref.s);
          if error.Some? {
            return;
          }
        }
        ghost var middle := refs;
        FewerLeft(Universe(), before, refs);
        error := WalkFields(fs);
        if error.None? {
          GrewBoth(doc, before, middle, refs, OwnRef(fs), FieldRefs(fs));
        }
      case _ => error := None; GrewNothing(doc, refs);
    }

    method Visit(r: string) returns (error: Option<Error>)
      requires Valid() && r in Universe()
      modifies this
      ensures Valid()
      ensures error.None? ==> Grew(doc, old(refs), refs, {r})
      ensures LinkedFrom(doc, {r}) ==> error.None?
      ensures old(refs) <= refs
      decreases Left(), 0
    {
      if LinkedFrom(doc, {r}) {
        LinkedThrough(doc, r);
      }
      if !IsLocal(r) {
        return Some(ExternalRef(r));
      }
      if r in refs {
        return None;
      }
      var keys := PathOf(r);
      var v := At(doc, keys);
      if v.None? {
        return Some(Unresolvable(r));
      }
      CopyVisit(doc, out, refs, r);
      AccountedVisit(doc, out, refs, need, r);
      RefsBelow(doc, keys);
      FewerLeft(Universe(), refs, refs + {r});
      refs := refs + {r};
      out := SetPath(out, keys, v.value);
      error := Walk(v.value);
      if error.None? {
        GrewVisit(doc, old(refs), refs, r);
      }
    }

    /** One turn of either loop: `covered` is done since `before`, `x` comes next, `all` is what the loop covers. */
    method WalkNext(x: Value, ghost before: set<string>, ghost covered: set<string>, ghost all: set<string>)
      returns (error: Option<Error>)
      requires Valid() && RefsIn(x) <= all <= Universe() && Grew(doc, before, refs, covered)
      modifies this
      ensures Valid()
      ensures error.None? ==> Grew(doc, before, refs, covered + RefsIn(x)) && StringRefs(x)
      ensures StringRefs(x) && LinkedFrom(doc, all) ==> error.None?
      ensures old(refs) <= refs
      decreases Left(), 1, x, 2
    {
      if LinkedFrom(doc, all) {
        LinkedFromFewer(doc, RefsIn(x), all);
      }
      error := Walk(x);
      if error.None? {
        GrewBoth(doc, before, old(refs), refs, covered, RefsIn(x));
      }
    }

    method WalkItems(xs: seq<Value>) returns (error: Option<Error>)
      requires Valid() && ItemRefs(xs) <= Universe()
      modifies this
      ensures Valid()
      ensures error.None? ==> Grew(doc, old(refs), refs, ItemRefs(xs)) && AllStringRefs(xs, |xs|)
      ensures AllStringRefs(xs, |xs|) && LinkedFrom(doc, ItemRefs(xs)) ==> error.None?
      ensures old(refs) <= refs
      decreases Left(), 1, xs, 0
    {
      error := None;
      ghost var before, all, covered := refs, ItemRefs(xs), {};
      GrewNothing(doc, refs);
      for i := 0 to |xs|
        invariant Valid() && before <= refs && error.None? && covered == ItemRefs(xs[..i])
        invariant Grew(doc, before, refs, covered) && AllStringRefs(xs, i)
      {
        NextItem(xs, i);
        FewerLeft(Universe(), before, refs);
        error := WalkNext(xs[i], before, covered, all);
        if error.Some? {
          return;
        }
        covered := covered + RefsIn(xs[i]);
      }
      AllOf(xs);
    }

    method WalkFields(fs: seq<Field>) returns (error: Option<Error>)
      requires Valid() && FieldRefs(fs) <= Universe()
      modifies this
      ensures Valid()
      ensures error.None? ==> Grew(doc, old(refs), refs, FieldRefs(fs)) && FieldsStringRefs(fs, |fs|)
      ensures FieldsStringRefs(fs, |fs|) && LinkedFrom(doc, FieldRefs(fs)) ==> error.None?
      ensures old(refs) <= refs
      decreases Left(), 1, fs, 0
    {
      error := None;
      ghost var before, all, covered := refs, FieldRefs(fs), {};
      GrewNothing(doc, refs);
      for i := 0 to |fs|
        invariant Valid() && before <= refs && error.None? && covered == FieldRefs(fs[..i])
        invariant Grew(doc, before, refs, covered) && FieldsStringRefs(fs, i)
      {
        var x := fs[i].val;
        NextField(fs, i);
        FewerLeft(Universe(), before, refs);
        error := WalkNext(x, before, covered, all);
        if error.Some? {
          return;
        }
        covered := covered + RefsIn(x);
      }
      AllOf(fs);
    }
  }
}
