/** What a selection of paths and methods takes from a document. */
module Selecting {
  import opened Assoc
  import opened Json
  import opened Pointer
  import opened Fixture

  // ------------------------------------------------------------- the top members

  lemma {:induction false} PickedHas(fs: seq<Field>, ks: seq<string>, k: string)
    ensures k in KeysOf(Picked(fs, ks)) <==> k in KeysOf(fs) && k in ks
  {
    if ks != [] {
      var head := if ks[0] in KeysOf(fs) then [Field(ks[0], Lookup(fs, ks[0]))] else [];
      PickedHas(fs, ks[1..], k);
      assert Picked(fs, ks) == head + Picked(fs, ks[1..]);
      assert KeysOf(Picked(fs, ks)) == KeysOf(head) + KeysOf(Picked(fs, ks[1..]));
      assert KeysOf(head) == if ks[0] in KeysOf(fs) then [ks[0]] else [];
    }
  }

  lemma {:induction false} PickedLookup(fs: seq<Field>, ks: seq<string>, k: string)
    requires k in KeysOf(Picked(fs, ks))
    ensures Lookup(Picked(fs, ks), k) == Lookup(fs, k)
  {
    var gs := Picked(fs, ks);
    var i :| 0 <= i < |gs| && gs[i] == Field(k, Lookup(gs, k));
    PickedFields(fs, ks, i);
  }

  /** Two more members after others with other keys. */
  lemma {:induction false} TwoMore(fs: seq<Field>, f: Field, g: Field, k: string)
    requires f.key != g.key
    ensures var gs := fs + [f, g];
            && (k in KeysOf(gs) <==> k in KeysOf(fs) || k == f.key || k == g.key)
            && Lookup(gs, k) == if k == g.key then g.val else if k == f.key then f.val else Lookup(fs, k)
  {
    var gs := fs + [f, g];
    assert gs == fs + [f] + [g] && (fs + [f] + [g])[..|fs| + 1] == fs + [f] && (fs + [f])[..|fs|] == fs;
    KeysSnoc(fs, f);
    KeysSnoc(fs + [f], g);
  }

  // --------------------------------------------------------------- the path items

  /** The `i`-th entry of the selection is the last one for its path. */
  ghost predicate LastFor(sel: seq<Selection>, i: nat)
    requires i < |sel|
  {
    forall j :: i < j < |sel| ==> sel[j].path != sel[i].path
  }

  /** What the last entry of a selection adds. */
  lemma {:induction false} PathItemsNext(paths: Value, sel: seq<Selection>, p: string)
    requires PathItems(paths, sel).Some? && sel != []
    ensures var s, front := sel[|sel| - 1], sel[..|sel| - 1];
            && PathItems(paths, front).Some? && ObjectAt(paths, s.path).Some?
            && var items, before := PathItems(paths, sel).value, PathItems(paths, front).value;
               && (p in KeysOf(items) <==> p == s.path || p in KeysOf(before))
               && Lookup(items, p) == if p == s.path then Reduced(ObjectAt(paths, p).value, s.methods)
                 else Lookup(before, p)
  {
    var s, front := sel[|sel| - 1], sel[..|sel| - 1];
    SetFieldLookup(PathItems(paths, front).value, s.path, Reduced(ObjectAt(paths, s.path).value, s.methods), p);
  }

  function Reduced(item: Value, methods: set<string>): Value
    requires item.Obj?
  {
    Obj(KeptFields(item.fields, methods))
  }

  lemma {:induction false} LastOrBefore(sel: seq<Selection>, p: string)
    requires sel != []
    ensures var front := sel[..|sel| - 1];
            (exists i :: 0 <= i < |sel| && sel[i].path == p)
            <==> (sel[|sel| - 1].path == p || exists i :: 0 <= i < |front| && front[i].path == p)
  {
    var front := sel[..|sel| - 1];
    assert forall i :: 0 <= i < |front| ==> front[i] == sel[i];
  }

  lemma {:induction false} PathItemsKeys(paths: Value, sel: seq<Selection>, p: string)
    requires PathItems(paths, sel).Some?
    ensures p in KeysOf(PathItems(paths, sel).value) <==> exists i :: 0 <= i < |sel| && sel[i].path == p
    decreases |sel|
  {
    if sel != [] {
      PathItemsNext(paths, sel, p);
      PathItemsKeys(paths, sel[..|sel| - 1], p);
      LastOrBefore(sel, p);
    }
  }

  lemma {:induction false} LastBefore(sel: seq<Selection>, i: nat)
    requires i < |sel| - 1 && LastFor(sel, i)
    ensures LastFor(sel[..|sel| - 1], i)
  {
  }

  /** The items hold the path item of this entry, reduced to its methods. */
  ghost predicate HoldsItem(items: seq<Field>, paths: Value, s: Selection) {
    ObjectAt(paths, s.path).Some? && Lookup(items, s.path) == Reduced(ObjectAt(paths, s.path).value, s.methods)
  }

  /** The last entry for a path. */
  ghost function Chosen(sel: seq<Selection>, p: string): Option<Selection> {
    if sel == [] then None
    else if sel[|sel| - 1].path == p then Some(sel[|sel| - 1])
    else Chosen(sel[..|sel| - 1], p)
  }

  lemma {:induction false} ChosenLast(sel: seq<Selection>, i: nat)
    requires i < |sel| && LastFor(sel, i)
    ensures Chosen(sel, sel[i].path) == Some(sel[i])
  {
    if i < |sel| - 1 {
      assert sel[|sel| - 1].path != sel[i].path;
      LastBefore(sel, i);
      ChosenLast(sel[..|sel| - 1], i);
    }
  }

  lemma {:induction false} PathItemsChosen(paths: Value, sel: seq<Selection>, p: string)
    requires PathItems(paths, sel).Some? && Chosen(sel, p).Some?
    ensures Chosen(sel, p).value.path == p && HoldsItem(PathItems(paths, sel).value, paths, Chosen(sel, p).value)
    decreases |sel|
  {
    PathItemsNext(paths, sel, p);
    if sel[|sel| - 1].path != p {
      PathItemsChosen(paths, sel[..|sel| - 1], p);
    }
  }

  lemma {:induction false} PathItemsAt(paths: Value, sel: seq<Selection>, i: nat)
    requires PathItems(paths, sel).Some? && i < |sel| && LastFor(sel, i)
    ensures HoldsItem(PathItems(paths, sel).value, paths, sel[i])
  {
    ChosenLast(sel, i);
    PathItemsChosen(paths, sel, sel[i].path);
  }

  lemma {:induction false} PathItemsExist(paths: Value, sel: seq<Selection>)
    ensures PathItems(paths, sel).Some? <==> forall i :: 0 <= i < |sel| ==> ObjectAt(paths, sel[i].path).Some?
    decreases |sel|
  {
    if sel != [] {
      var n := |sel| - 1;
      PathItemsExist(paths, sel[..n]);
      assert forall i :: 0 <= i < n ==> sel[..n][i] == sel[i];
    }
  }

  // ------------------------------------------------------------------ main result

  /** The members copied whole. */
  ghost predicate IsTop(k: string) {
    k == "openapi" || k == "info" || k == "servers" || k == "security"
  }

  lemma {:induction false} TopKeys(k: string)
    ensures k in TOP <==> IsTop(k)
  {
  }

  /** `v` has an object at `k`. */
  ghost predicate HasObject(v: Value, k: string) {
    v.Obj? && k in KeysOf(v.fields) && Get(v, k).Obj?
  }

  /** At the top: what the document has of its head, the paths, and empty components. */
  ghost predicate TopOf(out: Value, doc: Value)
    requires out.Obj? && doc.Obj?
  {
    && (forall k :: k in KeysOf(out.fields) <==>
          k == "paths" || k == "components" || (IsTop(k) && k in KeysOf(doc.fields)))
    && (forall k :: IsTop(k) && k in KeysOf(doc.fields) ==> Get(out, k) == Get(doc, k))
    && Get(out, "components") == Obj([])
  }

  /** The path item `item` is that of the document reduced to the methods, and what they share. */
  ghost predicate ItemOf(item: Value, whole: Value, methods: set<string>) {
    && item.Obj? && whole.Obj?
    && (forall k :: k in KeysOf(item.fields) <==> k in KeysOf(whole.fields) && (k in methods || k == "parameters"))
    && forall k :: k in KeysOf(item.fields) ==> Get(item, k) == Get(whole, k)
  }

  /** The paths are the selected ones, each reduced to its methods. */
  ghost predicate PathsOf(paths: Value, whole: Value, sel: seq<Selection>) {
    && paths.Obj? && whole.Obj?
    && (forall p :: p in KeysOf(paths.fields) <==> exists i :: 0 <= i < |sel| && sel[i].path == p)
    && forall i :: 0 <= i < |sel| && LastFor(sel, i) ==>
         ItemOf(Get(paths, sel[i].path), Get(whole, sel[i].path), sel[i].methods)
  }

  lemma {:induction false} SkeletonTop(doc: Value, sel: seq<Selection>)
    requires Skeleton(doc, sel).Some?
    ensures var out := Skeleton(doc, sel).value;
            && out.Obj? && TopOf(out, doc)
            && Get(out, "paths") == Obj(PathItems(ObjectAt(doc, "paths").value, sel).value)
  {
    var items := PathItems(ObjectAt(doc, "paths").value, sel).value;
    var f, g, top := Field("paths", Obj(items)), Field("components", Obj([])), Picked(doc.fields, TOP);
    var out := Obj(top + [f, g]);
    assert Skeleton(doc, sel) == Some(out);
    forall k ensures k in KeysOf(out.fields) <==>
                       k == "paths" || k == "components" || (IsTop(k) && k in KeysOf(doc.fields))
      ensures IsTop(k) && k in KeysOf(doc.fields) ==> Get(out, k) == Get(doc, k)
    {
      TwoMore(top, f, g, k);
      PickedHas(doc.fields, TOP, k);
      TopKeys(k);
      if k in KeysOf(top) {
        PickedLookup(doc.fields, TOP, k);
      }
    }
    TwoMore(top, f, g, "components");
    TwoMore(top, f, g, "paths");
  }

  lemma {:induction false} KeptItem(whole: Value, methods: set<string>)
    requires whole.Obj?
    ensures ItemOf(Obj(KeptFields(whole.fields, methods)), whole, methods)
  {
    var fs := KeptFields(whole.fields, methods);
    forall k ensures k in KeysOf(fs) <==> k in KeysOf(whole.fields) && (k in methods || k == "parameters")
      ensures k in KeysOf(fs) ==> Lookup(fs, k) == Lookup(whole.fields, k)
    {
      KeptLookup(whole.fields, methods, k);
    }
  }

  lemma {:induction false} SkeletonPaths(doc: Value, sel: seq<Selection>)
    requires Skeleton(doc, sel).Some?
    ensures PathsOf(Obj(PathItems(ObjectAt(doc, "paths").value, sel).value), ObjectAt(doc, "paths").value, sel)
  {
    var whole := ObjectAt(doc, "paths").value;
    var paths := Obj(PathItems(whole, sel).value);
    forall p ensures p in KeysOf(paths.fields) <==> exists i :: 0 <= i < |sel| && sel[i].path == p {
      PathItemsKeys(whole, sel, p);
    }
    forall i | 0 <= i < |sel| && LastFor(sel, i)
      ensures ItemOf(Get(paths, sel[i].path), Get(whole, sel[i].path), sel[i].methods)
    {
      PathItemsAt(whole, sel, i);
      KeptItem(ObjectAt(whole, sel[i].path).value, sel[i].methods);
    }
  }

  /**
   * The selection exists if and only if the document has each path; then it holds the head of the document, the
   * chosen methods of the chosen paths with what they share, and nothing else.
   */
  lemma {:induction false} SkeletonExact(doc: Value, sel: seq<Selection>)
    ensures Skeleton(doc, sel).Some? <==>
            HasObject(doc, "paths") && forall i :: 0 <= i < |sel| ==> HasObject(Get(doc, "paths"), sel[i].path)
    ensures Skeleton(doc, sel).Some? ==>
            var out := Skeleton(doc, sel).value;
            out.Obj? && TopOf(out, doc) && PathsOf(Get(out, "paths"), Get(doc, "paths"), sel)
  {
    if HasObject(doc, "paths") {
      PathItemsExist(Get(doc, "paths"), sel);
    }
    if Skeleton(doc, sel).Some? {
      SkeletonTop(doc, sel);
      SkeletonPaths(doc, sel);
    }
  }
}
