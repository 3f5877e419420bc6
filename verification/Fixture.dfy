/** Building one fixture: select paths and methods, walk their references, add the security schemes. */
module Fixture {
  import opened Assoc
  import opened Json
  import opened Pointer
  import opened Closure

  datatype Selection = Selection(path: string, methods: set<string>)

  datatype Extracted = Extracted(out: Value, refs: set<string>) | MissingPath | Broken(error: Error) | BadComponents

  const TOP: seq<string> := ["openapi", "info", "servers", "security"]

  /** `{k: doc[k] for k in ks if k in doc}`. */
  function Picked(fs: seq<Field>, ks: seq<string>): seq<Field> {
    if ks == [] then []
    else (if ks[0] in KeysOf(fs) then [Field(ks[0], Lookup(fs, ks[0]))] else []) + Picked(fs, ks[1..])
  }

  predicate Kept(k: string, methods: set<string>) {
    k in methods || k == "parameters"
  }

  /** The chosen methods of a path item, and its shared parameters. */
  function KeptFields(fs: seq<Field>, methods: set<string>): seq<Field> {
    if fs == [] then []
    else
      var front, last := fs[..|fs| - 1], fs[|fs| - 1];
      KeptFields(front, methods) + if Kept(last.key, methods) then [last] else []
  }

  /** `v[k]`, when `v` is an object and the member is one too. */
  function ObjectAt(v: Value, k: string): Option<Value> {
    if v.Obj? && k in KeysOf(v.fields) && Lookup(v.fields, k).Obj? then Some(Lookup(v.fields, k)) else None
  }

  /** The path items of the selection; nothing if a path is missing. */
  function PathItems(paths: Value, sel: seq<Selection>): Option<seq<Field>> {
    if sel == [] then Some([])
    else
      var s, rest := sel[|sel| - 1], PathItems(paths, sel[..|sel| - 1]);
      var item := ObjectAt(paths, s.path);
      if item.None? || rest.None? then None
      else Some(SetField(rest.value, s.path, Obj(KeptFields(item.value.fields, s.methods))))
  }

  /** `out` before the walk; nothing if the selection names a path the document does not have. */
  function Skeleton(doc: Value, sel: seq<Selection>): Option<Value> {
    var paths := ObjectAt(doc, "paths");
    if paths.None? || PathItems(paths.value, sel).None? then None
    else Some(Obj(Picked(doc.fields, TOP)
                  + [Field("paths", Obj(PathItems(paths.value, sel).value)), Field("components", Obj([]))]))
  }

  // ------------------------------------------------------------ sub-documents

  lemma {:induction false} KeptLookup(fs: seq<Field>, methods: set<string>, k: string)
    ensures k in KeysOf(KeptFields(fs, methods)) <==> k in KeysOf(fs) && Kept(k, methods)
    ensures k in KeysOf(KeptFields(fs, methods)) ==> Lookup(KeptFields(fs, methods), k) == Lookup(fs, k)
  {
    if fs != [] {
      var front, last := fs[..|fs| - 1], fs[|fs| - 1];
      assert fs == front + [last];
      KeptLookup(front, methods, k);
      KeysSplit(fs, k);
      var ks := KeptFields(fs, methods);
      if Kept(last.key, methods) {
        assert ks[..|ks| - 1] == KeptFields(front, methods);
        KeysSplit(ks, k);
      } else {
        assert ks == KeptFields(front, methods);
      }
    }
  }

  lemma {:induction false} KeptSub(fs: seq<Field>, methods: set<string>)
    ensures SubDoc(Obj(KeptFields(fs, methods)), Obj(fs))
  {
    forall k | k in KeysOf(KeptFields(fs, methods))
      ensures k in KeysOf(fs) && SubDoc(Lookup(KeptFields(fs, methods), k), Lookup(fs, k))
    {
      KeptLookup(fs, methods, k);
    }
    SubDocObj(KeptFields(fs, methods), Obj(fs));
  }

  lemma {:induction false} PathItemsSub(paths: Value, sel: seq<Selection>)
    requires PathItems(paths, sel).Some? && paths.Obj?
    ensures SubDoc(Obj(PathItems(paths, sel).value), paths)
  {
    if sel == [] {
      assert KeysOf([]) == [];
    } else {
      var s, rest := sel[|sel| - 1], sel[..|sel| - 1];
      PathItemsSub(paths, rest);
      var item := ObjectAt(paths, s.path).value;
      KeptSub(item.fields, s.methods);
      SetFieldSub(Obj(PathItems(paths, rest).value), paths, s.path, Obj(KeptFields(item.fields, s.methods)));
    }
  }

  lemma {:induction false} PickedFields(fs: seq<Field>, ks: seq<string>, i: nat)
    requires i < |Picked(fs, ks)|
    ensures var f := Picked(fs, ks)[i]; f.key in ks && f.key in KeysOf(fs) && f.val == Lookup(fs, f.key)
  {
    var n := if ks[0] in KeysOf(fs) then 1 else 0;
    if i >= n {
      PickedFields(fs, ks[1..], i - n);
    }
  }

  /** Before the walk `out` is a sub-document, apart from its empty components. */
  lemma {:induction false} SkeletonSub(doc: Value, sel: seq<Selection>)
    requires Skeleton(doc, sel).Some?
    ensures SubDoc(Skeleton(doc, sel).value, Emptied(doc, "components"))
  {
    var paths, base := ObjectAt(doc, "paths").value, Emptied(doc, "components");
    PathItemsSub(paths, sel);
    var fs := Skeleton(doc, sel).value.fields;
    forall k ensures k in KeysOf(doc.fields) || k == "components" ==> k in KeysOf(base.fields)
      ensures k in KeysOf(doc.fields) && k != "components" ==> Lookup(base.fields, k) == Lookup(doc.fields, k)
      ensures Lookup(base.fields, "components").Obj?
    {
      SetFieldLookup(doc.fields, "components", Obj([]), k);
      SetFieldLookup(doc.fields, "components", Obj([]), "components");
    }
    assert KeysOf([]) == [];
    forall i | 0 <= i < |fs|
      ensures fs[i].key in KeysOf(base.fields) && SubDoc(fs[i].val, Lookup(base.fields, fs[i].key))
    {
      if i < |Picked(doc.fields, TOP)| {
        PickedFields(doc.fields, TOP, i);
      }
    }
    forall k | k in KeysOf(fs) ensures k in KeysOf(base.fields) && SubDoc(Lookup(fs, k), Lookup(base.fields, k)) {
      var i :| 0 <= i < |fs| && fs[i] == Field(k, Lookup(fs, k));
    }
    SubDocObj(fs, base);
  }

  // --------------------------------------------------------------- extraction

  const SCHEMES: seq<string> := ["components", "securitySchemes"]

  /** The text has `part` somewhere. */
  predicate Mentions(text: string, part: string) {
    exists i :: 0 <= i <= |text| - |part| && text[i..][..|part|] == part
  }

  /**
   * `'securitySchemes' in doc.get('components', {})`, and reading them if so, raises nothing: components of another
   * type than an object must be an array or a string without that element or part.
   */
  predicate SchemesReadable(doc: Value)
    requires doc.Obj?
  {
    match Lookup(doc.fields, "components")
    case Undefined => true
    case Obj(_) => true
    case Arr(xs) => Str("securitySchemes") !in xs
    case Str(text) => !Mentions(text, "securitySchemes")
    case _ => false
  }

  /** The copy with the security schemes of the document, if it has any. */
  function WithSchemes(out: Value, doc: Value): Value
    requires At(doc, SCHEMES).Some? ==> CanSet(out, SCHEMES)
  {
    if At(doc, SCHEMES).Some? then SetPath(out, SCHEMES, At(doc, SCHEMES).value) else out
  }

  /**
   * What one extraction promises: the references are those reachable from the selection, and the copy is a
   * sub-document that answers each of them as the document does.
   */
  ghost predicate Faithful(doc: Value, selection: Value, out: Value, refs: set<string>) {
    && (forall q :: q in refs <==> Reachable(doc, RefsIn(selection), q))
    && CopyOf(doc, out, refs)
  }

  /** The walk of this selection meets only references that are strings and resolve through objects. */
  ghost predicate WellLinked(doc: Value, selection: Value) {
    StringRefs(selection) && LinkedFrom(doc, RefsIn(selection))
  }

  /** The paths lead to different places, neither of them inside the other. */
  predicate Apart(ks: seq<string>, js: seq<string>) {
    !(ks <= js) && !(js <= ks)
  }

  /** `out` is `copied` with the security schemes of the document in their place, if it has any. */
  ghost predicate Completes(doc: Value, copied: Value, out: Value) {
    if At(doc, SCHEMES).None? then out == copied
    else At(out, SCHEMES) == At(doc, SCHEMES) && forall ks :: Apart(ks, SCHEMES) ==> At(out, ks) == At(copied, ks)
  }

  lemma {:induction false} SchemesComplete(copied: Value, doc: Value)
    requires At(doc, SCHEMES).Some? ==> CanSet(copied, SCHEMES)
    ensures Completes(doc, copied, WithSchemes(copied, doc))
  {
    if At(doc, SCHEMES).Some? {
      forall ks | Apart(ks, SCHEMES) ensures At(WithSchemes(copied, doc), ks) == At(copied, ks) {
        SetPathElsewhere(copied, SCHEMES, At(doc, SCHEMES).value, ks);
      }
      SetPathHere(copied, SCHEMES, At(doc, SCHEMES).value);
    }
  }

  /**
   * The extraction of one source. The copy, before the security schemes come in, mentions only collected references
   * exactly if those planted by reachable references at `$ref` members are reachable.
   */
  method Extract(doc: Value, sel: seq<Selection>) returns (r: Extracted, ghost copied: Value)
    ensures r.MissingPath? <==> Skeleton(doc, sel).None?
    ensures r.Extracted? <==>
            Skeleton(doc, sel).Some? && WellLinked(doc, Skeleton(doc, sel).value) && SchemesReadable(doc)
    ensures r.Extracted? ==> Faithful(doc, Skeleton(doc, sel).value, r.out, r.refs) && Completes(doc, copied, r.out)
    ensures r.Extracted? ==>
            (RefsIn(copied) <= r.refs <==> PlantsReachable(doc, RefsIn(Skeleton(doc, sel).value)))
  {
    var selection := Skeleton(doc, sel);
    if selection.None? {
      return MissingPath, Null;
    }
    SkeletonSub(doc, sel);
    r, copied := WalkSelection(doc, selection.value);
  }

  method WalkSelection(doc: Value, selection: Value) returns (r: Extracted, ghost copied: Value)
    requires doc.Obj? && PartOf(selection, doc, "components")
    ensures !r.MissingPath?
    ensures r.Extracted? <==> WellLinked(doc, selection) && SchemesReadable(doc)
    ensures r.Extracted? ==> Faithful(doc, selection, r.out, r.refs) && Completes(doc, copied, r.out)
    ensures r.Extracted? ==> (RefsIn(copied) <= r.refs <==> PlantsReachable(doc, RefsIn(selection)))
  {
    var e := new Extractor(doc, selection);
    var error := e.Walk(selection);
    copied := e.out;
    if error.Some? {
      return Broken(error.value), copied;
    }
    Collected(doc, selection, e.out, e.refs);
    SchemesComplete(e.out, doc);
    CopyClosed(doc, e.out, e.refs, RefsIn(selection));
    if !SchemesReadable(doc) {
      return BadComponents, copied;
    }
    r := Extracted(WithSchemes(e.out, doc), e.refs);
  }

  /** After a complete walk every reachable reference is sound, and copying the security schemes breaks nothing. */
  lemma {:induction false} Collected(doc: Value, selection: Value, out: Value, refs: set<string>)
    requires Grew(doc, {}, refs, RefsIn(selection)) && CopyOf(doc, out, refs)
    ensures At(doc, SCHEMES).Some? ==> CanSet(out, SCHEMES)
    ensures Faithful(doc, selection, WithSchemes(out, doc), refs)
    ensures LinkedFrom(doc, RefsIn(selection))
  {
    forall q ensures q in refs <==> Reachable(doc, RefsIn(selection), q) {
      GrewIsReachable(doc, RefsIn(selection), refs, q);
    }
    assert refs - {} == refs;
    SchemesKeep(out, doc, refs);
  }

  lemma {:induction false} SchemesKeep(out: Value, doc: Value, refs: set<string>)
    requires CopyOf(doc, out, refs)
    ensures At(doc, SCHEMES).Some? ==> CanSet(out, SCHEMES)
    ensures CopyOf(doc, WithSchemes(out, doc), refs)
  {
    if At(doc, SCHEMES).Some? {
      SetPathPart(out, doc, "components", SCHEMES);
      forall q | q in refs ensures Answers(WithSchemes(out, doc), doc, PathOf(q)) {
        SetPathPartKeeps(out, doc, "components", SCHEMES, PathOf(q));
      }
    }
  }
}
