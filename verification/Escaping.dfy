/** An extraction whose copy mentions a reference that was never collected. */
module Escaping {
  import opened Text
  import opened Assoc
  import opened Json
  import opened Pointer
  import opened Closure
  import opened Fixture

  function One(k: string, v: Value): Value {
    Obj([Field(k, v)])
  }

  const PLANTER := "#/x/$ref"

  /** The one operation of `{paths: {"/p": {get: {$ref: "#/x/$ref"}}}, x: {$ref: "#/y"}, y: {}}`. */
  const ESCAPING: Value := Obj([
    Field("paths", One("/p", One("get", One("$ref", Str(PLANTER))))),
    Field("x", One("$ref", Str("#/y"))),
    Field("y", Obj([]))])

  const OPERATION: seq<Selection> := [Selection("/p", {"get"})]

  lemma {:induction false} OneHas(k: string, v: Value)
    ensures KeysOf([Field(k, v)]) == [k] && Lookup([Field(k, v)], k) == v
    ensures forall j :: j != k ==> j !in KeysOf([Field(k, v)]) && Lookup([Field(k, v)], j) == Undefined
  {
    assert KeysOf([Field(k, v)])[0] == k;
  }

  lemma {:induction false} EscapingHas()
    ensures var fs := ESCAPING.fields;
            && KeysOf(fs) == ["paths", "x", "y"]
            && Lookup(fs, "paths") == One("/p", One("get", One("$ref", Str(PLANTER))))
            && Lookup(fs, "x") == One("$ref", Str("#/y"))
  {
    var fs := ESCAPING.fields;
    assert KeysOf(fs) == ["paths", "x", "y"];
    assert fs[..2][1] == fs[1] && fs[..2][..1][0] == fs[0];
  }

  lemma {:induction false} PlanterPath()
    ensures IsLocal(PLANTER) && PathOf(PLANTER) == ["x", "$ref"]
  {
    assert PLANTER[2..] == "x" + ['/'] + "$ref";
    SplitOnce("x", '/', "$ref");
    PlainTokens(["x", "$ref"]);
  }

  lemma {:induction false} PlainUnder(s: string, b: char, sub: char)
    requires '~' !in s
    ensures Replace2(s, '~', b, sub) == s
  {
    if |s| >= 2 {
      assert s[0] in s && s == [s[0]] + s[1..];
      PlainUnder(s[1..], b, sub);
    }
  }

  /** A token without a tilde stands for itself. */
  lemma {:induction false} Plain(s: string)
    requires '~' !in s
    ensures Unescape(s) == s
  {
    PlainUnder(s, '1', '/');
    PlainUnder(s, '0', '~');
  }

  lemma {:induction false} PlainTokens(tokens: seq<string>)
    requires forall i :: 0 <= i < |tokens| ==> '~' !in tokens[i]
    ensures UnescapeAll(tokens) == tokens
  {
    if tokens != [] {
      Plain(tokens[0]);
      PlainTokens(tokens[1..]);
    }
  }

  lemma {:induction false} PlanterTarget()
    ensures Sound(ESCAPING, PLANTER) && TargetOf(ESCAPING, PLANTER) == Str("#/y")
    ensures Planted(ESCAPING, PLANTER) == {"#/y"}
  {
    PlanterPath();
    EscapingHas();
    OneHas("$ref", Str("#/y"));
    assert ["x", "$ref"][1..] == ["$ref"] && ["$ref"][1..] == [];
  }

  lemma {:induction false} PickedNone(fs: seq<Field>, ks: seq<string>)
    requires forall k :: k in ks ==> k !in KeysOf(fs)
    ensures Picked(fs, ks) == []
  {
    if ks != [] {
      assert ks[0] in ks;
      PickedNone(fs, ks[1..]);
    }
  }

  lemma {:induction false} PathItemsOne(path: string, method_: string, v: Value)
    ensures PathItems(One(path, One(method_, v)), [Selection(path, {method_})]) == Some([Field(path, One(method_, v))])
  {
    var item, sel := One(method_, v), [Selection(path, {method_})];
    OneHas(path, item);
    assert sel[..0] == [] && item.fields[..0] == [];
    assert ObjectAt(One(path, item), path) == Some(item);
    assert PathItems(One(path, item), sel[..0]) == Some([]);
    assert KeptFields(item.fields[..0], {method_}) == [];
    assert KeptFields(item.fields, {method_}) == [] + [Field(method_, v)] == item.fields;
    assert SetField([], path, item) == [Field(path, item)];
  }

  /** The selection of one operation from a document that has none of the top members. */
  function Selected(path: string, method_: string, v: Value): Value {
    Obj([Field("paths", One(path, One(method_, v))), Field("components", Obj([]))])
  }

  lemma {:induction false} SelectionOfOne(doc: Value, path: string, method_: string, v: Value)
    requires doc.Obj? && (forall k :: k in TOP ==> k !in KeysOf(doc.fields))
    requires "paths" in KeysOf(doc.fields) && Lookup(doc.fields, "paths") == One(path, One(method_, v))
    ensures Skeleton(doc, [Selection(path, {method_})]) == Some(Selected(path, method_, v))
  {
    PickedNone(doc.fields, TOP);
    PathItemsOne(path, method_, v);
    assert ObjectAt(doc, "paths") == Some(One(path, One(method_, v)));
    assert Picked(doc.fields, TOP) + Selected(path, method_, v).fields == Selected(path, method_, v).fields;
  }

  lemma {:induction false} OneRefs(k: string, v: Value)
    requires k != "$ref"
    ensures RefsIn(One(k, v)) == RefsIn(v) && (StringRefs(One(k, v)) <==> StringRefs(v))
  {
    OneHas(k, v);
    assert FieldRefs([Field(k, v)][1..]) == {};
    assert One(k, v).fields[0].val == v;
  }

  lemma {:induction false} RefRefs(s: string)
    ensures RefsIn(One("$ref", Str(s))) == {s} && StringRefs(One("$ref", Str(s)))
  {
    var fs := [Field("$ref", Str(s))];
    OneHas("$ref", Str(s));
    assert FieldRefs(fs[1..]) == {} && FieldRefs(fs) == {};
    assert OwnRef(fs) == {s};
  }

  lemma {:induction false} SelectedRefs(path: string, method_: string, s: string)
    requires path != "$ref" && method_ != "$ref"
    ensures var v := Selected(path, method_, One("$ref", Str(s))); RefsIn(v) == {s} && StringRefs(v)
  {
    RefRefs(s);
    OneRefs(method_, One("$ref", Str(s)));
    OneRefs(path, One(method_, One("$ref", Str(s))));
    TwoRefs(One(path, One(method_, One("$ref", Str(s)))));
  }

  lemma {:induction false} TwoRefs(v: Value)
    ensures var o := Obj([Field("paths", v), Field("components", Obj([]))]);
            RefsIn(o) == RefsIn(v) && (StringRefs(o) <==> StringRefs(v))
  {
    var o := Obj([Field("paths", v), Field("components", Obj([]))]);
    assert KeysOf(o.fields) == ["paths", "components"];
    assert o.fields[1..] == [Field("components", Obj([]))] && o.fields[1..][1..] == [];
    assert RefsIn(Obj([])) == {};
    assert FieldRefs(o.fields[1..]) == {};
    assert o.fields[0].val == v && o.fields[1].val == Obj([]);
  }

  lemma {:induction false} EscapingSelection()
    ensures Skeleton(ESCAPING, OPERATION) == Some(Selected("/p", "get", One("$ref", Str(PLANTER))))
  {
    EscapingHas();
    assert forall k :: k in TOP ==> k in {"openapi", "info", "servers", "security"};
    SelectionOfOne(ESCAPING, "/p", "get", One("$ref", Str(PLANTER)));
  }

  lemma {:induction false} EscapingReadable()
    ensures SchemesReadable(ESCAPING)
  {
    EscapingHas();
    assert "components" !in KeysOf(ESCAPING.fields);
  }

  /** From the selection only the planter is reached: what it points at is a string, which mentions nothing. */
  lemma {:induction false} OnlyPlanter(q: string)
    ensures Reachable(ESCAPING, {PLANTER}, q) <==> q == PLANTER
  {
    PlanterTarget();
    ReachableStart(ESCAPING, {PLANTER}, PLANTER);
    if Reachable(ESCAPING, {PLANTER}, q) {
      var rs :| Chain(ESCAPING, {PLANTER}, rs) && rs[|rs| - 1] == q;
      assert Closed(ESCAPING, {PLANTER});
      ChainCovered(ESCAPING, {PLANTER}, {PLANTER}, rs);
    }
  }

  lemma {:induction false} EscapingLinked()
    ensures LinkedFrom(ESCAPING, {PLANTER})
  {
    PlanterTarget();
    forall q | Reachable(ESCAPING, {PLANTER}, q) ensures Sound(ESCAPING, q) {
      OnlyPlanter(q);
    }
  }

  lemma {:induction false} PlantEscapes(doc: Value, need: set<string>, r: string, q: string)
    requires Reachable(doc, need, r) && Resolves(doc, r) && q in Planted(doc, r) && !Reachable(doc, need, q)
    ensures !PlantsReachable(doc, need)
  {
  }

  /** Whatever an extraction of it collects, the planted string is not among it. */
  lemma {:induction false} EscapingPlants(refs: set<string>)
    requires forall q :: q in refs <==> Reachable(ESCAPING, {PLANTER}, q)
    ensures refs == {PLANTER} && !PlantsReachable(ESCAPING, {PLANTER})
  {
    forall q ensures q in refs <==> q == PLANTER {
      OnlyPlanter(q);
    }
    PlanterTarget();
    OnlyPlanter(PLANTER);
    OnlyPlanter("#/y");
    assert |PLANTER| != |"#/y"|;
    PlantEscapes(ESCAPING, {PLANTER}, PLANTER, "#/y");
  }

  /** This extraction succeeds, and leaves a reference in the copy that it never collected. */
  method EscapingExtraction() returns (r: Extracted, ghost copied: Value)
    ensures r.Extracted? && r.refs == {PLANTER} && !(RefsIn(copied) <= r.refs)
    ensures Completes(ESCAPING, copied, r.out)
  {
    EscapingSelection();
    SelectedRefs("/p", "get", PLANTER);
    EscapingLinked();
    EscapingReadable();
    r, copied := Extract(ESCAPING, OPERATION);
    EscapingPlants(r.refs);
  }
}
