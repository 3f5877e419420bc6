/** The values the conformance runner handles: JSON plus JavaScript's `undefined`. */
module Json {
  import opened Text

  /** An object is its enumerable properties in enumeration order; numbers are finite. */
  datatype Value =
    | Undefined
    | Null
    | Bool(b: bool)
    | Num(n: real)
    | Str(s: string)
    | Arr(items: seq<Value>)
    | Obj(fields: seq<Field>)

  datatype Field = Field(key: string, val: Value)

  /** `v && typeof v === "object"`. */
  predicate IsContainer(v: Value) {
    v.Arr? || v.Obj?
  }

  /** A value that came out of a JSON text: no `undefined` anywhere. */
  predicate IsJson(v: Value)
    decreases v
  {
    match v
    case Undefined => false
    case Arr(xs) => forall i :: 0 <= i < |xs| ==> IsJson(xs[i])
    case Obj(fs) => forall i :: 0 <= i < |fs| ==> IsJson(fs[i].val)
    case _ => true
  }

  /** The property keys of an object. */
  function KeysOf(fs: seq<Field>): (ks: seq<string>)
    ensures |ks| == |fs|
    ensures forall i :: 0 <= i < |fs| ==> ks[i] == fs[i].key
  {
    seq(|fs|, i requires 0 <= i < |fs| => fs[i].key)
  }

  function Lookup(fs: seq<Field>, k: string): (v: Value)
    ensures k !in KeysOf(fs) ==> v == Undefined
    ensures k in KeysOf(fs) ==> exists i :: 0 <= i < |fs| && fs[i] == Field(k, v)
    ensures v == Undefined || v < Obj(fs)
  {
    if fs == [] then Undefined
    else if fs[|fs| - 1].key == k then fs[|fs| - 1].val
    else
      var front := fs[..|fs| - 1];
      assert forall i :: 0 <= i < |front| ==> KeysOf(front)[i] == KeysOf(fs)[i];
      Lookup(front, k)
  }

  /** Is `k` the property name of array index `i`? Only the canonical numeral is. */
  predicate IsIndexKey(k: string) {
    k != "" && AllDigits(k) && Decimal(ParseDecimal(k)) == k
  }

  /** `v[k]` on an array or an object, own properties only; an array also has `length`. */
  function Get(v: Value, k: string): (r: Value)
    requires IsContainer(v)
  {
    match v
    case Obj(fs) => Lookup(fs, k)
    case Arr(xs) =>
      if k == "length" then Num(|xs| as real)
      else if IsIndexKey(k) && ParseDecimal(k) < |xs| then xs[ParseDecimal(k)]
      else Undefined
  }

  /** `Object.keys(v)`. */
  function OwnKeys(v: Value): seq<string>
    requires IsContainer(v)
  {
    match v
    case Obj(fs) => KeysOf(fs)
    case Arr(xs) => seq(|xs|, i requires 0 <= i < |xs| => Decimal(i))
  }

  // ------------------------------------------------------------------ height

  function Height(v: Value): nat {
    match v
    case Arr(xs) => 1 + ItemsHeight(xs)
    case Obj(fs) => 1 + FieldsHeight(fs)
    case _ => 0
  }

  function ItemsHeight(xs: seq<Value>): (h: nat)
    ensures forall i :: 0 <= i < |xs| ==> Height(xs[i]) <= h
  {
    if xs == [] then 0
    else
      var h0, h1 := Height(xs[0]), ItemsHeight(xs[1..]);
      assert forall i :: 0 < i < |xs| ==> xs[i] == xs[1..][i - 1];
      if h0 < h1 then h1 else h0
  }

  function FieldsHeight(fs: seq<Field>): (h: nat)
    ensures forall i :: 0 <= i < |fs| ==> Height(fs[i].val) <= h
  {
    if fs == [] then 0
    else
      var h0, h1 := Height(fs[0].val), FieldsHeight(fs[1..]);
      assert forall i :: 0 < i < |fs| ==> fs[i] == fs[1..][i - 1];
      if h0 < h1 then h1 else h0
  }

  /** A property sits strictly lower than its container. */
  lemma {:induction false} GetLower(v: Value, k: string)
    requires IsContainer(v)
    ensures Height(Get(v, k)) < Height(v)
  {
  }

  // ------------------------------------------------------- renaming of leaves

  /** Apply `f` to every string leaf; keys stay. */
  function MapStrings(v: Value, f: string -> string): (r: Value)
    decreases v
  {
    match v
    case Str(s) => Str(f(s))
    case Arr(xs) => Arr(seq(|xs|, i requires 0 <= i < |xs| => MapStrings(xs[i], f)))
    case Obj(fs) => Obj(seq(|fs|, i requires 0 <= i < |fs| => Field(fs[i].key, MapStrings(fs[i].val, f))))
    case _ => v
  }

  /** The renamed fields of an object. */
  function MapFields(fs: seq<Field>, f: string -> string): (r: seq<Field>)
    ensures r == MapStrings(Obj(fs), f).fields
    ensures |r| == |fs|
    ensures forall i :: 0 <= i < |fs| ==> r[i] == Field(fs[i].key, MapStrings(fs[i].val, f))
  {
    MapStrings(Obj(fs), f).fields
  }

  lemma {:induction false} LookupMap(fs: seq<Field>, f: string -> string, k: string)
    ensures Lookup(MapFields(fs, f), k) == MapStrings(Lookup(fs, k), f)
  {
    if fs != [] {
      var n := |fs| - 1;
      assert MapFields(fs, f)[..n] == MapFields(fs[..n], f);
      if fs[n].key != k {
        LookupMap(fs[..n], f, k);
      }
    }
  }

  /** Reading a property commutes with renaming the leaves. */
  lemma {:induction false} GetMap(v: Value, f: string -> string, k: string)
    requires IsContainer(v)
    ensures IsContainer(MapStrings(v, f)) && Get(MapStrings(v, f), k) == MapStrings(Get(v, k), f)
  {
    if v.Obj? {
      LookupMap(v.fields, f, k);
    }
  }

  ghost predicate Injective(f: string -> string) {
    forall s, t :: f(s) == f(t) ==> s == t
  }

  lemma {:induction false} MapInjective(a: Value, b: Value, f: string -> string)
    requires Injective(f)
    ensures MapStrings(a, f) == MapStrings(b, f) <==> a == b
    decreases a
  {
    if MapStrings(a, f) == MapStrings(b, f) {
      match a
      case Arr(xs) =>
        var ys := b.items;
        var us, vs := MapStrings(a, f).items, MapStrings(b, f).items;
        forall i | 0 <= i < |xs| ensures xs[i] == ys[i] {
          assert us[i] == vs[i];
          MapInjective(xs[i], ys[i], f);
        }
      case Obj(fs) =>
        var gs := b.fields;
        var us, vs := MapStrings(a, f).fields, MapStrings(b, f).fields;
        forall i | 0 <= i < |fs| ensures fs[i] == gs[i] {
          assert us[i] == vs[i];
          MapInjective(fs[i].val, gs[i].val, f);
        }
      case _ =>
    }
  }
}
