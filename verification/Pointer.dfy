/** JSON Pointers (RFC 6901) into documents: reading, writing, and what a partial copy of a document is. */
module Pointer {
  import opened Assoc
  import opened Json

  // ----------------------------------------------------------- token escaping

  /** `s.replace(ab, sub)` for a two-character pattern. */
  function Replace2(s: string, a: char, b: char, sub: char): string {
    if |s| < 2 then s
    else if s[0] == a && s[1] == b then [sub] + Replace2(s[2..], a, b, sub)
    else [s[0]] + Replace2(s[1..], a, b, sub)
  }

  /** `k.replace('~1', '/').replace('~0', '~')`. */
  function Unescape(k: string): string {
    Replace2(Replace2(k, '~', '1', '/'), '~', '0', '~')
  }

  /** The escaping of section 3 of RFC 6901. */
  function Escape(k: string): string {
    if k == "" then ""
    else (if k[0] == '~' then "~0" else if k[0] == '/' then "~1" else [k[0]]) + Escape(k[1..])
  }

  /** A token with only its tildes escaped. */
  function EscapeTilde(k: string): string {
    if k == "" then "" else (if k[0] == '~' then "~0" else [k[0]]) + EscapeTilde(k[1..])
  }

  lemma {:induction false} UnescapeSlashes(k: string)
    ensures Replace2(Escape(k), '~', '1', '/') == EscapeTilde(k)
  {
    if k != "" {
      UnescapeSlashes(k[1..]);
      var rest := Escape(k[1..]);
      if k[0] == '~' {
        PairStays('~', '0', rest, '~', '1', '/');
      } else if k[0] == '/' {
        EscapedSlash(rest);
      } else {
        ReplacePlain(k[0], rest, '~', '1', '/');
      }
    }
  }

  lemma {:induction false} PairStays(c: char, d: char, s: string, a: char, b: char, sub: char)
    requires d != a && d != b
    ensures Replace2([c] + [d] + s, a, b, sub) == [c] + [d] + Replace2(s, a, b, sub)
  {
    var t := Replace2(s, a, b, sub);
    ReplacePlain(c, [d] + s, a, b, sub);
    ReplacePlain(d, s, a, b, sub);
    Concat([c], [d], s);
    Concat([c], [d], t);
  }

  lemma {:induction false} EscapedSlash(s: string)
    ensures Replace2("~1" + s, '~', '1', '/') == "/" + Replace2(s, '~', '1', '/')
  {
    assert ("~1" + s)[2..] == s;
  }

  /** A character that does not start the pattern stays. */
  lemma {:induction false} ReplacePlain(c: char, s: string, a: char, b: char, sub: char)
    requires c == a && s != "" ==> s[0] != b
    ensures Replace2([c] + s, a, b, sub) == [c] + Replace2(s, a, b, sub)
  {
    assert ([c] + s)[1..] == s;
  }

  lemma {:induction false} UnescapeTildes(k: string)
    ensures Replace2(EscapeTilde(k), '~', '0', '~') == k
  {
    if k != "" {
      UnescapeTildes(k[1..]);
      var e, rest := EscapeTilde(k), EscapeTilde(k[1..]);
      if k[0] == '~' {
        assert e[2..] == rest;
      } else {
        assert e[1..] == rest;
      }
    }
  }

  /** The decoding order is right: every property name comes back from its escaped form. */
  lemma {:induction false} UnescapeEscape(k: string)
    ensures Unescape(Escape(k)) == k
  {
    UnescapeSlashes(k);
    UnescapeTildes(k);
  }

  // ------------------------------------------------------- reading and writing

  /** Follow property names through objects only. */
  function At(v: Value, keys: seq<string>): Option<Value>
    decreases keys
  {
    if keys == [] then Some(v)
    else if v.Obj? && keys[0] in KeysOf(v.fields) then At(Lookup(v.fields, keys[0]), keys[1..])
    else None
  }

  /** `d[k] = v`: an existing property keeps its place. */
  function SetField(fs: seq<Field>, k: string, v: Value): seq<Field> {
    if fs == [] then [Field(k, v)]
    else if fs[|fs| - 1].key == k then fs[..|fs| - 1] + [Field(k, v)]
    else SetField(fs[..|fs| - 1], k, v) + [fs[|fs| - 1]]
  }

  lemma {:induction false} KeysSnoc(fs: seq<Field>, f: Field)
    ensures KeysOf(fs + [f]) == KeysOf(fs) + [f.key]
  {
  }

  lemma {:induction false} KeysSplit(fs: seq<Field>, k: string)
    requires fs != []
    ensures k in KeysOf(fs) <==> k == fs[|fs| - 1].key || k in KeysOf(fs[..|fs| - 1])
  {
    assert fs == fs[..|fs| - 1] + [fs[|fs| - 1]];
    KeysSnoc(fs[..|fs| - 1], fs[|fs| - 1]);
  }

  lemma {:induction false} SetFieldLookup(fs: seq<Field>, k: string, v: Value, k': string)
    ensures k' in KeysOf(SetField(fs, k, v)) <==> k' == k || k' in KeysOf(fs)
    ensures Lookup(SetField(fs, k, v), k') == if k' == k then v else Lookup(fs, k')
  {
    var gs := SetField(fs, k, v);
    if fs == [] {
      assert gs[..0] == [];
      KeysSplit(gs, k');
    } else {
      var front, last := fs[..|fs| - 1], fs[|fs| - 1];
      KeysSplit(fs, k');
      KeysSplit(gs, k');
      if last.key == k {
        assert gs[..|gs| - 1] == front;
      } else {
        assert gs[..|gs| - 1] == SetField(front, k, v);
        SetFieldLookup(front, k, v, k');
      }
    }
  }

  /** Writing back what is there changes nothing. */
  lemma {:induction false} SetFieldSame(fs: seq<Field>, k: string)
    requires k in KeysOf(fs)
    ensures SetField(fs, k, Lookup(fs, k)) == fs
  {
    var front, last := fs[..|fs| - 1], fs[|fs| - 1];
    assert fs == front + [last];
    KeysSplit(fs, k);
    if last.key != k {
      SetFieldSame(front, k);
    }
  }

  /** The member `setdefault(k, {})` returns. */
  function Member(o: Value, k: string): Value
    requires o.Obj?
  {
    if k in KeysOf(o.fields) then Lookup(o.fields, k) else Obj([])
  }

  /** Every object on the way to the last key is one, or is missing. */
  predicate CanSet(o: Value, keys: seq<string>)
    decreases keys
  {
    o.Obj? && (|keys| <= 1 || CanSet(Member(o, keys[0]), keys[1..]))
  }

  /** The document after `dest = dest.setdefault(k, {})` along the path and `dest[last] = v`. */
  function SetPath(o: Value, keys: seq<string>, v: Value): Value
    requires keys != [] && CanSet(o, keys)
    decreases keys
  {
    if |keys| == 1 then Obj(SetField(o.fields, keys[0], v))
    else Obj(SetField(o.fields, keys[0], SetPath(Member(o, keys[0]), keys[1..], v)))
  }

  /** Writing a document's own value back at its place leaves it as it is, so sharing the object is harmless. */
  lemma {:induction false} SetPathSame(d: Value, keys: seq<string>)
    requires keys != [] && At(d, keys).Some?
    ensures CanSet(d, keys) && SetPath(d, keys, At(d, keys).value) == d
    decreases keys
  {
    SetFieldSame(d.fields, keys[0]);
    if |keys| > 1 {
      SetPathSame(Lookup(d.fields, keys[0]), keys[1..]);
    } else {
      assert keys[1..] == [];
    }
  }

  /** What is written is read there. */
  lemma {:induction false} SetPathHere(o: Value, keys: seq<string>, v: Value)
    requires keys != [] && CanSet(o, keys)
    ensures At(SetPath(o, keys, v), keys) == Some(v)
    decreases |keys|
  {
    var k, rest := keys[0], keys[1..];
    if |keys| == 1 {
      assert rest == [];
      SetFieldLookup(o.fields, k, v, k);
    } else {
      var child := SetPath(Member(o, k), rest, v);
      SetPathHere(Member(o, k), rest, v);
      SetFieldLookup(o.fields, k, child, k);
    }
  }

  /** Paths that lead elsewhere read as before. */
  lemma {:induction false} SetPathElsewhere(o: Value, keys: seq<string>, v: Value, ks: seq<string>)
    requires keys != [] && CanSet(o, keys) && !(keys <= ks) && !(ks <= keys)
    ensures At(SetPath(o, keys, v), ks) == At(o, ks)
    decreases |keys|
  {
    var k, rest := keys[0], keys[1..];
    var child := if |keys| == 1 then v else SetPath(Member(o, k), rest, v);
    SetFieldLookup(o.fields, k, child, ks[0]);
    assert keys == [k] + rest && ks == [ks[0]] + ks[1..];
    if ks[0] == k {
      assert |keys| > 1 && ks[1..] != [];
      SetPathElsewhere(Member(o, k), rest, v, ks[1..]);
      MemberReads(o, k, ks[1..]);
    }
  }

  lemma {:induction false} MemberReads(o: Value, k: string, ks: seq<string>)
    requires o.Obj? && ks != []
    ensures At(Member(o, k), ks) == if k in KeysOf(o.fields) then At(Lookup(o.fields, k), ks) else None
  {
    assert KeysOf([]) == [];
  }

  // ------------------------------------------------------------ sub-documents

  /** `o` is `d` with some properties of objects left out. */
  ghost predicate SubDoc(o: Value, d: Value)
    decreases o
  {
    o == d ||
    (o.Obj? && d.Obj? && forall k :: k in KeysOf(o.fields) ==>
       k in KeysOf(d.fields) && Lookup(o.fields, k) < o && SubDoc(Lookup(o.fields, k), Lookup(d.fields, k)))
  }

  lemma {:induction false} LookupSmaller(fs: seq<Field>, k: string)
    requires k in KeysOf(fs)
    ensures Lookup(fs, k) < Obj(fs)
  {
    var i :| 0 <= i < |fs| && fs[i] == Field(k, Lookup(fs, k));
  }

  lemma {:induction false} SubMember(o: Value, d: Value, k: string)
    requires SubDoc(o, d) && d.Obj? && k in KeysOf(d.fields)
    ensures o.Obj? && (k in KeysOf(o.fields) || Lookup(d.fields, k).Obj? ==> SubDoc(Member(o, k), Lookup(d.fields, k)))
  {
    assert KeysOf([]) == [];
  }

  /** The copy answers the path as the document does. */
  ghost predicate Answers(o: Value, d: Value, keys: seq<string>) {
    At(d, keys).Some? && At(o, keys) == At(d, keys)
  }

  lemma {:induction false} SubDocObj(fs: seq<Field>, d: Value)
    requires d.Obj? && forall k :: k in KeysOf(fs) ==>
             k in KeysOf(d.fields) && SubDoc(Lookup(fs, k), Lookup(d.fields, k))
    ensures SubDoc(Obj(fs), d)
  {
    forall k | k in KeysOf(fs) ensures Lookup(fs, k) < Obj(fs) {
      LookupSmaller(fs, k);
    }
  }

  /** Writing a value of the document at its own path succeeds, answers the path and stays a sub-document. */
  lemma {:induction false} SetPathSub(o: Value, d: Value, keys: seq<string>)
    requires keys != [] && At(d, keys).Some? && SubDoc(o, d)
    ensures CanSet(o, keys)
    ensures SubDoc(SetPath(o, keys, At(d, keys).value), d) && Answers(SetPath(o, keys, At(d, keys).value), d, keys)
    decreases keys
  {
    var k, v := keys[0], At(d, keys).value;
    SubMember(o, d, k);
    var child;
    if |keys| == 1 {
      assert keys[1..] == [];
      child := v;
    } else {
      SetPathSub(Member(o, k), Lookup(d.fields, k), keys[1..]);
      child := SetPath(Member(o, k), keys[1..], v);
    }
    SetFieldSub(o, d, k, child);
    SetFieldLookup(o.fields, k, child, k);
  }

  lemma {:induction false} SetFieldSub(o: Value, d: Value, k: string, child: Value)
    requires SubDoc(o, d) && o.Obj? && d.Obj? && k in KeysOf(d.fields) && SubDoc(child, Lookup(d.fields, k))
    ensures SubDoc(Obj(SetField(o.fields, k, child)), d)
  {
    var fs := SetField(o.fields, k, child);
    forall k' | k' in KeysOf(fs) ensures k' in KeysOf(d.fields) && SubDoc(Lookup(fs, k'), Lookup(d.fields, k')) {
      SetFieldLookup(o.fields, k, child, k');
    }
    SubDocObj(fs, d);
  }

  /** What the copy already answered, it still answers after another value of the document is written. */
  lemma {:induction false} SetPathKeeps(o: Value, d: Value, keys: seq<string>, other: seq<string>)
    requires keys != [] && At(d, keys).Some? && SubDoc(o, d) && Answers(o, d, other)
    ensures CanSet(o, keys) && Answers(SetPath(o, keys, At(d, keys).value), d, other)
    decreases keys
  {
    SetPathSub(o, d, keys);
    var k, v := keys[0], At(d, keys).value;
    if other == [] {
      SetPathSame(d, keys);
    } else {
      SubMember(o, d, k);
      var child := if |keys| == 1 then v else SetPath(Member(o, k), keys[1..], v);
      SetFieldLookup(o.fields, k, child, other[0]);
      if other[0] == k {
        if |keys| == 1 {
          assert keys[1..] == [];
        } else {
          SetPathKeeps(Member(o, k), Lookup(d.fields, k), keys[1..], other[1..]);
        }
      }
    }
  }

  // ---------------------------------------------------------- partial copies

  /** `d` with an empty object at `k`, unless it has an object there. */
  function Emptied(d: Value, k: string): Value {
    if d.Obj? && !Lookup(d.fields, k).Obj? then Obj(SetField(d.fields, k, Obj([]))) else d
  }

  /** `o` is a sub-document of `d`, or of `d` with an empty object at `k`. */
  ghost predicate PartOf(o: Value, d: Value, k: string) {
    SubDoc(o, d) || SubDoc(o, Emptied(d, k))
  }

  /** Every path of `d` but `k` itself reads the same. */
  lemma {:induction false} EmptiedAt(d: Value, k: string, keys: seq<string>)
    requires keys != [] && At(d, keys).Some?
    ensures keys == [k] || At(Emptied(d, k), keys) == At(d, keys)
  {
    SetFieldLookup(d.fields, k, Obj([]), keys[0]);
    assert keys == [keys[0]] + keys[1..];
  }

  /** The document's own value comes in the place of the empty object. */
  lemma {:induction false} FilledSub(o: Value, d: Value, k: string)
    requires d.Obj? && k in KeysOf(d.fields) && SubDoc(o, Emptied(d, k))
    ensures o.Obj? && SubDoc(Obj(SetField(o.fields, k, Lookup(d.fields, k))), d)
  {
    var fs := SetField(o.fields, k, Lookup(d.fields, k));
    forall j | j in KeysOf(fs) ensures j in KeysOf(d.fields) && SubDoc(Lookup(fs, j), Lookup(d.fields, j)) {
      SetFieldLookup(o.fields, k, Lookup(d.fields, k), j);
      SetFieldLookup(d.fields, k, Obj([]), j);
    }
    SubDocObj(fs, d);
  }

  /** Writing a value of the document at its own path succeeds, answers the path and leaves a part of it. */
  lemma {:induction false} SetPathPart(o: Value, d: Value, k: string, keys: seq<string>)
    requires keys != [] && At(d, keys).Some? && PartOf(o, d, k)
    ensures CanSet(o, keys)
    ensures var o' := SetPath(o, keys, At(d, keys).value); PartOf(o', d, k) && Answers(o', d, keys)
  {
    if SubDoc(o, d) {
      SetPathSub(o, d, keys);
    } else {
      EmptiedAt(d, k, keys);
      if At(Emptied(d, k), keys) == At(d, keys) {
        SetPathSub(o, Emptied(d, k), keys);
      } else {
        assert keys[1..] == [];
        FilledSub(o, d, k);
        SetFieldLookup(o.fields, k, Lookup(d.fields, k), k);
      }
    }
  }

  /** And keeps what the copy already answered. */
  lemma {:induction false} SetPathPartKeeps(o: Value, d: Value, k: string, keys: seq<string>, other: seq<string>)
    requires keys != [] && At(d, keys).Some? && PartOf(o, d, k) && other != [] && Answers(o, d, other)
    ensures CanSet(o, keys) && Answers(SetPath(o, keys, At(d, keys).value), d, other)
  {
    if SubDoc(o, d) {
      SetPathKeeps(o, d, keys, other);
    } else {
      if other == [k] {
        EmptiedKey(o, d, k);
      }
      EmptiedAt(d, k, keys);
      EmptiedAt(d, k, other);
      if At(Emptied(d, k), keys) == At(d, keys) {
        SetPathKeeps(o, Emptied(d, k), keys, other);
      } else {
        EmptiedHead(d, k, other);
        FilledKeeps(o, d, k, other);
      }
    }
  }

  /** Writing one member leaves the paths through the others. */
  lemma {:induction false} FilledKeeps(o: Value, d: Value, k: string, other: seq<string>)
    requires o.Obj? && d.Obj? && k in KeysOf(d.fields) && Answers(o, d, other) && other != [] && other[0] != k
    ensures At(d, [k]) == Some(Lookup(d.fields, k))
    ensures Answers(SetPath(o, [k], Lookup(d.fields, k)), d, other)
  {
    assert [k][1..] == [];
    SetFieldLookup(o.fields, k, Lookup(d.fields, k), other[0]);
  }

  /** Only a part of the document itself answers the key that was emptied. */
  lemma {:induction false} EmptiedKey(o: Value, d: Value, k: string)
    requires SubDoc(o, Emptied(d, k)) && Answers(o, d, [k])
    ensures Emptied(d, k) == d
  {
    AtKey(o, k);
    AtKey(d, k);
    SetFieldLookup(d.fields, k, Obj([]), k);
    SubMember(o, Emptied(d, k), k);
  }

  lemma {:induction false} AtKey(v: Value, k: string)
    requires At(v, [k]).Some?
    ensures v.Obj? && k in KeysOf(v.fields) && At(v, [k]) == Some(Lookup(v.fields, k))
  {
    assert [k][1..] == [];
  }

  lemma {:induction false} EmptiedHead(d: Value, k: string, other: seq<string>)
    requires Emptied(d, k) != d && other != [] && At(d, other).Some? && other != [k]
    ensures other[0] != k
  {
    assert other == [other[0]] + other[1..];
  }
}
