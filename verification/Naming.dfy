/** Physical naming: `snake`, `kebab`, `table` and `column`, and why two declarations never share a name. */
module Naming {
  import opened Assoc

  const WORDS_A: set<string> := {
    "order", "user", "group", "table", "index", "select", "from", "to", "where", "key", "value", "values", "set",
    "update", "delete", "insert"
  }
  const WORDS_B: set<string> := {
    "into", "default", "check", "constraint", "primary", "references", "transaction", "limit", "offset", "by", "in",
    "is", "not", "null", "and", "or"
  }
  const WORDS_C: set<string> := {
    "as", "on", "join", "left", "right", "inner", "outer", "case", "when", "then", "else", "end", "status", "version"
  }
  const RESERVED: set<string> := WORDS_A + WORDS_B + WORDS_C

  predicate IsLower(c: char) {
    'a' <= c <= 'z'
  }

  predicate IsUpper(c: char) {
    'A' <= c <= 'Z'
  }

  function Lower(c: char): char {
    if IsUpper(c) then c + 32 as char else c
  }

  function Upper(c: char): char {
    if IsLower(c) then c - 32 as char else c
  }

  // ------------------------------------------------------------------- snake

  /** The two characters that stand before a letter written for a capital. */
  predicate IsSep(c: char) {
    c == '_' || c == '-'
  }

  /** What is written for one character after the first. */
  function Piece(c: char, sep: char): string {
    if IsUpper(c) then [sep, Lower(c)] else [c]
  }

  /** What is written for the characters after the first. */
  function SepRest(s: string, sep: char): string {
    if s == "" then "" else Piece(s[0], sep) + SepRest(s[1..], sep)
  }

  function Spelled(name: string, sep: char): string {
    if name == "" then "" else [Lower(name[0])] + SepRest(name[1..], sep)
  }

  function Snake(name: string): string {
    Spelled(name, '_')
  }

  /** What is written so far, and what the rest will give, once the first character is done. */
  lemma {:induction false} SnakeNext(name: string, i: nat, s: string)
    requires i < |name|
    ensures s + SepRest(name[i..], '_')
         == (if IsUpper(name[i]) then s + ['_'] + [Lower(name[i])] else s + [name[i]]) + SepRest(name[i + 1..], '_')
  {
    Uncons(name, i);
    Concat(s, Piece(name[i], '_'), SepRest(name[i + 1..], '_'));
    if IsUpper(name[i]) {
      assert s + ['_'] + [Lower(name[i])] == s + ['_', Lower(name[i])];
    }
  }

  method SnakeCase(name: string) returns (s: string)
    ensures s == Snake(name)
  {
    s := "";
    for i := 0 to |name|
      invariant i == 0 ==> s == ""
      invariant i > 0 ==> s + SepRest(name[i..], '_') == Snake(name)
    {
      var c := name[i];
      SnakeNext(name, i, s);
      if IsUpper(c) {
        if i > 0 {
          s := s + ['_'];
        }
        s := s + [Lower(c)];
      } else {
        s := s + [c];
      }
    }
  }

  /** Read back: a separator and the lower case letter after it are one capital. */
  function UnSep(s: string, sep: char): string {
    if s == "" then ""
    else if s[0] == sep && |s| > 1 && IsLower(s[1]) then [Upper(s[1])] + UnSep(s[2..], sep)
    else [s[0]] + UnSep(s[1..], sep)
  }

  lemma {:induction false} SepRestCons(c: char, s: string, sep: char)
    ensures SepRest([c] + s, sep) == Piece(c, sep) + SepRest(s, sep)
  {
    assert ([c] + s)[1..] == s;
  }

  lemma {:induction false} UnSepPiece(c: char, s: string, sep: char)
    requires IsSep(sep) && (c == sep && s != "" ==> !IsLower(s[0]))
    ensures UnSep(Piece(c, sep) + s, sep) == [c] + UnSep(s, sep)
  {
    var t := Piece(c, sep) + s;
    if IsUpper(c) {
      assert t[2..] == s && Upper(Lower(c)) == c;
    } else {
      assert t[1..] == s;
    }
  }

  /** Reading back what is written gives what reading back the name itself gives. */
  lemma {:induction false} UnSepRest(s: string, sep: char)
    requires IsSep(sep)
    ensures UnSep(SepRest(s, sep), sep) == UnSep(s, sep)
  {
    if s != "" {
      if s[0] == sep && |s| > 1 && IsLower(s[1]) {
        var t := SepRest(s, sep);
        var u := s[1..];
        assert u[0] == s[1] && u[1..] == s[2..];
        assert SepRest(u, sep) == [s[1]] + SepRest(s[2..], sep);
        assert t == [sep] + SepRest(u, sep);
        assert t[2..] == SepRest(s[2..], sep);
        UnSepRest(s[2..], sep);
      } else {
        UnSepPiece(s[0], SepRest(s[1..], sep), sep);
        UnSepRest(s[1..], sep);
      }
    }
  }

  /** And both are written alike. */
  lemma {:induction false} SepRestUn(s: string, sep: char)
    requires IsSep(sep)
    ensures SepRest(UnSep(s, sep), sep) == SepRest(s, sep)
  {
    if s != "" {
      if s[0] == sep && |s| > 1 && IsLower(s[1]) {
        assert s[1..][0] == s[1] && s[1..][1..] == s[2..];
        assert SepRest(s, sep) == [sep, s[1]] + SepRest(s[2..], sep);
        SepRestCons(Upper(s[1]), UnSep(s[2..], sep), sep);
        assert Lower(Upper(s[1])) == s[1];
        SepRestUn(s[2..], sep);
      } else {
        SepRestCons(s[0], UnSep(s[1..], sep), sep);
        SepRestUn(s[1..], sep);
      }
    }
  }

  /** The name that all names spelled alike have in common. */
  function Canonical(name: string, sep: char): string {
    if name == "" then "" else [Lower(name[0])] + UnSep(name[1..], sep)
  }

  lemma {:induction false} SpelledAlike(a: string, b: string, sep: char)
    requires IsSep(sep)
    ensures Spelled(a, sep) == Spelled(b, sep) <==> Canonical(a, sep) == Canonical(b, sep)
  {
    if a != "" && b != "" {
      var p, q := a[1..], b[1..];
      UnSepRest(p, sep);
      UnSepRest(q, sep);
      SepRestUn(p, sep);
      SepRestUn(q, sep);
      assert Spelled(a, sep)[0] == Lower(a[0]) && Spelled(a, sep)[1..] == SepRest(p, sep);
      assert Spelled(b, sep)[0] == Lower(b[0]) && Spelled(b, sep)[1..] == SepRest(q, sep);
      assert Canonical(a, sep)[0] == Lower(a[0]) && Canonical(a, sep)[1..] == UnSep(p, sep);
      assert Canonical(b, sep)[0] == Lower(b[0]) && Canonical(b, sep)[1..] == UnSep(q, sep);
    }
  }

  /** Any two names collide exactly when they are one once each underscore and lower case letter is a capital. */
  lemma {:induction false} SnakeCollidesExactly(a: string, b: string)
    ensures Snake(a) == Snake(b) <==> Canonical(a, '_') == Canonical(b, '_')
  {
    SpelledAlike(a, b, '_');
  }

  /** A name with its first letter in lower case. */
  function Uncapitalized(name: string): string {
    if name == "" then "" else [Lower(name[0])] + name[1..]
  }

  /** No separator comes right before a lower case letter. */
  predicate SepsClear(s: string, sep: char) {
    |s| > 1 ==> !(s[0] == sep && IsLower(s[1])) && SepsClear(s[1..], sep)
  }

  lemma {:induction false} ClearExactly(s: string, sep: char)
    requires IsSep(sep)
    ensures UnSep(s, sep) == s <==> SepsClear(s, sep)
  {
    if |s| > 0 {
      assert s == [s[0]] + s[1..];
      if s[0] == sep && |s| > 1 && IsLower(s[1]) {
        assert UnSep(s, sep)[0] == Upper(s[1]) != sep;
      } else {
        ClearExactly(s[1..], sep);
        assert UnSep(s, sep)[1..] == UnSep(s[1..], sep);
      }
    }
  }

  lemma {:induction false} NoneClear(s: string, sep: char)
    requires sep !in s
    ensures SepsClear(s, sep)
  {
    if |s| > 1 {
      NoneClear(s[1..], sep);
    }
  }

  /** `snake` can be undone, except for the case of the first letter. */
  lemma {:induction false} UnSnakeRecovers(name: string)
    requires '_' !in name
    ensures UnSep(Snake(name), '_') == Uncapitalized(name) == Canonical(name, '_')
  {
    if name != "" {
      var rest := name[1..];
      assert name[0] in name;
      UnSepRest(rest, '_');
      NoneClear(rest, '_');
      ClearExactly(rest, '_');
      assert Snake(name)[1..] == SepRest(rest, '_');
    }
  }

  /** Two names without underscores collide exactly when they differ at most in the case of their first letter. */
  lemma {:induction false} SnakeCollides(a: string, b: string)
    requires '_' !in a && '_' !in b
    ensures Snake(a) == Snake(b) <==> Uncapitalized(a) == Uncapitalized(b)
  {
    UnSnakeRecovers(a);
    UnSnakeRecovers(b);
    SnakeCollidesExactly(a, b);
  }

  /** Underscores do make names collide. */
  lemma {:induction false} UnderscoreCollides()
    ensures Snake("a_b") == Snake("aB") && Uncapitalized("a_b") != Uncapitalized("aB")
  {
    assert "aB"[1..] == "B" && "a_b"[1..] == "_b" && "_b"[1..] == "b" && "b"[1..] == "" && "B"[1..] == "";
    assert SepRest("B", '_') == "_b" && SepRest("_b", '_') == "_b";
    assert Uncapitalized("a_b")[1] == '_' && Uncapitalized("aB")[1] == 'B';
  }

  lemma {:induction false} SepRestLower(s: string, sep: char)
    requires IsSep(sep)
    ensures forall c :: c in SepRest(s, sep) ==> !IsUpper(c)
  {
    if s != "" {
      SepRestLower(s[1..], sep);
    }
  }

  lemma {:induction false} SepRestFixed(s: string, sep: char)
    requires forall c :: c in s ==> !IsUpper(c)
    ensures SepRest(s, sep) == s
  {
    if s != "" {
      SepRestFixed(s[1..], sep);
    }
  }

  lemma {:induction false} SnakeIdempotent(name: string)
    ensures Snake(Snake(name)) == Snake(name)
  {
    if name != "" {
      SepRestLower(name[1..], '_');
      SepRestFixed(SepRest(name[1..], '_'), '_');
      assert Snake(name)[1..] == SepRest(name[1..], '_');
    }
  }

  // -------------------------------------------------------- table and column

  function Table(resource: string): string {
    var s := Snake(resource);
    if s in RESERVED then s + "_" else s
  }

  function Column(field: string): string {
    var s := Snake(field);
    if s in RESERVED && s != "status" && s != "version" then s + "_" else s
  }

  predicate EndsUnderscore(s: string) {
    s != "" && s[|s| - 1] == '_'
  }

  lemma {:induction false} EndsA()
    ensures forall w :: w in WORDS_A ==> !EndsUnderscore(w)
  {
  }

  lemma {:induction false} EndsB()
    ensures forall w :: w in WORDS_B ==> !EndsUnderscore(w)
  {
  }

  lemma {:induction false} EndsC()
    ensures forall w :: w in WORDS_C ==> !EndsUnderscore(w)
  {
  }

  lemma {:induction false} ReservedEnds()
    ensures forall w :: w in RESERVED ==> !EndsUnderscore(w)
  {
    EndsA();
    EndsB();
    EndsC();
  }

  lemma {:induction false} SnakeRestEnds(s: string)
    requires '_' !in s
    ensures !EndsUnderscore(SepRest(s, '_'))
  {
    if s != "" {
      SnakeRestEnds(s[1..]);
      assert s[0] in s;
    }
  }

  /** `snake` of a name without underscores does not end in one. */
  lemma {:induction false} SnakeEnds(name: string)
    requires '_' !in name
    ensures !EndsUnderscore(Snake(name))
  {
    if name != "" {
      SnakeRestEnds(name[1..]);
      assert name[0] in name;
      if IsUpper(name[0]) {
        assert Lower(name[0]) != '_';
      }
    }
  }

  /** A table never has a reserved name; a column only `status` or `version`, which are meant to stay. */
  lemma {:induction false} NeverReserved(name: string)
    ensures Table(name) !in RESERVED
    ensures Column(name) in RESERVED <==> Snake(name) == "status" || Snake(name) == "version"
  {
    ReservedEnds();
    assert EndsUnderscore(Snake(name) + "_");
  }

  lemma {:induction false} Suffixed(s: string, t: string)
    ensures s + "_" == t + "_" <==> s == t
    ensures EndsUnderscore(s + "_") && EndsUnderscore(t + "_")
  {
    assert (s + "_")[..|s|] == s && (t + "_")[..|t|] == t;
  }

  /** `b` is spelled like the escaped form of `a`, such as `order_` for `Order`. */
  predicate Escapes(a: string, b: string) {
    Snake(a) in RESERVED && Snake(b) == Snake(a) + "_"
  }

  predicate IsSystem(name: string) {
    Snake(name) == "status" || Snake(name) == "version"
  }

  /** Any two names share a table or a column exactly when the names collide, or one is the escape of the other. */
  lemma {:induction false} PhysicalCollidesExactly(a: string, b: string)
    ensures Table(a) == Table(b) <==> Canonical(a, '_') == Canonical(b, '_') || Escapes(a, b) || Escapes(b, a)
    ensures Column(a) == Column(b) <==>
            || Canonical(a, '_') == Canonical(b, '_')
            || (Escapes(a, b) && !IsSystem(a))
            || (Escapes(b, a) && !IsSystem(b))
  {
    ReservedEnds();
    SnakeCollidesExactly(a, b);
    Suffixed(Snake(a), Snake(b));
  }

  /** Without underscores, tables and columns collide exactly when the names do. */
  lemma {:induction false} PhysicalCollides(a: string, b: string)
    requires '_' !in a && '_' !in b
    ensures Table(a) == Table(b) <==> Uncapitalized(a) == Uncapitalized(b)
    ensures Column(a) == Column(b) <==> Uncapitalized(a) == Uncapitalized(b)
  {
    SnakeEnds(a);
    SnakeEnds(b);
    SnakeCollides(a, b);
    Suffixed(Snake(a), Snake(b));
  }

  lemma {:induction false} SameCapital(a: string, b: string)
    requires a != "" && b != "" && IsUpper(a[0]) && IsUpper(b[0]) && Uncapitalized(a) == Uncapitalized(b)
    ensures a == b
  {
    var u, v := Uncapitalized(a), Uncapitalized(b);
    assert u[0] == v[0] && u[1..] == v[1..];
    assert a[1..] == u[1..] && b[1..] == v[1..];
    assert a == [a[0]] + a[1..] && b == [b[0]] + b[1..];
  }

  /** Distinct resources, whose names start in upper case, have distinct tables. */
  lemma {:induction false} TableInjective(a: string, b: string)
    requires '_' !in a && '_' !in b && a != "" && b != "" && IsUpper(a[0]) && IsUpper(b[0])
    ensures Table(a) == Table(b) ==> a == b
  {
    PhysicalCollides(a, b);
    if Uncapitalized(a) == Uncapitalized(b) {
      SameCapital(a, b);
    }
  }

  /** Distinct fields, whose names do not start in upper case, have distinct columns. */
  lemma {:induction false} ColumnInjective(a: string, b: string)
    requires '_' !in a && '_' !in b && a != "" && b != "" && !IsUpper(a[0]) && !IsUpper(b[0])
    ensures Column(a) == Column(b) ==> a == b
  {
    PhysicalCollides(a, b);
    assert a == [a[0]] + a[1..] && b == [b[0]] + b[1..];
    assert Uncapitalized(a) == a && Uncapitalized(b) == b;
  }

  // ------------------------------------------------------------------- kebab

  function Replaced(s: string, from: char, to: char): (r: string)
    ensures |r| == |s|
    ensures forall i :: 0 <= i < |s| ==> r[i] == if s[i] == from then to else s[i]
  {
    seq(|s|, i requires 0 <= i < |s| => if s[i] == from then to else s[i])
  }

  function Kebab(name: string): string {
    Replaced(Snake(name), '_', '-')
  }

  /** `kebab` spells the name without underscores with a dash. */
  lemma {:induction false} KebabRest(s: string)
    ensures Replaced(SepRest(s, '_'), '_', '-') == SepRest(Replaced(s, '_', '-'), '-')
  {
    if s != "" {
      var r := Replaced(s, '_', '-');
      KebabRest(s[1..]);
      assert r[1..] == Replaced(s[1..], '_', '-');
      assert Replaced(Piece(s[0], '_'), '_', '-') == Piece(r[0], '-');
      ReplacedAppend(Piece(s[0], '_'), SepRest(s[1..], '_'), '_', '-');
    }
  }

  lemma {:induction false} ReplacedAppend(s: string, t: string, from: char, to: char)
    ensures Replaced(s + t, from, to) == Replaced(s, from, to) + Replaced(t, from, to)
  {
  }

  lemma {:induction false} KebabSpelled(name: string)
    ensures Kebab(name) == Spelled(Replaced(name, '_', '-'), '-')
  {
    if name != "" {
      var r, rest := Replaced(name, '_', '-'), SepRest(name[1..], '_');
      assert r[1..] == Replaced(name[1..], '_', '-');
      assert Replaced([Lower(name[0])], '_', '-') == [Lower(r[0])];
      ReplacedAppend([Lower(name[0])], rest, '_', '-');
      KebabRest(name[1..]);
    }
  }

  /** Path segments of any two names collide exactly when the names are one once each underscore is a dash and
      each dash before a lower case letter, past the first character, makes that letter a capital. */
  lemma {:induction false} KebabCollides(a: string, b: string)
    ensures Kebab(a) == Kebab(b) <==>
            Canonical(Replaced(a, '_', '-'), '-') == Canonical(Replaced(b, '_', '-'), '-')
  {
    KebabSpelled(a);
    KebabSpelled(b);
    SpelledAlike(Replaced(a, '_', '-'), Replaced(b, '_', '-'), '-');
  }

  lemma {:induction false} ReplacedNone(s: string)
    requires '_' !in s
    ensures Replaced(s, '_', '-') == s
  {
  }

  /** A path segment gives its name back, up to the case of the first letter, exactly when the dashes are clear. */
  lemma {:induction false} UnKebabRecovers(name: string)
    requires '_' !in name && name != ""
    ensures var s := Kebab(name); s[0] == Lower(name[0])
    ensures UnSep(Kebab(name)[1..], '-') == name[1..] <==> SepsClear(name[1..], '-')
  {
    KebabSpelled(name);
    ReplacedNone(name);
    assert Kebab(name)[1..] == SepRest(name[1..], '-');
    UnSepRest(name[1..], '-');
    ClearExactly(name[1..], '-');
  }

  lemma {:induction false} SepRestAppend(s: string, t: string, sep: char)
    ensures SepRest(s + t, sep) == SepRest(s, sep) + SepRest(t, sep)
  {
    if s == "" {
      assert s + t == t;
    } else {
      assert (s + t)[1..] == s[1..] + t;
      SepRestAppend(s[1..], t, sep);
    }
  }

  lemma {:induction false} KebabParts(front: string, rest: string)
    requires front != ""
    ensures Kebab(front + rest) == Kebab(front) + SepRest(Replaced(rest, '_', '-'), '-')
  {
    var f, r := Replaced(front, '_', '-'), Replaced(rest, '_', '-');
    KebabSpelled(front);
    KebabSpelled(front + rest);
    ReplacedAppend(front, rest, '_', '-');
    assert (f + r)[1..] == f[1..] + r;
    SepRestAppend(f[1..], r, '-');
  }

  /** A dash and a lower case letter are written like the capital. */
  lemma {:induction false} DashLikeCapital(c: char, back: string)
    requires IsLower(c)
    ensures SepRest(['-', c] + back, '-') == SepRest([Upper(c)] + back, '-')
  {
    assert ['-', c] + back == ['-'] + ([c] + back);
    SepRestCons('-', [c] + back, '-');
    SepRestCons(c, back, '-');
    SepRestCons(Upper(c), back, '-');
    assert Lower(Upper(c)) == c;
  }

  /** A dash before a lower case letter, past the first character, is read as a capital: `a-b` and `aB` collide. */
  lemma {:induction false} DashCollides(front: string, c: char, back: string)
    requires front != "" && IsLower(c)
    ensures var a, b := front + (['-', c] + back), front + ([Upper(c)] + back);
            Kebab(a) == Kebab(b) && Uncapitalized(a) != Uncapitalized(b)
  {
    var p, q, r := ['-', c] + back, [Upper(c)] + back, Replaced(back, '_', '-');
    assert Replaced(p, '_', '-') == ['-', c] + r && Replaced(q, '_', '-') == [Upper(c)] + r;
    DashLikeCapital(c, r);
    KebabParts(front, p);
    KebabParts(front, q);
    assert |front + p| == |front + q| + 1;
  }
}
