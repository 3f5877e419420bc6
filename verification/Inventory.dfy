/** The snapshot inventory: a directory tree listed row by row, and what equal listings prove. */
module Inventory {
  import opened Text
  import opened Assoc

  datatype Node =
    | File(mode: nat, content: seq<nat>)
    | Link(mode: nat, target: string)
    | Dir(mode: nat, kids: map<string, Node>)
    | Special(mode: nat)

  datatype Kind = FileRow(size: nat, sha256: string) | LinkRow(target: string) | DirRow

  /** `path` is the sequence of names below the source. */
  datatype Row = Row(path: seq<string>, mode: nat, kind: Kind)

  datatype Error = EntryBudget | ByteBudget | SpecialFile

  type Digest = seq<nat> -> string

  // ------------------------------------------------------------ sorted names

  /** The names of a directory in some order. */
  ghost function Listing(s: set<string>): (r: seq<string>)
    ensures multiset(r) == multiset(s)
    decreases s
  {
    if s == {} then []
    else
      var x :| x in s;
      assert multiset(s - {x}) == multiset(s) - multiset{x};
      [x] + Listing(s - {x})
  }

  /** The names in code unit order. */
  ghost function Order(s: set<string>): (r: seq<string>)
    ensures forall k :: k in r <==> k in s
    ensures Distinct(r)
  {
    SortSorts(Listing(s));
    SetHasNoRepeats(Sort(Listing(s)), s);
    Sort(Listing(s))
  }

  lemma {:induction false} SetHasNoRepeats(r: seq<string>, s: set<string>)
    requires multiset(r) == multiset(s)
    ensures (forall k :: k in r <==> k in s) && Distinct(r)
  {
    forall k ensures k in r <==> k in s {
      assert k in r <==> k in multiset(r);
    }
    forall i, j | 0 <= i < j < |r| ensures r[i] != r[j] {
      Repeated(r, i, j);
    }
  }

  lemma {:induction false} Repeated(r: seq<string>, i: nat, j: nat)
    requires i < j < |r|
    ensures r[i] == r[j] ==> multiset(r)[r[i]] >= 2
  {
    assert r == r[..i] + [r[i]] + r[i + 1..j] + [r[j]] + r[j + 1..];
  }

  // -------------------------------------------------------------------- rows

  function RowOf(n: Node, path: seq<string>, h: Digest): Row
    requires !n.Special?
  {
    match n
    case File(mode, content) => Row(path, mode, FileRow(|content|, h(content)))
    case Link(mode, target) => Row(path, mode, LinkRow(target))
    case Dir(mode, _) => Row(path, mode, DirRow)
  }

  /** No special file anywhere below the directory. */
  ghost predicate Ordinary(d: Node)
    decreases d
  {
    d.Dir? ==> forall k :: k in d.kids ==> !d.kids[k].Special? && Ordinary(d.kids[k])
  }

  /** The rows of the named entries of `d`. */
  ghost function NameRows(d: Node, names: seq<string>, prefix: seq<string>, h: Digest): seq<Row>
    requires d.Dir? && Ordinary(d) && forall k :: k in names ==> k in d.kids
    decreases d, 0, |names|
  {
    if names == [] then []
    else EntryRows(d.kids[names[0]], prefix + [names[0]], h) + NameRows(d, names[1..], prefix, h)
  }

  ghost function EntryRows(n: Node, path: seq<string>, h: Digest): seq<Row>
    requires !n.Special? && Ordinary(n)
    decreases n, 2
  {
    [RowOf(n, path, h)] + if n.Dir? then DirRows(n, path, h) else []
  }

  /** `visit(directory)`: every entry in name order, a directory's own row before its contents. */
  ghost function DirRows(d: Node, prefix: seq<string>, h: Digest): seq<Row>
    requires d.Dir? && Ordinary(d)
    decreases d, 1
  {
    NameRows(d, Order(d.kids.Keys), prefix, h)
  }

  /** Entries and bytes below a directory, following names in a given order. */
  ghost function NameCount(d: Node, names: seq<string>): nat
    requires d.Dir? && forall k :: k in names ==> k in d.kids
    decreases d, 0, |names|
  {
    if names == [] then 0 else EntryCount(d.kids[names[0]]) + NameCount(d, names[1..])
  }

  ghost function EntryCount(n: Node): (c: nat)
    ensures c >= 1
    decreases n, 2
  {
    1 + if n.Dir? then DirCount(n) else 0
  }

  ghost function DirCount(d: Node): nat
    requires d.Dir?
    decreases d, 1
  {
    NameCount(d, Order(d.kids.Keys))
  }

  lemma {:induction false} EntryParts(n: Node, path: seq<string>, h: Digest)
    ensures n.Dir? ==> EntryCount(n) == 1 + DirCount(n) && EntryBytes(n) == DirBytes(n)
    ensures n.Dir? && Ordinary(n) ==> EntryRows(n, path, h) == [RowOf(n, path, h)] + DirRows(n, path, h)
    ensures !n.Dir? ==> EntryCount(n) == 1 && EntryBytes(n) == (if n.File? then |n.content| else 0) && Ordinary(n)
    ensures !n.Dir? && !n.Special? ==> EntryRows(n, path, h) == [RowOf(n, path, h)]
  {
  }

  ghost function NameBytes(d: Node, names: seq<string>): nat
    requires d.Dir? && forall k :: k in names ==> k in d.kids
    decreases d, 0, |names|
  {
    if names == [] then 0 else EntryBytes(d.kids[names[0]]) + NameBytes(d, names[1..])
  }

  ghost function EntryBytes(n: Node): nat
    decreases n, 2
  {
    match n case File(_, content) => |content| case Dir(_, _) => DirBytes(n) case _ => 0
  }

  ghost function DirBytes(d: Node): nat
    requires d.Dir?
    decreases d, 1
  {
    NameBytes(d, Order(d.kids.Keys))
  }

  // --------------------------------------------------------------- inventory

  /** No special file among the named entries or below them. */
  ghost predicate NamesOrdinary(d: Node, names: seq<string>)
    requires d.Dir? && forall k :: k in names ==> k in d.kids
  {
    forall k :: k in names ==> !d.kids[k].Special? && Ordinary(d.kids[k])
  }

  class Lister {
    const maxBytes: nat
    const maxEntries: nat
    const h: Digest
    var entries: seq<Row>
    var total: nat

    constructor (maxBytes: nat, maxEntries: nat, h: Digest)
      ensures this.maxBytes == maxBytes && this.maxEntries == maxEntries && this.h == h && entries == [] && total == 0
    {
      this.maxBytes, this.maxEntries, this.h := maxBytes, maxEntries, h;
      entries, total := [], 0;
    }

    ghost predicate Within()
      reads this
    {
      |entries| <= maxEntries && total <= maxBytes
    }

    /** The order of `iterdir` is the file system's. */
    method IterDir(d: Node) returns (names: seq<string>)
      requires d.Dir?
      ensures multiset(names) == multiset(d.kids.Keys)
    {
      var left := d.kids.Keys;
      names := [];
      while left != {}
        invariant left <= d.kids.Keys
        invariant multiset(names) + multiset(left) == multiset(d.kids.Keys)
        decreases left
      {
        var k :| k in left;
        assert multiset(left - {k}) == multiset(left) - multiset{k};
        names, left := names + [k], left - {k};
      }
    }

    method Visit(d: Node, prefix: seq<string>) returns (error: Option<Error>)
      requires d.Dir? && Within()
      modifies this
      ensures error.None? <==>
              Ordinary(d) && old(|entries|) + DirCount(d) <= maxEntries && old(total) + DirBytes(d) <= maxBytes
      ensures error.None? ==>
              Within() && entries == old(entries) + DirRows(d, prefix, h) && total == old(total) + DirBytes(d)
                              && |entries| == old(|entries|) + DirCount(d)
      ensures error == Some(EntryBudget) ==> old(|entries|) + DirCount(d) > maxEntries
      ensures error == Some(ByteBudget) ==> old(total) + DirBytes(d) > maxBytes
      ensures error == Some(SpecialFile) ==> !Ordinary(d)
      decreases d, 1
    {
      var listed := IterDir(d);
      var names := Sort(listed);
      SortPermutation(listed, Listing(d.kids.Keys));
      assert names == Order(d.kids.Keys);
      error := VisitNames(d, names, prefix);
    }

    method VisitNames(d: Node, names: seq<string>, prefix: seq<string>) returns (error: Option<Error>)
      requires d.Dir? && Within() && forall k :: k in names ==> k in d.kids
      modifies this
      ensures error.None? <==>
              NamesOrdinary(d, names) && old(|entries|) + NameCount(d, names) <= maxEntries
                && old(total) + NameBytes(d, names) <= maxBytes
      ensures error.None? && Ordinary(d) ==>
              Within() && entries == old(entries) + NameRows(d, names, prefix, h)
                && total == old(total) + NameBytes(d, names)
              && |entries| == old(|entries|) + NameCount(d, names)
      ensures error == Some(EntryBudget) ==> old(|entries|) + NameCount(d, names) > maxEntries
      ensures error == Some(ByteBudget) ==> old(total) + NameBytes(d, names) > maxBytes
      ensures error == Some(SpecialFile) ==> !NamesOrdinary(d, names)
      decreases d, 0
    {
      error := None;
      ghost var before, bytes := entries, total;
      assert names[0..] == names;
      for i := 0 to |names|
        invariant Within() && error.None?
        invariant forall k :: k in names[..i] ==> !d.kids[k].Special? && Ordinary(d.kids[k])
        invariant |entries| + NameCount(d, names[i..]) == |before| + NameCount(d, names)
        invariant total + NameBytes(d, names[i..]) == bytes + NameBytes(d, names)
        invariant Ordinary(d) ==> entries + NameRows(d, names[i..], prefix, h) == before + NameRows(d, names, prefix, h)
      {
        assert names[i..][0] == names[i] && names[i..][1..] == names[i + 1..];
        assert names[i] in names;
        error := VisitEntry(d.kids[names[i]], prefix + [names[i]]);
        if error.Some? {
          return;
        }
      }
    }

    /** One turn of the loop. */
    method VisitEntry(n: Node, path: seq<string>) returns (error: Option<Error>)
      requires Within()
      modifies this
      ensures error.None? <==>
              !n.Special? && Ordinary(n) && old(|entries|) + EntryCount(n) <= maxEntries
                && old(total) + EntryBytes(n) <= maxBytes
      ensures error.None? ==>
              Within() && entries == old(entries) + EntryRows(n, path, h) && total == old(total) + EntryBytes(n)
                              && |entries| == old(|entries|) + EntryCount(n)
      ensures error == Some(EntryBudget) ==> old(|entries|) + EntryCount(n) > maxEntries
      ensures error == Some(ByteBudget) ==> old(total) + EntryBytes(n) > maxBytes
      ensures error == Some(SpecialFile) ==> n.Special? || !Ordinary(n)
      decreases n, 2
    {
      EntryParts(n, path, h);
      if |entries| >= maxEntries {
        return Some(EntryBudget);
      }
      if n.Special? {
        return Some(SpecialFile);
      }
      if n.File? {
        total := total + |n.content|;
        if total > maxBytes {
          return Some(ByteBudget);
        }
      }
      entries := entries + [RowOf(n, path, h)];
      if n.Dir? {
        Concat(old(entries), [RowOf(n, path, h)], if Ordinary(n) then DirRows(n, path, h) else []);
        error := Visit(n, path);
      } else {
        error := None;
      }
    }
  }
}
