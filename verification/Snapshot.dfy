/** What an inventory says about its tree, and the verified copy that rests on comparing two inventories. */
module Snapshot {
  import opened Text
  import opened Assoc
  import opened Inventory

  // ----------------------------------------------------- rows and positions

  /** The node reached by following names. */
  function NodeAt(n: Node, p: seq<string>): Option<Node>
    decreases p
  {
    if p == [] then Some(n)
    else if n.Dir? && p[0] in n.kids then NodeAt(n.kids[p[0]], p[1..])
    else None
  }

  lemma {:induction false} NodeAtKid(n: Node, k: string, q: seq<string>)
    requires n.Dir?
    ensures NodeAt(n, [k] + q) == if k in n.kids then NodeAt(n.kids[k], q) else None
    ensures NodeAt(n, [k]) == if k in n.kids then Some(n.kids[k]) else None
  {
    assert ([k] + q)[1..] == q && [k][1..] == [];
  }

  lemma {:induction false} EntryUnfold(n: Node, path: seq<string>, h: Digest)
    requires !n.Special? && Ordinary(n)
    ensures EntryRows(n, path, h) == [RowOf(n, path, h)] + if n.Dir? then DirRows(n, path, h) else []
    ensures n.Dir? ==> DirRows(n, path, h) == NameRows(n, Order(n.kids.Keys), path, h)
  {
  }

  /** `r` is the row of the node `p` below `d`. */
  ghost predicate RowFor(r: Row, d: Node, p: seq<string>, prefix: seq<string>, h: Digest) {
    && p != [] && NodeAt(d, p).Some? && !NodeAt(d, p).value.Special?
    && r == RowOf(NodeAt(d, p).value, prefix + p, h)
  }

  /** The rows of the named entries are those of the nodes below them. */
  lemma {:induction false} InNameRows(r: Row, d: Node, names: seq<string>, prefix: seq<string>, h: Digest)
    requires d.Dir? && Ordinary(d) && forall k :: k in names ==> k in d.kids
    ensures r in NameRows(d, names, prefix, h) <==> exists p :: p != [] && p[0] in names && RowFor(r, d, p, prefix, h)
    decreases d, 0, |names|
  {
    if names != [] {
      var k := names[0];
      InEntryRows(r, d.kids[k], prefix + [k], h);
      InNameRows(r, d, names[1..], prefix, h);
      if r in EntryRows(d.kids[k], prefix + [k], h) {
        var q :| EntryRowFor(r, d.kids[k], q, prefix + [k], h);
        RowBelow(r, d, k, q, prefix, h);
        assert ([k] + q)[0] in names;
      }
      if p :| p != [] && p[0] in names && RowFor(r, d, p, prefix, h) {
        if p[0] == k {
          assert p == [k] + p[1..];
          RowBelow(r, d, k, p[1..], prefix, h);
        } else {
          assert p[0] in names[1..];
        }
      }
    }
  }

  lemma {:induction false} RowBelow(r: Row, d: Node, k: string, q: seq<string>, prefix: seq<string>, h: Digest)
    requires d.Dir? && k in d.kids
    ensures RowFor(r, d, [k] + q, prefix, h) <==> EntryRowFor(r, d.kids[k], q, prefix + [k], h)
  {
    NodeAtKid(d, k, q);
    assert prefix + ([k] + q) == prefix + [k] + q;
  }

  ghost predicate EntryRowFor(r: Row, n: Node, q: seq<string>, path: seq<string>, h: Digest) {
    && NodeAt(n, q).Some? && !NodeAt(n, q).value.Special?
    && r == RowOf(NodeAt(n, q).value, path + q, h)
  }

  lemma {:induction false} InEntryRows(r: Row, n: Node, path: seq<string>, h: Digest)
    requires !n.Special? && Ordinary(n)
    ensures r in EntryRows(n, path, h) <==> exists q :: EntryRowFor(r, n, q, path, h)
    decreases n, 2
  {
    assert path + [] == path;
    assert r == RowOf(n, path, h) <==> EntryRowFor(r, n, [], path, h);
    if n.Dir? {
      InDirRows(r, n, path, h);
      assert forall q :: q != [] ==> (EntryRowFor(r, n, q, path, h) <==> RowFor(r, n, q, path, h));
    }
  }

  /** The inventory has a row for a path exactly when there is a node, and it is the row of that node. */
  lemma {:induction false} InDirRows(r: Row, d: Node, prefix: seq<string>, h: Digest)
    requires d.Dir? && Ordinary(d)
    ensures r in DirRows(d, prefix, h) <==> exists p :: RowFor(r, d, p, prefix, h)
    decreases d, 1
  {
    InNameRows(r, d, Order(d.kids.Keys), prefix, h);
    if p :| RowFor(r, d, p, prefix, h) {
      assert p[0] in Order(d.kids.Keys);
    }
  }

  // ------------------------------------------------------ order of the rows

  /** Paths are distinct, and a row below the top level comes after the row of its parent directory. */
  ghost predicate WellOrdered(rows: seq<Row>, depth: nat) {
    DistinctPaths(rows) && ParentsListed(rows, depth)
  }

  ghost predicate ParentsListed(rows: seq<Row>, depth: nat) {
    forall j :: 0 <= j < |rows| && |rows[j].path| > depth + 1 ==> ParentBefore(rows, j)
  }

  ghost predicate DistinctPaths(rows: seq<Row>) {
    forall i, j :: 0 <= i < j < |rows| ==> rows[i].path != rows[j].path
  }

  ghost predicate ParentBefore(rows: seq<Row>, j: nat)
    requires j < |rows| && |rows[j].path| > 0
  {
    exists i :: 0 <= i < j && rows[i].kind.DirRow? && rows[i].path == rows[j].path[..|rows[j].path| - 1]
  }

  lemma {:induction false} WellOrderedConcat(a: seq<Row>, b: seq<Row>, depth: nat)
    requires WellOrdered(a, depth) && WellOrdered(b, depth)
    requires forall i, j :: 0 <= i < |a| && 0 <= j < |b| ==> a[i].path != b[j].path
    ensures WellOrdered(a + b, depth)
  {
    DistinctConcat(a, b);
    ParentsConcat(a, b, depth);
  }

  lemma {:induction false} ParentsConcat(a: seq<Row>, b: seq<Row>, depth: nat)
    requires ParentsListed(a, depth) && ParentsListed(b, depth)
    ensures ParentsListed(a + b, depth)
  {
    forall j | 0 <= j < |a + b| && |(a + b)[j].path| > depth + 1 ensures ParentBefore(a + b, j) {
      ParentInEither(a, b, depth, j);
    }
  }

  lemma {:induction false} ParentInEither(a: seq<Row>, b: seq<Row>, depth: nat, j: nat)
    requires ParentsListed(a, depth) && ParentsListed(b, depth) && j < |a + b| && |(a + b)[j].path| > depth + 1
    ensures ParentBefore(a + b, j)
  {
    if j < |a| {
      assert (a + b)[j] == a[j] && ParentBefore(a, j);
      ParentLeft(a, b, j);
    } else {
      var k := j - |a|;
      assert (a + b)[j] == b[k] && ParentBefore(b, k);
      ParentRight(a, b, k);
      assert |a| + k == j;
    }
  }

  lemma {:induction false} DistinctConcat(a: seq<Row>, b: seq<Row>)
    requires DistinctPaths(a) && DistinctPaths(b)
    requires forall i, j :: 0 <= i < |a| && 0 <= j < |b| ==> a[i].path != b[j].path
    ensures DistinctPaths(a + b)
  {
  }

  lemma {:induction false} ParentLeft(a: seq<Row>, b: seq<Row>, j: nat)
    requires j < |a| && |a[j].path| > 0 && ParentBefore(a, j)
    ensures ParentBefore(a + b, j)
  {
    var i :| 0 <= i < j && a[i].kind.DirRow? && a[i].path == a[j].path[..|a[j].path| - 1];
    assert (a + b)[i] == a[i] && (a + b)[j] == a[j];
  }

  lemma {:induction false} ParentRight(a: seq<Row>, b: seq<Row>, j: nat)
    requires j < |b| && |b[j].path| > 0 && ParentBefore(b, j)
    ensures ParentBefore(a + b, |a| + j)
  {
    var i :| 0 <= i < j && b[i].kind.DirRow? && b[i].path == b[j].path[..|b[j].path| - 1];
    assert (a + b)[|a| + i] == b[i] && (a + b)[|a| + j] == b[j];
  }

  lemma {:induction false} EntryRowName(r: Row, n: Node, k: string, prefix: seq<string>, h: Digest)
    requires !n.Special? && Ordinary(n) && r in EntryRows(n, prefix + [k], h)
    ensures |r.path| > |prefix| && r.path[|prefix|] == k
  {
    InEntryRows(r, n, prefix + [k], h);
    var q :| EntryRowFor(r, n, q, prefix + [k], h);
    assert r.path == (prefix + [k]) + q;
  }

  lemma {:induction false} NameRowName(r: Row, d: Node, names: seq<string>, prefix: seq<string>, h: Digest)
    requires d.Dir? && Ordinary(d) && (forall k :: k in names ==> k in d.kids) && r in NameRows(d, names, prefix, h)
    ensures |r.path| > |prefix| && r.path[|prefix|] in names
  {
    InNameRows(r, d, names, prefix, h);
    var p :| p != [] && p[0] in names && RowFor(r, d, p, prefix, h);
    assert r.path == prefix + p;
  }

  lemma {:induction false} NameRowsOrdered(d: Node, names: seq<string>, prefix: seq<string>, h: Digest)
    requires d.Dir? && Ordinary(d) && Distinct(names) && forall k :: k in names ==> k in d.kids
    ensures WellOrdered(NameRows(d, names, prefix, h), |prefix|)
    decreases d, 0, |names|
  {
    if names != [] {
      var k := names[0];
      var a, b := EntryRows(d.kids[k], prefix + [k], h), NameRows(d, names[1..], prefix, h);
      EntryRowsOrdered(d.kids[k], prefix + [k], h);
      NameRowsOrdered(d, names[1..], prefix, h);
      forall i, j | 0 <= i < |a| && 0 <= j < |b| ensures a[i].path != b[j].path {
        EntryRowName(a[i], d.kids[k], k, prefix, h);
        NameRowName(b[j], d, names[1..], prefix, h);
      }
      WellOrderedConcat(a, b, |prefix|);
    }
  }

  lemma {:induction false} BelowDirectory(r: Row, n: Node, path: seq<string>, h: Digest)
    requires n.Dir? && Ordinary(n) && r in DirRows(n, path, h)
    ensures |r.path| > |path| && r.path[..|path|] == path
  {
    InDirRows(r, n, path, h);
    var p :| RowFor(r, n, p, path, h);
    assert r.path == path + p;
  }

  lemma {:induction false} EntryRowsOrdered(n: Node, path: seq<string>, h: Digest)
    requires !n.Special? && Ordinary(n) && path != []
    ensures WellOrdered(EntryRows(n, path, h), |path| - 1)
    decreases n, 2
  {
    EntryUnfold(n, path, h);
    if n.Dir? {
      var rest := DirRows(n, path, h);
      NameRowsOrdered(n, Order(n.kids.Keys), path, h);
      forall j | 0 <= j < |rest| ensures |rest[j].path| > |path| && rest[j].path[..|path|] == path {
        BelowDirectory(rest[j], n, path, h);
      }
      DirectoryFirst(RowOf(n, path, h), rest);
    }
  }

  lemma {:induction false} ParentInFront(top: Row, rest: seq<Row>, j: nat)
    requires top.kind.DirRow? && top.path != [] && WellOrdered(rest, |top.path|)
    requires j < |rest| && |rest[j].path| > |top.path| && rest[j].path[..|top.path|] == top.path
    ensures ParentBefore([top] + rest, j + 1)
  {
    var rows := [top] + rest;
    if |rest[j].path| == |top.path| + 1 {
      assert rows[0].path == rows[j + 1].path[..|rows[j + 1].path| - 1];
    } else {
      assert ParentBefore(rest, j);
      var i :| 0 <= i < j && rest[i].kind.DirRow? && rest[i].path == rest[j].path[..|rest[j].path| - 1];
      assert rows[i + 1] == rest[i];
    }
  }

  /** A directory's row in front of its contents. */
  lemma {:induction false} DirectoryFirst(top: Row, rest: seq<Row>)
    requires top.kind.DirRow? && top.path != [] && WellOrdered(rest, |top.path|)
    requires forall j :: 0 <= j < |rest| ==> |rest[j].path| > |top.path| && rest[j].path[..|top.path|] == top.path
    ensures WellOrdered([top] + rest, |top.path| - 1)
  {
    var rows := [top] + rest;
    DistinctConcat([top], rest);
    forall j | 0 <= j < |rows| && |rows[j].path| > |top.path| ensures ParentBefore(rows, j) {
      assert rows[j] == rest[j - 1];
      ParentInFront(top, rest, j - 1);
    }
  }

  /** Each path is listed once, parents before what they contain. */
  lemma {:induction false} DirRowsOrdered(d: Node, h: Digest)
    requires d.Dir? && Ordinary(d)
    ensures WellOrdered(DirRows(d, [], h), 0)
  {
    NameRowsOrdered(d, Order(d.kids.Keys), [], h);
  }

  // ------------------------------------------------------------ sorted rows

  /** A directory comes before what is below it, and of two names the smaller one with all that is below it. */
  ghost predicate Before(p: seq<string>, q: seq<string>)
    decreases |p|
  {
    q != [] && (p == [] || if p[0] == q[0] then Before(p[1..], q[1..]) else Le(p[0], q[0]))
  }

  lemma {:induction false} BeforeBelow(prefix: seq<string>, p: seq<string>, q: seq<string>)
    ensures Before(prefix + p, prefix + q) <==> Before(p, q)
    decreases |prefix|
  {
    if prefix == [] {
      assert prefix + p == p && prefix + q == q;
    } else {
      assert (prefix + p)[1..] == prefix[1..] + p && (prefix + q)[1..] == prefix[1..] + q;
      BeforeBelow(prefix[1..], p, q);
    }
  }

  ghost predicate SortedRows(rows: seq<Row>) {
    forall i, j :: 0 <= i < j < |rows| ==> Before(rows[i].path, rows[j].path)
  }

  lemma {:induction false} SortedConcat(a: seq<Row>, b: seq<Row>)
    requires SortedRows(a) && SortedRows(b)
    requires forall i, j :: 0 <= i < |a| && 0 <= j < |b| ==> Before(a[i].path, b[j].path)
    ensures SortedRows(a + b)
  {
  }

  lemma {:induction false} RowPath(r: Row, n: Node, q: seq<string>, path: seq<string>, h: Digest)
    requires EntryRowFor(r, n, q, path, h)
    ensures r.path == path + q
  {
  }

  /** The row lies below `prefix`, under the name `k`. */
  lemma {:induction false} BelowName(r: Row, n: Node, k: string, prefix: seq<string>, h: Digest)
    returns (q: seq<string>)
    requires !n.Special? && Ordinary(n) && r in EntryRows(n, prefix + [k], h)
    ensures r.path == prefix + ([k] + q)
  {
    InEntryRows(r, n, prefix + [k], h);
    q :| EntryRowFor(r, n, q, prefix + [k], h);
    RowPath(r, n, q, prefix + [k], h);
    Concat(prefix, [k], q);
  }

  lemma {:induction false} BelowNames(r: Row, d: Node, names: seq<string>, prefix: seq<string>, h: Digest)
    returns (k: string, q: seq<string>)
    requires d.Dir? && Ordinary(d) && (forall k :: k in names ==> k in d.kids) && r in NameRows(d, names, prefix, h)
    ensures k in names && r.path == prefix + ([k] + q)
  {
    InNameRows(r, d, names, prefix, h);
    var p :| p != [] && p[0] in names && RowFor(r, d, p, prefix, h);
    k, q := p[0], p[1..];
    assert p == [k] + q;
  }

  lemma {:induction false} NamesApart(prefix: seq<string>, k: string, p: seq<string>, l: string, q: seq<string>)
    requires Le(k, l) && k != l
    ensures Before(prefix + ([k] + p), prefix + ([l] + q))
  {
    BeforeBelow(prefix, [k] + p, [l] + q);
  }

  lemma {:induction false} NameRowsSorted(d: Node, names: seq<string>, prefix: seq<string>, h: Digest)
    requires d.Dir? && Ordinary(d) && Distinct(names) && IsSorted(names) && forall k :: k in names ==> k in d.kids
    ensures SortedRows(NameRows(d, names, prefix, h))
    decreases d, 0, |names|
  {
    if names != [] {
      var k, rest := names[0], names[1..];
      var a, b := EntryRows(d.kids[k], prefix + [k], h), NameRows(d, rest, prefix, h);
      EntryRowsSorted(d.kids[k], prefix + [k], h);
      NameRowsSorted(d, rest, prefix, h);
      forall i, j | 0 <= i < |a| && 0 <= j < |b| ensures Before(a[i].path, b[j].path) {
        var p := BelowName(a[i], d.kids[k], k, prefix, h);
        var l, q := BelowNames(b[j], d, rest, prefix, h);
        var m :| 0 <= m < |rest| && rest[m] == l;
        assert names[0] != names[m + 1] && Le(names[0], names[m + 1]);
        NamesApart(prefix, k, p, l, q);
      }
      SortedConcat(a, b);
    }
  }

  lemma {:induction false} TopBefore(n: Node, path: seq<string>, h: Digest, r: Row)
    requires n.Dir? && Ordinary(n) && r in DirRows(n, path, h)
    ensures Before(path, r.path)
  {
    InDirRows(r, n, path, h);
    var p :| RowFor(r, n, p, path, h);
    assert path + [] == path;
    BeforeBelow(path, [], p);
  }

  lemma {:induction false} EntryRowsSorted(n: Node, path: seq<string>, h: Digest)
    requires !n.Special? && Ordinary(n)
    ensures SortedRows(EntryRows(n, path, h))
    decreases n, 2
  {
    EntryUnfold(n, path, h);
    if n.Dir? {
      var top, rest := [RowOf(n, path, h)], DirRows(n, path, h);
      OrderSorted(n.kids.Keys);
      NameRowsSorted(n, Order(n.kids.Keys), path, h);
      forall i, j | 0 <= i < |top| && 0 <= j < |rest| ensures Before(top[i].path, rest[j].path) {
        TopBefore(n, path, h, rest[j]);
      }
      SortedConcat(top, rest);
    }
  }

  lemma {:induction false} OrderSorted(s: set<string>)
    ensures IsSorted(Order(s))
  {
    SortSorts(Listing(s));
  }

  /** The rows are sorted: name by name in code unit order, each directory followed by what is below it. */
  lemma {:induction false} DirRowsSorted(d: Node, h: Digest)
    requires d.Dir? && Ordinary(d)
    ensures SortedRows(DirRows(d, [], h))
  {
    OrderSorted(d.kids.Keys);
    NameRowsSorted(d, Order(d.kids.Keys), [], h);
  }

  // ----------------------------------------------------------------- sizes

  function Sizes(rows: seq<Row>): nat {
    if rows == [] then 0 else (if rows[0].kind.FileRow? then rows[0].kind.size else 0) + Sizes(rows[1..])
  }

  lemma {:induction false} SizesConcat(a: seq<Row>, b: seq<Row>)
    ensures Sizes(a + b) == Sizes(a) + Sizes(b)
  {
    if a == [] {
      assert a + b == b;
    } else {
      assert (a + b)[1..] == a[1..] + b;
      SizesConcat(a[1..], b);
    }
  }

  lemma {:induction false} NameSizes(d: Node, names: seq<string>, prefix: seq<string>, h: Digest)
    requires d.Dir? && Ordinary(d) && forall k :: k in names ==> k in d.kids
    ensures Sizes(NameRows(d, names, prefix, h)) == NameBytes(d, names)
    ensures |NameRows(d, names, prefix, h)| == NameCount(d, names)
    decreases d, 0, |names|
  {
    if names != [] {
      var n, path := d.kids[names[0]], prefix + [names[0]];
      EntrySizes(n, path, h);
      NameSizes(d, names[1..], prefix, h);
      SizesConcat(EntryRows(n, path, h), NameRows(d, names[1..], prefix, h));
    }
  }

  lemma {:induction false} EntrySizes(n: Node, path: seq<string>, h: Digest)
    requires !n.Special? && Ordinary(n)
    ensures Sizes(EntryRows(n, path, h)) == EntryBytes(n) && |EntryRows(n, path, h)| == EntryCount(n)
    decreases n, 2
  {
    EntryUnfold(n, path, h);
    var top := [RowOf(n, path, h)];
    assert top[1..] == [];
    if n.Dir? {
      NameSizes(n, Order(n.kids.Keys), path, h);
      SizesConcat(top, DirRows(n, path, h));
      assert EntryBytes(n) == DirBytes(n) == NameBytes(n, Order(n.kids.Keys));
      assert EntryCount(n) == 1 + DirCount(n) && DirCount(n) == NameCount(n, Order(n.kids.Keys));
    }
  }

  /** The sizes listed add up to the bytes counted, and there is one row for each entry counted. */
  lemma {:induction false} DirSizes(d: Node, h: Digest)
    requires d.Dir? && Ordinary(d)
    ensures Sizes(DirRows(d, [], h)) == DirBytes(d) && |DirRows(d, [], h)| == DirCount(d)
  {
    NameSizes(d, Order(d.kids.Keys), [], h);
  }

  // -------------------------------------------- the inventory fixes the tree

  /** Equal trees, file contents up to size and digest. */
  ghost predicate SameNode(a: Node, b: Node, h: Digest)
    decreases a
  {
    match a
    case File(m, c) => b.File? && b.mode == m && |b.content| == |c| && h(b.content) == h(c)
    case Link(m, t) => b == a
    case Dir(m, _) => b.Dir? && b.mode == m && SameKids(a, b, h)
    case Special(_) => b.Special?
  }

  /** The same below the two directories, whatever their own modes. */
  ghost predicate SameKids(a: Node, b: Node, h: Digest)
    requires a.Dir? && b.Dir?
    decreases a, 0
  {
    a.kids.Keys == b.kids.Keys && forall k :: k in a.kids ==> SameNode(a.kids[k], b.kids[k], h)
  }

  /** The row data at a path, if there is a node. */
  ghost function DataAt(n: Node, p: seq<string>, h: Digest): Option<Row> {
    if NodeAt(n, p).Some? && !NodeAt(n, p).value.Special? then Some(RowOf(NodeAt(n, p).value, p, h)) else None
  }

  lemma {:induction false} RowOfData(r: Row, d: Node, p: seq<string>, h: Digest)
    requires p != []
    ensures RowFor(r, d, p, [], h) <==> DataAt(d, p, h) == Some(r)
    ensures RowFor(r, d, p, [], h) ==> r.path == p
  {
    assert [] + p == p;
  }

  lemma {:induction false} RowsGiveData(a: Node, b: Node, h: Digest, p: seq<string>)
    requires a.Dir? && b.Dir? && Ordinary(a) && Ordinary(b) && p != []
    requires DirRows(a, [], h) == DirRows(b, [], h)
    ensures DataAt(a, p, h).Some? ==> DataAt(b, p, h) == DataAt(a, p, h)
  {
    if DataAt(a, p, h).Some? {
      var r := DataAt(a, p, h).value;
      RowOfData(r, a, p, h);
      InDirRows(r, a, [], h);
      InDirRows(r, b, [], h);
      var q :| RowFor(r, b, q, [], h);
      RowOfData(r, b, q, h);
    }
  }

  /** Two directories with the same data at every path are the same. */
  lemma {:induction false} DataGivesSame(a: Node, b: Node, h: Digest)
    requires a.Dir? && b.Dir? && Ordinary(a) && Ordinary(b)
    requires forall p :: p != [] ==> DataAt(a, p, h) == DataAt(b, p, h)
    ensures SameKids(a, b, h)
    decreases a
  {
    forall k ensures k in a.kids <==> k in b.kids
      ensures k in a.kids && k in b.kids ==> RowOf(a.kids[k], [k], h) == RowOf(b.kids[k], [k], h)
    {
      NodeAtKid(a, k, []);
      NodeAtKid(b, k, []);
      assert DataAt(a, [k], h) == DataAt(b, [k], h);
    }
    forall k | k in a.kids ensures SameNode(a.kids[k], b.kids[k], h) {
      if a.kids[k].Dir? {
        forall q: seq<string> | q != [] ensures DataAt(a.kids[k], q, h) == DataAt(b.kids[k], q, h) {
          NodeAtKid(a, k, q);
          NodeAtKid(b, k, q);
          assert DataAt(a, [k] + q, h) == DataAt(b, [k] + q, h);
        }
        DataGivesSame(a.kids[k], b.kids[k], h);
      }
    }
  }

  lemma {:induction false} SameGivesRows(a: Node, b: Node, names: seq<string>, prefix: seq<string>, h: Digest)
    requires a.Dir? && b.Dir? && Ordinary(a) && Ordinary(b) && SameKids(a, b, h)
    requires forall k :: k in names ==> k in a.kids
    ensures NameRows(a, names, prefix, h) == NameRows(b, names, prefix, h)
    decreases a, 0, |names|
  {
    if names != [] {
      var m, n, path := a.kids[names[0]], b.kids[names[0]], prefix + [names[0]];
      assert SameNode(m, n, h);
      EntryUnfold(m, path, h);
      EntryUnfold(n, path, h);
      if m.Dir? {
        SameGivesRows(m, n, Order(m.kids.Keys), path, h);
      }
      SameGivesRows(a, b, names[1..], prefix, h);
    }
  }

  /** Equal inventories are exactly equal trees: names, modes, link text, and contents up to digest. */
  lemma {:induction false} InventoryFixesTree(a: Node, b: Node, h: Digest)
    requires a.Dir? && b.Dir? && Ordinary(a) && Ordinary(b)
    ensures DirRows(a, [], h) == DirRows(b, [], h) <==> SameKids(a, b, h)
  {
    if DirRows(a, [], h) == DirRows(b, [], h) {
      forall p: seq<string> | p != [] ensures DataAt(a, p, h) == DataAt(b, p, h) {
        RowsGiveData(a, b, h, p);
        RowsGiveData(b, a, h, p);
      }
      DataGivesSame(a, b, h);
    }
    if SameKids(a, b, h) {
      SameGivesRows(a, b, Order(a.kids.Keys), [], h);
    }
  }

  ghost predicate CollisionFree(h: Digest) {
    forall c, d :: h(c) == h(d) ==> c == d
  }

  /** Without digest collisions the trees below the two directories are identical. */
  lemma {:induction false} SameIsEqual(a: Node, b: Node, h: Digest)
    requires a.Dir? && b.Dir? && Ordinary(a) && Ordinary(b) && CollisionFree(h)
    ensures SameKids(a, b, h) <==> a.kids == b.kids
    decreases a
  {
    if SameKids(a, b, h) {
      forall k | k in a.kids ensures a.kids[k] == b.kids[k] {
        assert SameNode(a.kids[k], b.kids[k], h);
        if a.kids[k].Dir? {
          SameIsEqual(a.kids[k], b.kids[k], h);
        }
      }
      assert a.kids == b.kids;
    }
    if a.kids == b.kids {
      forall k | k in a.kids ensures SameNode(a.kids[k], b.kids[k], h) {
        if a.kids[k].Dir? {
          SameIsEqual(a.kids[k], b.kids[k], h);
        }
      }
    }
  }

  // ----------------------------------------------------------------- preserve

  datatype Preserved =
    | Verified(entries: seq<Row>, bytes: nat)
    | InsideSource | DestinationExists | NotListed(error: Error) | NoSpace | Changed

  const MAX_ENTRIES: nat := 100_000
  const HEADROOM: nat := 64 * 1024 * 1024

  function Larger(a: nat, b: nat): nat { if a < b then b else a }

  method List(d: Node, maxBytes: nat, h: Digest) returns (rows: seq<Row>, error: Option<Error>)
    requires d.Dir?
    ensures error.None? <==> Ordinary(d) && DirCount(d) <= MAX_ENTRIES && DirBytes(d) <= maxBytes
    ensures error.None? ==> rows == DirRows(d, [], h)
  {
    var i := new Lister(maxBytes, MAX_ENTRIES, h);
    error := i.Visit(d, []);
    rows := i.entries;
  }

  method SumSizes(rows: seq<Row>) returns (n: nat)
    ensures n == Sizes(rows)
  {
    n := 0;
    assert rows[0..] == rows;
    for i := 0 to |rows|
      invariant n + Sizes(rows[i..]) == Sizes(rows)
    {
      assert rows[i..][0] == rows[i] && rows[i..][1..] == rows[i + 1..];
      n := n + if rows[i].kind.FileRow? then rows[i].kind.size else 0;
    }
  }

  /**
   * `preserve`, given the source as it was before and after the copy, the copied tree, and the free space.
   */
  method Preserve(before: Node, copied: Node, after: Node, inside: bool, exists_: bool, free: nat, maxBytes: nat,
                  h: Digest) returns (r: Preserved)
    requires before.Dir? && copied.Dir? && after.Dir?
    ensures r.Verified? ==> SameKids(before, copied, h) && SameKids(before, after, h)
    ensures r.Verified? ==>
            Ordinary(copied) && r.entries == DirRows(copied, [], h) && r.bytes == DirBytes(copied) == DirBytes(before)
    ensures r.Verified? && CollisionFree(h) ==> copied.kids == before.kids == after.kids
    ensures r.Verified? <==>
            && !inside && !exists_
            && Ordinary(before) && DirCount(before) <= 100_000 && DirBytes(before) <= maxBytes
            && free >= DirBytes(before) + 64 * 1024 * 1024 && free >= DirBytes(before) + DirCount(before) * 8192
            && Ordinary(copied) && Ordinary(after) && SameKids(before, copied, h) && SameKids(before, after, h)
  {
    if inside {
      return InsideSource;
    }
    if exists_ {
      return DestinationExists;
    }
    var first, e0 := List(before, maxBytes, h);
    if e0.Some? {
      return NotListed(e0.value);
    }
    DirSizes(before, h);
    var required := SumSizes(first);
    if free < required + Larger(HEADROOM, |first| * 8192) {
      return NoSpace;
    }
    if Ordinary(copied) && SameKids(before, copied, h) { SameBudget(before, copied, h); }
    if Ordinary(after) && SameKids(before, after, h) { SameBudget(before, after, h); }
    var second, e1 := List(copied, maxBytes, h);
    if e1.Some? {
      return NotListed(e1.value);
    }
    var third, e2 := List(after, maxBytes, h);
    if e2.Some? {
      return NotListed(e2.value);
    }
    InventoryFixesTree(before, copied, h);
    InventoryFixesTree(before, after, h);
    if first != third || first != second {
      return Changed;
    }
    DirSizes(copied, h);
    if CollisionFree(h) {
      SameIsEqual(before, copied, h);
      SameIsEqual(before, after, h);
    }
    var bytes := SumSizes(second);
    r := Verified(second, bytes);
  }

  /** Trees that are the same need the same budget. */
  lemma {:induction false} SameBudget(a: Node, b: Node, h: Digest)
    requires a.Dir? && b.Dir? && Ordinary(a) && Ordinary(b) && SameKids(a, b, h)
    ensures DirCount(a) == DirCount(b) && DirBytes(a) == DirBytes(b)
  {
    InventoryFixesTree(a, b, h);
    DirSizes(a, h);
    DirSizes(b, h);
  }
}
