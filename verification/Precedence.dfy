/** What the declared precedences mean for a row of operands and operators. */
module Precedence {
  import opened Assoc
  import opened Expression

  // ---------------------------------------------------------------- five classes

  /**
   * From the loosest class to the tightest: `||`; `&&`; the comparisons; `+` and `-`; `*` and `/`. The class of `a`
   * is that of `b` or a tighter one.
   */
  predicate AsTight(a: Op, b: Op) {
    match b
    case Or => true
    case And => a != Or
    case Eq | Ne | Lt | Le | Gt | Ge => a != Or && a != And
    case Plus | Minus => a in {Plus, Minus, Times, Div}
    case Times | Div => a in {Times, Div}
  }

  lemma {:induction false} ClassExact(a: Op, b: Op)
    ensures OpLevel(a) >= OpLevel(b) <==> AsTight(a, b)
  {
  }

  // --------------------------------------------------------- operands and chains

  /** What stands between binary operators: a literal, name, call, parenthesis or prefix operation. */
  ghost predicate IsOperand(e: Expr) {
    !e.Binary? && Respects(e)
  }

  ghost predicate AreOperands(es: seq<Expr>) {
    forall i :: 0 <= i < |es| ==> IsOperand(es[i])
  }

  /** Operands with operators between them. */
  ghost function Row(es: seq<Expr>, ops: seq<Op>): seq<Token>
    requires |es| == |ops| + 1
  {
    if ops == [] then Tokens(es[0]) else Tokens(es[0]) + ([Sym(ops[0])] + Row(es[1..], ops[1..]))
  }

  /** The last operator of the loosest class in the row. */
  predicate Loosest(ops: seq<Op>, k: nat) {
    && k < |ops|
    && (forall j :: 0 <= j < |ops| ==> AsTight(ops[j], ops[k]))
    && (forall j :: k < j < |ops| ==> !AsTight(ops[k], ops[j]))
  }

  lemma {:induction false} SomeLoosest(ops: seq<Op>) returns (k: nat)
    requires ops != []
    ensures Loosest(ops, k)
  {
    if |ops| == 1 {
      k := 0;
    } else {
      var n := |ops| - 1;
      k := SomeLoosest(ops[..n]);
      if AsTight(ops[k], ops[n]) {
        TightTransitive(ops, k, n);
        k := n;
      } else {
        NotTighter(ops[k], ops[n]);
      }
    }
  }

  lemma {:induction false} NotTighter(a: Op, b: Op)
    requires !AsTight(a, b)
    ensures AsTight(b, a)
  {
    ClassExact(a, b);
    ClassExact(b, a);
  }

  lemma {:induction false} TightTransitive(ops: seq<Op>, k: nat, n: nat)
    requires n == |ops| - 1 && Loosest(ops[..n], k) && AsTight(ops[k], ops[n])
    ensures Loosest(ops, n)
  {
    forall j | 0 <= j < |ops| ensures AsTight(ops[j], ops[n]) {
      ClassExact(ops[k], ops[n]);
      ClassExact(ops[j], ops[n]);
      if j < n {
        assert AsTight(ops[..n][j], ops[..n][k]);
        ClassExact(ops[j], ops[k]);
      }
    }
  }

  /** A row falls apart at any of its operators. */
  lemma {:induction false} RowSplit(es: seq<Expr>, ops: seq<Op>, k: nat)
    requires |es| == |ops| + 1 && k < |ops|
    ensures Row(es, ops) == Row(es[..k + 1], ops[..k]) + ([Sym(ops[k])] + Row(es[k + 1..], ops[k + 1..]))
    decreases k
  {
    if k == 0 {
      assert es[..1][0] == es[0] && ops[..0] == [];
    } else {
      RowSplit(es[1..], ops[1..], k - 1);
      assert es[1..][..k] == es[..k + 1][1..] && ops[1..][..k - 1] == ops[..k][1..];
      assert es[1..][k..] == es[k + 1..] && ops[1..][k..] == ops[k + 1..];
      assert es[..k + 1][0] == es[0] && ops[..k][0] == ops[0] && ops[1..][k - 1] == ops[k];
      var left, right := Row(es[..k + 1][1..], ops[..k][1..]), [Sym(ops[k])] + Row(es[k + 1..], ops[k + 1..]);
      Concat([Sym(ops[0])], left, right);
      Concat(Tokens(es[0]), [Sym(ops[0])] + left, right);
    }
  }

  // ------------------------------------------------------------- the tree of a row

  /** `e` is the tree the precedences give to the row. */
  ghost predicate TreeOf(e: Expr, es: seq<Expr>, ops: seq<Op>)
    requires |es| == |ops| + 1
    decreases |ops|
  {
    if ops == [] then e == es[0]
    else e.Binary? && exists k: nat :: k < |ops| && SplitsAt(e, es, ops, k)
  }

  /** The operator at the top is the last one of the loosest class, and both sides are trees of their rows. */
  ghost predicate SplitsAt(e: Expr, es: seq<Expr>, ops: seq<Op>, k: nat)
    requires |es| == |ops| + 1 && e.Binary?
    decreases |ops|, 0
  {
    && k < |ops| && Loosest(ops, k) && e.op == ops[k]
    && TreeOf(e.left, es[..k + 1], ops[..k])
    && TreeOf(e.right, es[k + 1..], ops[k + 1..])
  }

  lemma {:induction false} TreeRespects(e: Expr, es: seq<Expr>, ops: seq<Op>)
    requires |es| == |ops| + 1 && AreOperands(es) && TreeOf(e, es, ops)
    ensures Respects(e) && Tokens(e) == Row(es, ops)
    ensures if ops == [] then !e.Binary? else e.Binary? && e.op in ops
    decreases |ops|
  {
    if ops != [] {
      var k: nat :| k < |ops| && SplitsAt(e, es, ops, k);
      TreeRespects(e.left, es[..k + 1], ops[..k]);
      TreeRespects(e.right, es[k + 1..], ops[k + 1..]);
      RowSplit(es, ops, k);
      if e.left.Binary? {
        var j :| 0 <= j < |ops[..k]| && ops[..k][j] == e.left.op;
        ClassExact(ops[j], ops[k]);
      }
      if e.right.Binary? {
        var j :| 0 <= j < |ops[k + 1..]| && ops[k + 1..][j] == e.right.op;
        ClassExact(ops[k], ops[j + k + 1]);
      }
      BinaryRespects(e.op, e.left, e.right);
    }
  }

  lemma {:induction false} SomeTree(es: seq<Expr>, ops: seq<Op>) returns (e: Expr)
    requires |es| == |ops| + 1
    ensures TreeOf(e, es, ops)
    decreases |ops|
  {
    if ops == [] {
      e := es[0];
    } else {
      var k := SomeLoosest(ops);
      var l := SomeTree(es[..k + 1], ops[..k]);
      var r := SomeTree(es[k + 1..], ops[k + 1..]);
      e := Binary(ops[k], l, r);
      assert SplitsAt(e, es, ops, k);
    }
  }

  // ------------------------------------------------------------------ main results

  /**
   * For every row of operands and operators, the one tree that is parsed has the last operator of the loosest class
   * at its top, and so on for the rows on its two sides.
   */
  lemma {:induction false} RowParses(es: seq<Expr>, ops: seq<Op>, e: Expr)
    requires |es| == |ops| + 1 && AreOperands(es)
    ensures Parse(Row(es, ops)) == Some(e) <==> TreeOf(e, es, ops)
  {
    var t := SomeTree(es, ops);
    TreeRespects(t, es, ops);
    ParseExact(Row(es, ops), t);
    if TreeOf(e, es, ops) {
      TreeRespects(e, es, ops);
      ParseExact(Row(es, ops), e);
    }
  }

  /** The operands and operators of a tree that obeys the precedences. */
  ghost function OperandsOf(e: Expr): seq<Expr> {
    if e.Binary? then OperandsOf(e.left) + OperandsOf(e.right) else [e]
  }

  ghost function OperatorsOf(e: Expr): (ops: seq<Op>)
    ensures |OperandsOf(e)| == |ops| + 1
  {
    if e.Binary? then OperatorsOf(e.left) + ([e.op] + OperatorsOf(e.right)) else []
  }

  lemma {:induction false} RowJoin(es: seq<Expr>, ops: seq<Op>, op: Op, fs: seq<Expr>, qs: seq<Op>)
    requires |es| == |ops| + 1 && |fs| == |qs| + 1
    ensures Row(es + fs, ops + ([op] + qs)) == Row(es, ops) + ([Sym(op)] + Row(fs, qs))
  {
    var k, all, syms := |ops|, es + fs, ops + ([op] + qs);
    RowSplit(all, syms, k);
    assert all[..k + 1] == es && all[k + 1..] == fs;
    assert syms[..k] == ops && syms[k + 1..] == qs && syms[k] == op;
  }

  /** Nothing else is parsed: every sentence is such a row. */
  lemma {:induction false} EveryTreeIsARow(e: Expr)
    requires Respects(e)
    ensures AreOperands(OperandsOf(e)) && Row(OperandsOf(e), OperatorsOf(e)) == Tokens(e)
    decreases e
  {
    if e.Binary? {
      EveryTreeIsARow(e.left);
      EveryTreeIsARow(e.right);
      RowJoin(OperandsOf(e.left), OperatorsOf(e.left), e.op, OperandsOf(e.right), OperatorsOf(e.right));
    }
  }

  lemma {:induction false} EverySentenceIsARow(ts: seq<Token>, e: Expr)
    requires Parse(ts) == Some(e)
    ensures AreOperands(OperandsOf(e)) && Row(OperandsOf(e), OperatorsOf(e)) == ts
    ensures TreeOf(e, OperandsOf(e), OperatorsOf(e))
  {
    ParseExact(ts, e);
    EveryTreeIsARow(e);
    RowParses(OperandsOf(e), OperatorsOf(e), e);
  }

  /** The tokens `a p b q c`. */
  ghost function Two(a: Expr, p: Op, b: Expr, q: Op, c: Expr): seq<Token> {
    Tokens(a) + ([Sym(p)] + (Tokens(b) + ([Sym(q)] + Tokens(c))))
  }

  /** `a p b q c` is `(a p b) q c` if and only if `p` is of the class of `q` or a tighter one, else `a p (b q c)`. */
  lemma {:induction false} TwoOperators(a: Expr, p: Op, b: Expr, q: Op, c: Expr)
    requires IsOperand(a) && IsOperand(b) && IsOperand(c)
    ensures Parse(Two(a, p, b, q, c)) == Some(Binary(q, Binary(p, a, b), c)) <==> AsTight(p, q)
    ensures Parse(Two(a, p, b, q, c)) == Some(Binary(p, a, Binary(q, b, c))) <==> !AsTight(p, q)
  {
    var l, r := Binary(q, Binary(p, a, b), c), Binary(p, a, Binary(q, b, c));
    BinaryJoin(p, a, b, [Sym(q)] + Tokens(c));
    assert Tokens(l) == Two(a, p, b, q, c) && Tokens(r) == Two(a, p, b, q, c);
    ClassExact(p, q);
    OperandLevel(a);
    OperandLevel(b);
    OperandLevel(c);
    BinaryRespects(p, a, b);
    BinaryRespects(q, b, c);
    BinaryRespects(q, Binary(p, a, b), c);
    BinaryRespects(p, a, Binary(q, b, c));
    ParseExact(Two(a, p, b, q, c), l);
    ParseExact(Two(a, p, b, q, c), r);
  }

  lemma {:induction false} OperandLevel(e: Expr)
    requires IsOperand(e)
    ensures Level(e) >= UNARY
  {
  }

  /** A prefix operator belongs to the operand next to it, whatever row that operand starts. */
  lemma {:induction false} PrefixTakesOne(bang: bool, es: seq<Expr>, ops: seq<Op>, e: Expr)
    requires |es| == |ops| + 1 && AreOperands(es)
    ensures var first := Unary(bang, es[0]);
            Parse([if bang then Bang else Sym(Minus)] + Row(es, ops)) == Some(e)
            <==> TreeOf(e, [first] + es[1..], ops)
  {
    var fs := [Unary(bang, es[0])] + es[1..];
    OperandLevel(es[0]);
    assert AreOperands(fs);
    PrefixRow(bang, es, ops);
    RowParses(fs, ops, e);
  }

  lemma {:induction false} PrefixRow(bang: bool, es: seq<Expr>, ops: seq<Op>)
    requires |es| == |ops| + 1
    ensures [if bang then Bang else Sym(Minus)] + Row(es, ops) == Row([Unary(bang, es[0])] + es[1..], ops)
  {
    var fs := [Unary(bang, es[0])] + es[1..];
    assert fs[1..] == es[1..];
    if ops != [] {
      UnaryJoin(bang, es[0], [Sym(ops[0])] + Row(es[1..], ops[1..]));
    }
  }
}
