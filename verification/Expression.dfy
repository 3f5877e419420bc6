/**
 * The expression grammar and its declared precedences. A tree is derived by the grammar in many ways from one
 * token sequence; the precedences leave exactly one of them.
 */
module Expression {
  import opened Assoc

  datatype Op = Or | And | Eq | Ne | Lt | Le | Gt | Ge | Plus | Minus | Times | Div

  /** `Sym(Minus)` is the one token `-`, prefix or infix. */
  datatype Token = Lit(text: string) | Ident(text: string) | Dot | LParen | RParen | Comma | Bang | Sym(op: Op)

  datatype Expr =
    | Literal(text: string)
    | Name(head: string, rest: seq<string>)
    | Call(head: string, rest: seq<string>, args: seq<Expr>)
    | Binary(op: Op, left: Expr, right: Expr)
    | Unary(bang: bool, operand: Expr)
    | Paren(inner: Expr)

  /** The left-associative levels of `binary_expression`. */
  function OpLevel(op: Op): (p: nat)
    ensures 1 <= p <= 5
  {
    match op
    case Or => 1
    case And => 2
    case Eq | Ne | Lt | Le | Gt | Ge => 3
    case Plus | Minus => 4
    case Times | Div => 5
  }

  const UNARY: nat := 7
  const CALL: nat := 8
  const ATOM: nat := 9

  function Level(e: Expr): nat {
    match e
    case Binary(op, _, _) => OpLevel(op)
    case Unary(_, _) => UNARY
    case Call(_, _, _) => CALL
    case _ => ATOM
  }

  /** The tree obeys the declared precedences: operands bind tighter, on the left equally tight will do. */
  ghost predicate Respects(e: Expr)
    decreases e
  {
    match e
    case Call(_, _, args) => forall i :: 0 <= i < |args| ==> Respects(args[i])
    case Binary(op, l, r) => Respects(l) && Respects(r) && Level(l) >= OpLevel(op) && Level(r) > OpLevel(op)
    case Unary(_, x) => Respects(x) && Level(x) >= UNARY
    case Paren(x) => Respects(x)
    case _ => true
  }

  // ------------------------------------------------------------------- yield

  function DotTokens(rest: seq<string>): seq<Token> {
    if rest == [] then [] else [Dot, Ident(rest[0])] + DotTokens(rest[1..])
  }

  function UnaryToken(bang: bool): Token {
    if bang then Bang else Sym(Minus)
  }

  /** The tokens of a tree, left to right. */
  function Tokens(e: Expr): (ts: seq<Token>)
    ensures ts != []
    decreases e, 1
  {
    match e
    case Literal(t) => [Lit(t)]
    case Name(h, rest) => [Ident(h)] + DotTokens(rest)
    case Call(h, rest, args) => [Ident(h)] + (DotTokens(rest) + ([LParen] + ArgTokens(args)))
    case Binary(op, l, r) => Tokens(l) + ([Sym(op)] + Tokens(r))
    case Unary(bang, x) => [UnaryToken(bang)] + Tokens(x)
    case Paren(x) => [LParen] + (Tokens(x) + [RParen])
  }

  /** The arguments of a call and its closing parenthesis. */
  function ArgTokens(args: seq<Expr>): seq<Token>
    decreases args, 0
  {
    if args == [] then [RParen] else Tokens(args[0]) + MoreArgTokens(args[1..])
  }

  function MoreArgTokens(args: seq<Expr>): seq<Token>
    decreases args, 0
  {
    if args == [] then [RParen] else [Comma] + (Tokens(args[0]) + MoreArgTokens(args[1..]))
  }

  // ------------------------------------------------------- reference parser

  datatype Parsed = Fail | Done(e: Expr, ts: seq<Token>)

  datatype ParsedArgs = NoArgs | Args(args: seq<Expr>, ts: seq<Token>)

  function HeadLevel(ts: seq<Token>): nat {
    if ts != [] && ts[0].Sym? then OpLevel(ts[0].op) else 0
  }

  function TakeDots(ts: seq<Token>): (r: (seq<string>, seq<Token>))
    ensures |r.1| <= |ts|
    decreases |ts|
  {
    if |ts| > 1 && ts[0].Dot? && ts[1].Ident? then
      var (names, rest) := TakeDots(ts[2..]);
      ([ts[1].text] + names, rest)
    else ([], ts)
  }

  /** A literal, name, call, prefix operation or parenthesis. */
  function ParseOperand(ts: seq<Token>): (r: Parsed)
    ensures r.Done? ==> |r.ts| < |ts|
    decreases |ts|, 1
  {
    if ts == [] then Fail
    else
      match ts[0]
      case Lit(t) => Done(Literal(t), ts[1..])
      case Ident(h) =>
        var (names, rest) := TakeDots(ts[1..]);
        if rest != [] && rest[0].LParen? then
          match ParseArgs(rest[1..])
          case NoArgs => Fail
          case Args(args, rest') => Done(Call(h, names, args), rest')
        else Done(Name(h, names), rest)
      case LParen =>
        (match ParseFrom(1, ts[1..])
         case Fail => Fail
         case Done(e, rest) => if rest != [] && rest[0].RParen? then Done(Paren(e), rest[1..]) else Fail)
      case Bang => Prefixed(true, ts[1..])
      case Sym(op) => if op == Minus then Prefixed(false, ts[1..]) else Fail
      case _ => Fail
  }

  function Prefixed(bang: bool, ts: seq<Token>): (r: Parsed)
    ensures r.Done? ==> |r.ts| < |ts|
    decreases |ts|, 2
  {
    match ParseOperand(ts)
    case Fail => Fail
    case Done(e, rest) => Done(Unary(bang, e), rest)
  }

  /** An expression whose top operator has level `p` or more. */
  function ParseFrom(p: nat, ts: seq<Token>): (r: Parsed)
    ensures r.Done? ==> |r.ts| < |ts|
    decreases |ts|, 2
  {
    match ParseOperand(ts)
    case Fail => Fail
    case Done(e, rest) => Climb(p, e, rest)
  }

  /** Extend `left` by the operators of level `p` or more that follow. */
  function Climb(p: nat, left: Expr, ts: seq<Token>): (r: Parsed)
    ensures r.Done? ==> |r.ts| <= |ts|
    decreases |ts|, 0
  {
    if ts != [] && ts[0].Sym? && OpLevel(ts[0].op) >= p then
      match ParseFrom(OpLevel(ts[0].op) + 1, ts[1..])
      case Fail => Fail
      case Done(right, rest) => Climb(p, Binary(ts[0].op, left, right), rest)
    else Done(left, ts)
  }

  function ParseArgs(ts: seq<Token>): (r: ParsedArgs)
    ensures r.Args? ==> |r.ts| < |ts|
    decreases |ts|, 4
  {
    if ts != [] && ts[0].RParen? then Args([], ts[1..])
    else
      match ParseFrom(1, ts)
      case Fail => NoArgs
      case Done(e, rest) =>
        match ParseMoreArgs(rest)
        case NoArgs => NoArgs
        case Args(args, rest') => Args([e] + args, rest')
  }

  function ParseMoreArgs(ts: seq<Token>): (r: ParsedArgs)
    ensures r.Args? ==> |r.ts| < |ts|
    decreases |ts|, 4
  {
    if ts == [] then NoArgs
    else if ts[0].RParen? then Args([], ts[1..])
    else if !ts[0].Comma? then NoArgs
    else
      match ParseFrom(1, ts[1..])
      case Fail => NoArgs
      case Done(e, rest) =>
        match ParseMoreArgs(rest)
        case NoArgs => NoArgs
        case Args(args, rest') => Args([e] + args, rest')
  }

  function Parse(ts: seq<Token>): Option<Expr> {
    match ParseFrom(1, ts)
    case Fail => None
    case Done(e, rest) => if rest == [] then Some(e) else None
  }

  // ------------------------------------- every respecting tree is parsed back

  /** What may follow an expression: nothing, an operator, a comma or a closing parenthesis. */
  predicate Follows(ts: seq<Token>) {
    ts == [] || ts[0].Sym? || ts[0].RParen? || ts[0].Comma?
  }

  lemma {:induction false} DotsBack(rest: seq<string>, ts: seq<Token>)
    requires ts == [] || !ts[0].Dot?
    ensures TakeDots(DotTokens(rest) + ts) == (rest, ts)
  {
    var all := DotTokens(rest) + ts;
    if rest == [] {
      assert all == ts;
    } else {
      DotsBack(rest[1..], ts);
      assert all[0] == Dot && all[1] == Ident(rest[0]);
      assert all[2..] == DotTokens(rest[1..]) + ts;
      assert [rest[0]] + rest[1..] == rest;
    }
  }

  lemma {:induction false} UnaryJoin(bang: bool, x: Expr, ts: seq<Token>)
    ensures Tokens(Unary(bang, x)) + ts == [UnaryToken(bang)] + (Tokens(x) + ts)
  {
    Concat([UnaryToken(bang)], Tokens(x), ts);
  }

  lemma {:induction false} NameJoin(h: string, rest: seq<string>, ts: seq<Token>)
    ensures Tokens(Name(h, rest)) + ts == [Ident(h)] + (DotTokens(rest) + ts)
  {
    Concat([Ident(h)], DotTokens(rest), ts);
  }

  lemma {:induction false} ParenJoin(x: Expr, ts: seq<Token>)
    ensures Tokens(Paren(x)) + ts == [LParen] + (Tokens(x) + ([RParen] + ts))
  {
    Concat([LParen], Tokens(x) + [RParen], ts);
    Concat(Tokens(x), [RParen], ts);
  }

  lemma {:induction false} CallJoin(h: string, rest: seq<string>, args: seq<Expr>, ts: seq<Token>)
    ensures Tokens(Call(h, rest, args)) + ts == [Ident(h)] + (DotTokens(rest) + ([LParen] + (ArgTokens(args) + ts)))
  {
    Concat([Ident(h)], DotTokens(rest) + ([LParen] + ArgTokens(args)), ts);
    Concat(DotTokens(rest), [LParen] + ArgTokens(args), ts);
    Concat([LParen], ArgTokens(args), ts);
  }

  lemma {:induction false} BinaryJoin(op: Op, l: Expr, r: Expr, ts: seq<Token>)
    ensures Tokens(Binary(op, l, r)) + ts == Tokens(l) + ([Sym(op)] + (Tokens(r) + ts))
  {
    Concat(Tokens(l), [Sym(op)] + Tokens(r), ts);
    Concat([Sym(op)], Tokens(r), ts);
  }

  lemma {:induction false} OperandBack(e: Expr, ts: seq<Token>)
    requires Respects(e) && Level(e) >= UNARY && Follows(ts)
    ensures ParseOperand(Tokens(e) + ts) == Done(e, ts)
    decreases e, 0
  {
    var all := Tokens(e) + ts;
    match e
    case Literal(t) =>
      assert all[1..] == ts;
    case Name(h, rest) =>
      NameJoin(h, rest, ts);
      assert all[1..] == DotTokens(rest) + ts;
      DotsBack(rest, ts);
    case Call(h, rest, args) =>
      ArgsBack(args, ts);
      CallBack(e, ts);
    case Unary(bang, x) =>
      UnaryJoin(bang, x, ts);
      assert all[1..] == Tokens(x) + ts;
      OperandBack(x, ts);
    case Paren(x) =>
      var tail := [RParen] + ts;
      ParenJoin(x, ts);
      assert all[1..] == Tokens(x) + tail;
      FromBack(1, x, tail);
      assert tail[1..] == ts;
    case Binary(_, _, _) =>
  }

  lemma {:induction false} CallBack(e: Expr, ts: seq<Token>)
    requires e.Call? && ParseArgs(ArgTokens(e.args) + ts) == Args(e.args, ts)
    ensures ParseOperand(Tokens(e) + ts) == Done(e, ts)
  {
    var all := Tokens(e) + ts;
    var tail := [LParen] + (ArgTokens(e.args) + ts);
    CallJoin(e.head, e.rest, e.args, ts);
    assert all[0] == Ident(e.head);
    assert all[1..] == DotTokens(e.rest) + tail;
    DotsBack(e.rest, tail);
    assert tail[1..] == ArgTokens(e.args) + ts;
  }

  /** Parsing from level `p` reads the whole tree and goes on climbing from there. */
  lemma {:induction false} FromBack(p: nat, e: Expr, ts: seq<Token>)
    requires Respects(e) && p <= Level(e) && Follows(ts) && HeadLevel(ts) <= Level(e)
    ensures ParseFrom(p, Tokens(e) + ts) == Climb(p, e, ts)
    decreases e, 1
  {
    if e.Binary? {
      var q := OpLevel(e.op);
      var tail := [Sym(e.op)] + (Tokens(e.right) + ts);
      BinaryJoin(e.op, e.left, e.right, ts);
      FromBack(p, e.left, tail);
      assert tail[1..] == Tokens(e.right) + ts;
      FromBack(q + 1, e.right, ts);
    } else {
      OperandBack(e, ts);
    }
  }

  lemma {:induction false} ArgsBack(args: seq<Expr>, ts: seq<Token>)
    requires forall i :: 0 <= i < |args| ==> Respects(args[i])
    ensures ParseArgs(ArgTokens(args) + ts) == Args(args, ts)
    decreases args, 0
  {
    var all := ArgTokens(args) + ts;
    if args == [] {
      assert all[1..] == ts;
    } else {
      var tail := MoreArgTokens(args[1..]) + ts;
      assert all == Tokens(args[0]) + tail;
      FirstToken(args[0]);
      FromBack(1, args[0], tail);
      MoreArgsBack(args[1..], ts);
      assert [args[0]] + args[1..] == args;
    }
  }

  lemma {:induction false} MoreArgsBack(args: seq<Expr>, ts: seq<Token>)
    requires forall i :: 0 <= i < |args| ==> Respects(args[i])
    ensures ParseMoreArgs(MoreArgTokens(args) + ts) == Args(args, ts)
    decreases args, 0
  {
    var all := MoreArgTokens(args) + ts;
    if args == [] {
      assert all[1..] == ts;
    } else {
      var tail := MoreArgTokens(args[1..]) + ts;
      assert all[1..] == Tokens(args[0]) + tail;
      FromBack(1, args[0], tail);
      MoreArgsBack(args[1..], ts);
      assert [args[0]] + args[1..] == args;
    }
  }

  /** No expression starts with a closing parenthesis. */
  lemma {:induction false} FirstToken(e: Expr)
    ensures !Tokens(e)[0].RParen?
    decreases e
  {
    if e.Binary? {
      FirstToken(e.left);
    }
  }

  // ----------------------------------------- every parse is a respecting tree

  lemma {:induction false} DotsSound(ts: seq<Token>)
    ensures DotTokens(TakeDots(ts).0) + TakeDots(ts).1 == ts
    decreases |ts|
  {
    if |ts| > 1 && ts[0].Dot? && ts[1].Ident? {
      DotsSound(ts[2..]);
      var (names, rest) := TakeDots(ts[2..]);
      assert ([ts[1].text] + names)[1..] == names;
      assert ts == [ts[0], ts[1]] + ts[2..];
    }
  }

  lemma {:induction false} OperandSound(ts: seq<Token>)
    requires ParseOperand(ts).Done?
    ensures var r := ParseOperand(ts); Respects(r.e) && Level(r.e) >= UNARY && Tokens(r.e) + r.ts == ts
    decreases |ts|, 1
  {
    assert ts == [ts[0]] + ts[1..];
    match ts[0]
    case Lit(t) =>
    case Ident(h) =>
      var (names, rest) := TakeDots(ts[1..]);
      DotsSound(ts[1..]);
      if rest != [] && rest[0].LParen? {
        ArgsSound(rest[1..]);
        CallSound(h, names, rest, ParseArgs(rest[1..]));
      } else {
        NameJoin(h, names, rest);
      }
    case LParen =>
      FromSound(1, ts[1..]);
      var inner := ParseFrom(1, ts[1..]);
      assert inner.ts == [RParen] + inner.ts[1..];
      ParenJoin(inner.e, inner.ts[1..]);
    case Bang =>
      OperandSound(ts[1..]);
      UnaryJoin(true, ParseOperand(ts[1..]).e, ParseOperand(ts[1..]).ts);
    case Sym(_) =>
      OperandSound(ts[1..]);
      UnaryJoin(false, ParseOperand(ts[1..]).e, ParseOperand(ts[1..]).ts);
    case _ =>
  }

  lemma {:induction false} CallSound(h: string, names: seq<string>, rest: seq<Token>, a: ParsedArgs)
    requires a.Args? && rest != [] && rest[0].LParen? && rest[1..] == ArgTokens(a.args) + a.ts
    ensures Tokens(Call(h, names, a.args)) + a.ts == [Ident(h)] + (DotTokens(names) + rest)
  {
    CallJoin(h, names, a.args, a.ts);
    assert rest == [LParen] + rest[1..];
  }

  lemma {:induction false} FromSound(p: nat, ts: seq<Token>)
    requires 1 <= p <= 6 && ParseFrom(p, ts).Done?
    ensures var r := ParseFrom(p, ts);
            Respects(r.e) && Level(r.e) >= p && Tokens(r.e) + r.ts == ts && HeadLevel(r.ts) < p
    decreases |ts|, 2
  {
    OperandSound(ts);
    var first := ParseOperand(ts);
    ClimbSound(p, first.e, first.ts);
  }

  /** Climbing keeps the tokens and the precedences, as long as no tighter operator follows `left`. */
  lemma {:induction false} ClimbSound(p: nat, left: Expr, ts: seq<Token>)
    requires 1 <= p <= 6 && Climb(p, left, ts).Done?
    requires Respects(left) && Level(left) >= p && HeadLevel(ts) <= Level(left)
    ensures var r := Climb(p, left, ts);
            Respects(r.e) && Level(r.e) >= p && Tokens(r.e) + r.ts == Tokens(left) + ts && HeadLevel(r.ts) < p
    decreases |ts|, 0
  {
    if ts != [] && ts[0].Sym? && OpLevel(ts[0].op) >= p {
      var q := OpLevel(ts[0].op);
      FromSound(q + 1, ts[1..]);
      var r := ParseFrom(q + 1, ts[1..]);
      ClimbSound(p, Binary(ts[0].op, left, r.e), r.ts);
      BinaryTokens(left, ts, r.e, r.ts);
    }
  }

  lemma {:induction false} BinaryTokens(left: Expr, ts: seq<Token>, right: Expr, rest: seq<Token>)
    requires ts != [] && ts[0].Sym? && ts[1..] == Tokens(right) + rest
    ensures Tokens(Binary(ts[0].op, left, right)) + rest == Tokens(left) + ts
  {
    assert ts == [ts[0]] + (Tokens(right) + rest);
    BinaryJoin(ts[0].op, left, right, rest);
  }

  lemma {:induction false} ArgsSound(ts: seq<Token>)
    requires ParseArgs(ts).Args?
    ensures var r := ParseArgs(ts);
            (forall i :: 0 <= i < |r.args| ==> Respects(r.args[i])) && ArgTokens(r.args) + r.ts == ts
    decreases |ts|, 4
  {
    if ts != [] && ts[0].RParen? {
      assert ts == [RParen] + ts[1..];
    } else {
      FromSound(1, ts);
      var first := ParseFrom(1, ts);
      MoreArgsSound(first.ts);
      var more := ParseMoreArgs(first.ts);
      assert ([first.e] + more.args)[1..] == more.args;
      assert Tokens(first.e) + (MoreArgTokens(more.args) + more.ts)
        == (Tokens(first.e) + MoreArgTokens(more.args)) + more.ts;
    }
  }

  lemma {:induction false} MoreArgsSound(ts: seq<Token>)
    requires ParseMoreArgs(ts).Args?
    ensures var r := ParseMoreArgs(ts);
            (forall i :: 0 <= i < |r.args| ==> Respects(r.args[i])) && MoreArgTokens(r.args) + r.ts == ts
    decreases |ts|, 4
  {
    assert ts == [ts[0]] + ts[1..];
    if !ts[0].RParen? {
      FromSound(1, ts[1..]);
      var first := ParseFrom(1, ts[1..]);
      MoreArgsSound(first.ts);
      var more := ParseMoreArgs(first.ts);
      assert ([first.e] + more.args)[1..] == more.args;
      assert MoreArgTokens([first.e] + more.args) + more.ts
        == [Comma] + (Tokens(first.e) + (MoreArgTokens(more.args) + more.ts));
    }
  }

  // ------------------------------------------------------------ main results

  /** The precedences single out the tree the reference parser finds, for every token sequence. */
  lemma {:induction false} ParseExact(ts: seq<Token>, e: Expr)
    ensures Parse(ts) == Some(e) <==> Respects(e) && Tokens(e) == ts
  {
    if Respects(e) && Tokens(e) == ts {
      FromBack(1, e, []);
      assert Tokens(e) + [] == ts;
    }
    if Parse(ts) == Some(e) {
      FromSound(1, ts);
      assert Tokens(e) + [] == Tokens(e);
    }
  }

  /** The grammar is unambiguous under its declared precedences. */
  lemma {:induction false} Unambiguous(d: Expr, e: Expr)
    requires Respects(d) && Respects(e) && Tokens(d) == Tokens(e)
    ensures d == e
  {
    ParseExact(Tokens(d), d);
    ParseExact(Tokens(d), e);
  }

  // -------------------------------------- the precedences lose no sentence

  function Least(a: nat, b: nat): nat {
    if a < b then a else b
  }

  ghost function Size(e: Expr): nat
    decreases e
  {
    match e
    case Binary(_, l, r) => 1 + Size(l) + Size(r)
    case _ => 1
  }

  /** `l op r` regrouped by precedence: the loosest operator, and of equally loose ones the last, goes to the top. */
  function Regroup(op: Op, l: Expr, r: Expr): Expr
    decreases Size(l) + Size(r)
  {
    if r.Binary? && Level(r) <= Least(Level(l), OpLevel(op)) then Binary(r.op, Regroup(op, l, r.left), r.right)
    else if l.Binary? && Level(l) < OpLevel(op) then Binary(l.op, l.left, Regroup(op, l.right, r))
    else Binary(op, l, r)
  }

  lemma {:induction false} BinaryRespects(op: Op, l: Expr, r: Expr)
    ensures Respects(Binary(op, l, r))
            <==> Respects(l) && Respects(r) && Level(l) >= OpLevel(op) && Level(r) > OpLevel(op)
  {
  }

  lemma {:induction false} RegroupLevel(op: Op, l: Expr, r: Expr)
    ensures Level(Regroup(op, l, r)) == Least(OpLevel(op), Least(Level(l), Level(r)))
  {
  }

  lemma {:induction false} RegroupRespects(op: Op, l: Expr, r: Expr)
    requires Respects(l) && Respects(r)
    ensures Respects(Regroup(op, l, r))
    decreases Size(l) + Size(r)
  {
    if r.Binary? && Level(r) <= Least(Level(l), OpLevel(op)) {
      RegroupRespects(op, l, r.left);
      RegroupLevel(op, l, r.left);
      BinaryRespects(r.op, Regroup(op, l, r.left), r.right);
    } else if l.Binary? && Level(l) < OpLevel(op) {
      RegroupRespects(op, l.right, r);
      RegroupLevel(op, l.right, r);
      BinaryRespects(l.op, l.left, Regroup(op, l.right, r));
    } else {
      BinaryRespects(op, l, r);
    }
  }

  lemma {:induction false} RegroupTokens(op: Op, l: Expr, r: Expr)
    ensures Tokens(Regroup(op, l, r)) == Tokens(Binary(op, l, r))
    decreases Size(l) + Size(r)
  {
    if r.Binary? && Level(r) <= Least(Level(l), OpLevel(op)) {
      RegroupTokens(op, l, r.left);
      BinaryJoin(op, l, r.left, [Sym(r.op)] + Tokens(r.right));
    } else if l.Binary? && Level(l) < OpLevel(op) {
      RegroupTokens(op, l.right, r);
      BinaryJoin(l.op, l.left, l.right, [Sym(op)] + Tokens(r));
    }
  }

  /** A prefix operator binds only the first operand of what follows. */
  function Prefix(bang: bool, x: Expr): Expr
    decreases Size(x)
  {
    if x.Binary? then Binary(x.op, Prefix(bang, x.left), x.right) else Unary(bang, x)
  }

  lemma {:induction false} PrefixRespects(bang: bool, x: Expr)
    requires Respects(x)
    ensures Respects(Prefix(bang, x)) && Level(Prefix(bang, x)) >= Least(UNARY, Level(x))
    decreases Size(x)
  {
    if x.Binary? {
      PrefixRespects(bang, x.left);
    }
  }

  lemma {:induction false} PrefixTokens(bang: bool, x: Expr)
    ensures Tokens(Prefix(bang, x)) == Tokens(Unary(bang, x))
    decreases Size(x)
  {
    if x.Binary? {
      PrefixTokens(bang, x.left);
      Concat([UnaryToken(bang)], Tokens(x.left), [Sym(x.op)] + Tokens(x.right));
    }
  }

  /** The tree the precedences select among those with the same tokens. */
  function Selected(e: Expr): Expr
    decreases e
  {
    match e
    case Call(h, rest, args) => Call(h, rest, seq(|args|, i requires 0 <= i < |args| => Selected(args[i])))
    case Binary(op, l, r) => Regroup(op, Selected(l), Selected(r))
    case Unary(bang, x) => Prefix(bang, Selected(x))
    case Paren(x) => Paren(Selected(x))
    case _ => e
  }

  lemma {:induction false} ArgTokensSame(as_: seq<Expr>, bs: seq<Expr>)
    requires |as_| == |bs| && forall i :: 0 <= i < |as_| ==> Tokens(as_[i]) == Tokens(bs[i])
    ensures ArgTokens(as_) == ArgTokens(bs) && MoreArgTokens(as_) == MoreArgTokens(bs)
    decreases |as_|
  {
    if as_ != [] {
      ArgTokensSame(as_[1..], bs[1..]);
    }
  }

  lemma {:induction false} SelectedRespects(e: Expr)
    ensures Respects(Selected(e)) && Tokens(Selected(e)) == Tokens(e)
    decreases e
  {
    match e
    case Call(h, rest, args) =>
      var sel := Selected(e).args;
      forall i | 0 <= i < |args| ensures Respects(sel[i]) && Tokens(sel[i]) == Tokens(args[i]) {
        SelectedRespects(args[i]);
      }
      ArgTokensSame(sel, args);
    case Binary(op, l, r) =>
      SelectedRespects(l);
      SelectedRespects(r);
      RegroupRespects(op, Selected(l), Selected(r));
      RegroupTokens(op, Selected(l), Selected(r));
    case Unary(bang, x) =>
      SelectedRespects(x);
      PrefixRespects(bang, Selected(x));
      PrefixTokens(bang, Selected(x));
    case Paren(x) => SelectedRespects(x);
    case _ =>
  }

  /** Resolving ambiguity by precedence rejects nothing: every derivable sentence has its one respecting tree. */
  lemma {:induction false} EverySentenceParses(e: Expr)
    ensures Parse(Tokens(e)) == Some(Selected(e))
    ensures Respects(e) <==> Selected(e) == e
  {
    SelectedRespects(e);
    ParseExact(Tokens(e), Selected(e));
    if Respects(e) {
      Unambiguous(e, Selected(e));
    }
  }
}
