/** How operators group: by the levels of the grammar of C, and from left to right. */
module Grouping {
  import opened Limits
  import opened Words
  import opened Ast
  import opened Tokens
  import opened Parsing
  import opened Printing

  /** A number or a name. */
  predicate Atom(e: Expr) {
    (e.Number? || e.Identifier?) && e.ty == Void
  }

  function AtomToken(e: Expr): Token
    requires Atom(e)
  {
    if e.Number? then Token(TNumber, e.text) else Token(TIdentifier, e.name)
  }

  function Operator(op: BinaryOp): Token {
    Fixed(KindOf(op))
  }

  function Node2(op: BinaryOp, l: Expr, r: Expr): Expr {
    Binary(op, l, r, Void)
  }

  /** Nothing follows that could go on with an expression. */
  predicate Closed(tail: seq<Token>) {
    tail == [] || tail[0].kind in {TSemicolon, TRParen, TComma, TLBrace, TRBrace}
  }

  /** From `s` the tokens are read as the expression, and what follows is left. */
  ghost predicate ReadsAs(s: PState, ts: seq<Token>, e: Expr, tail: seq<Token>) {
    At(s, ts + tail) ==>
      ParseExpr(PREC_NONE, s).0 == Node(e, true) && Reaches(s, ParseExpr(PREC_NONE, s).1, tail)
  }

  lemma {:induction false} PrintedReads(e: Expr, s: PState, ts: seq<Token>, tail: seq<Token>)
    requires Printable(e) && DepthAt(e, PREC_NONE) <= MAX_EXPRESSION_DEPTH && Closed(tail)
    requires ts == Print(e, PREC_NONE)
    ensures ReadsAs(s, ts, e, tail)
  {
    hide ParseExpr, Print, DepthAt, Printable;
    ClosedEnds(tail);
    if At(s, ts + tail) {
      PrintIsParsed(e, PREC_NONE, s, tail);
    }
  }

  lemma {:induction false} ClosedEnds(tail: seq<Token>)
    requires Closed(tail)
    ensures Precedence(NextKind(tail)) == 0
  {
  }

  /**
    Two binary operators between three atoms: the first takes its operands first exactly if it
    binds at least as tightly as the second.
   */
  lemma {:induction false} TwoOperators(a: Expr, o1: BinaryOp, b: Expr, o2: BinaryOp, c: Expr, s: PState,
                                        tail: seq<Token>)
    requires Atom(a) && Atom(b) && Atom(c) && Closed(tail)
    ensures var ts := [AtomToken(a), Operator(o1), AtomToken(b), Operator(o2), AtomToken(c)];
            ReadsAs(s, ts, if Rank(o1) >= Rank(o2) then Node2(o2, Node2(o1, a, b), c)
                           else Node2(o1, a, Node2(o2, b, c)), tail)
  {
    hide Fixed, KindOf, Rank, ReadsAs;
    var e := if Rank(o1) >= Rank(o2) then Node2(o2, Node2(o1, a, b), c) else Node2(o1, a, Node2(o2, b, c));
    var ts := [AtomToken(a), Operator(o1), AtomToken(b), Operator(o2), AtomToken(c)];
    AtomPrints(a);
    AtomPrints(b);
    AtomPrints(c);
    if Rank(o1) >= Rank(o2) {
      PairPrints(o1, a, b, Strength(o2) - 1);
      PairPrints(o2, Node2(o1, a, b), c, PREC_NONE);
    } else {
      PairPrints(o2, b, c, Strength(o1));
      PairPrints(o1, a, Node2(o2, b, c), PREC_NONE);
    }
    assert Print(e, PREC_NONE) == ts;
    PrintedReads(e, s, ts, tail);
  }

  lemma {:induction false} AtomPrints(a: Expr)
    requires Atom(a)
    ensures Printable(a) && forall p: nat :: p < PREC_PRIMARY ==> Print(a, p) == [AtomToken(a)] && DepthAt(a, p) == 1
  {
  }

  lemma {:induction false} PairPrints(op: BinaryOp, l: Expr, r: Expr, p: nat)
    requires Printable(l) && Printable(r) && p < Strength(op)
    ensures Print(Node2(op, l, r), p) == Print(l, Strength(op) - 1) + [Operator(op)] + Print(r, Strength(op))
    ensures DepthAt(Node2(op, l, r), p) == Max(DepthAt(l, Strength(op) - 1), 1 + DepthAt(r, Strength(op)))
    ensures Printable(Node2(op, l, r))
  {
    hide Fixed, Strength;
  }

  /** A prefix operator takes the atom after it before any binary operator does. */
  lemma {:induction false} PrefixFirst(u: UnaryOp, a: Expr, o: BinaryOp, b: Expr, s: PState, tail: seq<Token>)
    requires Atom(a) && Atom(b) && Closed(tail)
    ensures ReadsAs(s, [Fixed(KindOfUnary(u)), AtomToken(a), Operator(o), AtomToken(b)],
                    Node2(o, Unary(u, a, Void), b), tail)
    ensures ReadsAs(s, [AtomToken(b), Operator(o), Fixed(KindOfUnary(u)), AtomToken(a)],
                    Node2(o, b, Unary(u, a, Void)), tail)
  {
    hide Fixed, KindOf, Rank, ReadsAs;
    AtomPrints(a);
    AtomPrints(b);
    UnaryPrints(u, a);
    PairPrints(o, Unary(u, a, Void), b, PREC_NONE);
    PairPrints(o, b, Unary(u, a, Void), PREC_NONE);
    PrintedReads(Node2(o, Unary(u, a, Void), b), s,
      [Fixed(KindOfUnary(u)), AtomToken(a), Operator(o), AtomToken(b)], tail);
    PrintedReads(Node2(o, b, Unary(u, a, Void)), s,
      [AtomToken(b), Operator(o), Fixed(KindOfUnary(u)), AtomToken(a)], tail);
  }

  lemma {:induction false} UnaryPrints(u: UnaryOp, a: Expr)
    requires Atom(a)
    ensures Printable(Unary(u, a, Void))
    ensures forall p: nat :: p < PREC_PRIMARY ==>
              Print(Unary(u, a, Void), p) == [Fixed(KindOfUnary(u)), AtomToken(a)] && DepthAt(Unary(u, a, Void), p) == 2
  {
    hide Fixed;
    AtomPrints(a);
    forall p: nat | p < PREC_PRIMARY
      ensures Print(Unary(u, a, Void), p) == [Fixed(KindOfUnary(u)), AtomToken(a)] && DepthAt(Unary(u, a, Void), p) == 2
    {
      assert Print(a, PREC_UNARY) == [AtomToken(a)];
      assert Bare(Unary(u, a, Void)) == [Fixed(KindOfUnary(u)), AtomToken(a)];
    }
  }

  /** Parentheses around an expression that do not matter leave no trace. */
  lemma {:induction false} ParenthesesVanish(e: Expr, s: PState, tail: seq<Token>)
    requires Printable(e) && 1 + Depth(e) <= MAX_EXPRESSION_DEPTH && Closed(tail)
    ensures ReadsAs(s, [Fixed(TLParen)] + Bare(e) + [Fixed(TRParen)], e, tail)
  {
    hide ParseExpr, Bare, Fixed, Depth, Printable, ParseLoop;
    var ts := [Fixed(TLParen)] + Bare(e) + [Fixed(TRParen)];
    ClosedEnds(tail);
    if At(s, ts + tail) {
      GroupParses(e, PREC_NONE, s, tail);
      LoopEnds(PREC_NONE, e, After(s, ts, tail).(depth := s.depth + 1), tail);
    }
  }
}
