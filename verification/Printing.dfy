/**
  A printer that sets parentheses only where precedence or left associativity needs them,
  and the proof that parsing what it prints gives the tree back.
 */
module Printing {
  import opened Limits
  import opened Words
  import opened Ast
  import opened Tokens
  import opened Parsing

  // --- The printer -------------------------------------------------------------------------

  /** The token of a kind whose spelling is fixed, with the text that the lexer gives it. */
  function Fixed(k: Kind): (t: Token)
    ensures t.kind == k
  {
    Token(k, match k
             case TInt => "int"
             case TChar => "char"
             case TVoid => "void"
             case TIf => "if"
             case TElse => "else"
             case TWhile => "while"
             case TReturn => "return"
             case TPlus => "+"
             case TMinus => "-"
             case TStar => "*"
             case TSlash => "/"
             case TLParen => "("
             case TRParen => ")"
             case TLBrace => "{"
             case TRBrace => "}"
             case TSemicolon => ";"
             case TComma => ","
             case TBitAnd => "&"
             case TBitOr => "|"
             case TBitXor => "^"
             case TBitNot => "~"
             case _ => "")
  }

  function KindOf(op: BinaryOp): Kind {
    match op
    case Add => TPlus
    case Sub => TMinus
    case Mul => TStar
    case Div => TSlash
    case Equal => TEqualEqual
    case NotEqual => TBangEqual
    case Less => TLess
    case LessEqual => TLessEqual
    case Greater => TGreater
    case GreaterEqual => TGreaterEqual
    case LeftShift => TLShift
    case RightShift => TRShift
    case And => TBitAnd
    case Or => TBitOr
    case Xor => TBitXor
  }

  function KindOfUnary(op: UnaryOp): Kind {
    match op
    case Negate => TMinus
    case Not => TBang
    case Invert => TBitNot
  }

  /** The levels of the binary operators in the grammar of C: the greater the rank, the tighter. */
  function Rank(op: BinaryOp): (n: nat)
    ensures 1 <= n <= 8
  {
    match op
    case Or => 1
    case Xor => 2
    case And => 3
    case Equal => 4
    case NotEqual => 4
    case Less => 5
    case LessEqual => 5
    case Greater => 5
    case GreaterEqual => 5
    case LeftShift => 6
    case RightShift => 6
    case Add => 7
    case Sub => 7
    case Mul => 8
    case Div => 8
  }

  /** The parser's precedence of an operator follows its rank. */
  function Strength(op: BinaryOp): (p: nat)
    ensures PREC_ASSIGNMENT < p < PREC_UNARY && p == Precedence(KindOf(op))
  {
    Rank(op) + 3
  }

  /** How tightly an expression holds together. */
  function Level(e: Expr): (p: nat)
    ensures PREC_ASSIGNMENT < p
  {
    match e
    case Binary(op, _, _, _) => Strength(op)
    case _ => PREC_PRIMARY
  }

  /** `e` where operators up to precedence `p` would end it. */
  function Print(e: Expr, p: nat): seq<Token>
    decreases e, 1
  {
    if Level(e) > p then Bare(e) else [Fixed(TLParen)] + Bare(e) + [Fixed(TRParen)]
  }

  function Bare(e: Expr): (ts: seq<Token>)
    decreases e, 0
  {
    match e
    case Number(text, _) => [Token(TNumber, text)]
    case Identifier(x, _) => [Token(TIdentifier, x)]
    case Call(fn, args, _) => [Token(TIdentifier, fn), Fixed(TLParen)] + PrintArgs(args) + [Fixed(TRParen)]
    case Unary(op, operand, _) => [Fixed(KindOfUnary(op))] + Print(operand, PREC_UNARY)
    case Binary(op, l, r, _) => Print(l, Strength(op) - 1) + [Fixed(KindOf(op))] + Print(r, Strength(op))
    case Assign(x, rhs, _) => [Token(TIdentifier, x), Fixed(TEqual)] + Print(rhs, PREC_ASSIGNMENT)
  }

  function PrintArgs(args: seq<Expr>): seq<Token>
    decreases args
  {
    if args == [] then []
    else if |args| == 1 then Print(args[0], PREC_ASSIGNMENT)
    else Print(args[0], PREC_ASSIGNMENT) + [Fixed(TComma)] + PrintArgs(args[1..])
  }

  // --- What can be printed -----------------------------------------------------------------------

  /** No assignment inside, as the parser leaves types, and within the limit on arguments. */
  predicate Printable(e: Expr) {
    e.ty == Void &&
    match e
    case Number(_, _) => true
    case Identifier(_, _) => true
    case Call(_, args, _) => |args| <= MAX_PARAMS_PER_FUNCTION && forall i :: 0 <= i < |args| ==> Printable(args[i])
    case Unary(_, operand, _) => Printable(operand)
    case Binary(_, l, r, _) => Printable(l) && Printable(r)
    case Assign(_, _, _) => false
  }

  /** How deep the parser's recursion goes for `Print(e, p)`. */
  function DepthAt(e: Expr, p: nat): (d: nat)
    ensures d >= 1
    decreases e, 1
  {
    if Level(e) > p then Depth(e) else 1 + Depth(e)
  }

  function Depth(e: Expr): (d: nat)
    ensures d >= 1
    decreases e, 0
  {
    match e
    case Number(_, _) => 1
    case Identifier(_, _) => 1
    case Call(_, args, _) => 1 + DepthOfArgs(args)
    case Unary(_, operand, _) => 1 + DepthAt(operand, PREC_UNARY)
    case Binary(op, l, r, _) => Max(DepthAt(l, Strength(op) - 1), 1 + DepthAt(r, Strength(op)))
    case Assign(_, rhs, _) => 1 + DepthAt(rhs, PREC_ASSIGNMENT)
  }

  function DepthOfArgs(args: seq<Expr>): nat
    decreases args
  {
    if args == [] then 0 else Max(DepthAt(args[0], PREC_ASSIGNMENT), DepthOfArgs(args[1..]))
  }

  function Max(a: nat, b: nat): nat {
    if a > b then a else b
  }

  // --- Expressions come back ------------------------------------------------------------------------

  function NextKind(ts: seq<Token>): Kind {
    if ts == [] then TEof else ts[0].kind
  }

  /** What follows does not continue an expression of this strength, nor call it. */
  predicate Ends(tail: seq<Token>, p: nat) {
    Precedence(NextKind(tail)) <= p && Precedence(NextKind(tail)) < PREC_CALL
  }

  /** A state before the tokens `ts` and then `tail`. */
  ghost predicate Before(s: PState, ts: seq<Token>, tail: seq<Token>) {
    s.rest == ts + tail && !s.panic
  }

  /** The state after them. */
  function After(s: PState, ts: seq<Token>, tail: seq<Token>): PState
    requires ts != []
  {
    PState(ts[|ts| - 1], tail, false, s.depth, s.errors, s.fault)
  }

  /** The parser's loop, with `e` as what has been read so far. */
  function LoopFrom(p: nat, e: Expr, s: PState, ts: seq<Token>, tail: seq<Token>): (Parsed, PState)
    requires ts != []
  {
    var (r, s1) := ParseLoop(p, Node(e, true), After(s, ts, tail).(depth := s.depth + 1));
    (r, s1.(depth := s.depth))
  }

  lemma {:induction false} FirstToken(e: Expr, p: nat)
    ensures Bare(e) != [] && HasPrefix(Bare(e)[0].kind)
    ensures Print(e, p) != [] && HasPrefix(Print(e, p)[0].kind)
    decreases e
  {
    match e
    case Binary(op, l, _, _) => FirstToken(l, Strength(op) - 1);
    case _ =>
  }

  lemma {:induction false} Advanced(s: PState, t: Token, ts: seq<Token>)
    requires s.rest == [t] + ts
    ensures Advance(s) == s.(current := t, rest := ts) && Next(s) == t
  {
    assert s.rest[0] == t && s.rest[1..] == ts;
  }

  lemma {:induction false} Consumed(s: PState, t: Token, ts: seq<Token>)
    requires s.rest == [t] + ts && !s.panic
    ensures Consume(s, t.kind) == s.(current := t, rest := ts)
  {
    Advanced(s, t, ts);
  }

  lemma {:induction false} KindsMatch(op: BinaryOp, uop: UnaryOp)
    ensures BinaryOf(KindOf(op)) == Some(op) && !KindOf(op).TEqual? && !KindOf(op).TLParen?
    ensures UnaryOf(KindOfUnary(uop)) == Some(uop) && HasPrefix(KindOfUnary(uop))
    ensures !KindOfUnary(uop).TNumber? && !KindOfUnary(uop).TIdentifier? && !KindOfUnary(uop).TLParen?
  {
  }

  /** The printed form in a context, read with operators above `q`. */
  lemma {:induction false} PrintParses(e: Expr, p: nat, q: nat, s: PState, tail: seq<Token>)
    requires Printable(e) && q <= PREC_UNARY && q < Level(e) + (if Level(e) > p then 0 else PREC_PRIMARY)
    requires Before(s, Print(e, p), tail) && s.depth + DepthAt(e, p) <= MAX_EXPRESSION_DEPTH
    requires Ends(tail, if Level(e) > p then Level(e) else PREC_PRIMARY)
    ensures Print(e, p) != [] && ParseExpr(q, s) == LoopFrom(q, e, s, Print(e, p), tail)
    decreases e, 3
  {
    FirstToken(e, p);
    if Level(e) > p {
      BareParses(e, q, s, tail);
    } else {
      GroupParses(e, q, s, tail);
    }
  }

  /** In its own context the printed form is the whole expression. */
  lemma {:induction false} PrintIsParsed(e: Expr, p: nat, s: PState, tail: seq<Token>)
    requires Printable(e) && p <= PREC_UNARY && Before(s, Print(e, p), tail)
    requires s.depth + DepthAt(e, p) <= MAX_EXPRESSION_DEPTH && Ends(tail, p)
    ensures Print(e, p) != [] && ParseExpr(p, s) == (Node(e, true), After(s, Print(e, p), tail))
    decreases e, 4
  {
    hide Print, ParseExpr;
    PrintParses(e, p, p, s, tail);
  }

  /** An expression is what its first token starts, and then the loop over operators. */
  lemma {:induction false} ExprUnfolds(q: nat, s: PState)
    requires s.depth < MAX_EXPRESSION_DEPTH && s.rest != [] && HasPrefix(Next(s).kind)
    ensures var s1 := Advance(s.(depth := s.depth + 1));
            var left, s2 := ParsePrefix(s1).0, ParsePrefix(s1).1;
            && ParseExpr(q, s).0 == ParseLoop(q, left, s2).0
            && ParseExpr(q, s).1 == ParseLoop(q, left, s2).1.(depth := s.depth)
  {
    hide ParsePrefix, ParseLoop, HasPrefix;
  }

  lemma {:induction false} GroupUnfolds(s: PState)
    requires s.current.kind.TLParen?
    ensures ParsePrefix(s).0 == ParseExpr(PREC_NONE, s).0
    ensures ParsePrefix(s).1 == Consume(ParseExpr(PREC_NONE, s).1, TRParen)
  {
    hide ParseExpr, Consume;
  }

  lemma {:induction false} NameStarts(s: PState)
    requires s.current.kind.TIdentifier? || s.current.kind.TNumber?
    ensures var text := s.current.text;
            ParsePrefix(s).0 == Node(if s.current.kind.TNumber? then Number(text, Void)
              else Identifier(text, Void), true)
    ensures ParsePrefix(s).1 == s
  {
  }

  lemma {:induction false} GroupParses(e: Expr, q: nat, s: PState, tail: seq<Token>)
    requires Printable(e) && q <= PREC_UNARY
    requires Before(s, [Fixed(TLParen)] + Bare(e) + [Fixed(TRParen)], tail)
    requires s.depth + 1 + Depth(e) <= MAX_EXPRESSION_DEPTH
    ensures ParseExpr(q, s) == LoopFrom(q, e, s, [Fixed(TLParen)] + Bare(e) + [Fixed(TRParen)], tail)
    decreases e, 2
  {
    hide Bare, ParseExpr, ParseLoop, Consume, Printable, Depth, Fixed, Print, DepthAt, Level;
    var close := [Fixed(TRParen)] + tail;
    assert s.rest == [Fixed(TLParen)] + (Bare(e) + close);
    var s0 := s.(depth := s.depth + 1);
    Advanced(s0, Fixed(TLParen), Bare(e) + close);
    var s1 := Advance(s0);
    FirstToken(e, 0);
    BareParses(e, PREC_NONE, s1, close);
    var s2 := After(s1, Bare(e), close);
    LoopEnds(PREC_NONE, e, s2.(depth := s1.depth + 1), close);
    ExprUnfolds(q, s);
    GroupUnfolds(s1);
    Consumed(s2, Fixed(TRParen), tail);
  }

  lemma {:induction false} LoopEnds(p: nat, e: Expr, s: PState, tail: seq<Token>)
    requires s.rest == tail && Precedence(NextKind(tail)) <= p
    ensures ParseLoop(p, Node(e, true), s) == (Node(e, true), s)
  {
  }

  lemma {:induction false} BareParses(e: Expr, q: nat, s: PState, tail: seq<Token>)
    requires Printable(e) && q <= PREC_UNARY && q < Level(e) && Before(s, Bare(e), tail)
    requires s.depth + Depth(e) <= MAX_EXPRESSION_DEPTH && Ends(tail, Level(e))
    ensures Bare(e) != [] && ParseExpr(q, s) == LoopFrom(q, e, s, Bare(e), tail)
    decreases e, 1
  {
    hide ParseLoop, ParseInfix;
    FirstToken(e, 0);
    match e
    case Number(text, _) => Advanced(s.(depth := s.depth + 1), Token(TNumber, text), tail);
    case Identifier(x, _) => Advanced(s.(depth := s.depth + 1), Token(TIdentifier, x), tail);
    case Unary(_, _, _) => UnaryParses(e, q, s, tail);
    case Binary(_, _, _, _) => BinaryParses(e, q, s, tail);
    case Call(_, _, _) => CallParses(e, q, s, tail);
  }

  lemma {:induction false} UnaryParses(e: Expr, q: nat, s: PState, tail: seq<Token>)
    requires e.Unary? && Printable(e) && Before(s, Bare(e), tail)
    requires s.depth + Depth(e) <= MAX_EXPRESSION_DEPTH && Ends(tail, PREC_UNARY)
    ensures Bare(e) != [] && ParseExpr(q, s) == LoopFrom(q, e, s, Bare(e), tail)
    decreases e, 0
  {
    hide ParseLoop, Print, ParseExpr, ParsePrefix, Fixed, KindOfUnary, UnaryOf, Printable, Depth, DepthAt, Bare,
      HasPrefix;
    UnaryParts(e, tail);
    KindsMatch(Add, e.uop);
    var t := Fixed(KindOfUnary(e.uop));
    var body := Print(e.operand, PREC_UNARY);
    var s0 := s.(depth := s.depth + 1);
    Advanced(s0, t, body + tail);
    PrintIsParsed(e.operand, PREC_UNARY, Advance(s0), tail);
    ExprUnfolds(q, s);
    UnaryUnfolds(Advance(s0));
  }

  lemma {:induction false} UnaryUnfolds(s: PState)
    requires UnaryOf(s.current.kind).Some?
    ensures var e := ParseExpr(PREC_UNARY, s);
            && ParsePrefix(s).0 == Node(Unary(UnaryOf(s.current.kind).value, TreeOf(e.0), Void), Whole(e.0))
            && ParsePrefix(s).1 == e.1
  {
    hide ParseExpr;
  }

  lemma {:induction false} UnaryParts(e: Expr, tail: seq<Token>)
    requires e.Unary? && Printable(e)
    ensures Printable(e.operand) && e.ty == Void && Depth(e) == 1 + DepthAt(e.operand, PREC_UNARY)
    ensures Bare(e) + tail == [Fixed(KindOfUnary(e.uop))] + (Print(e.operand, PREC_UNARY) + tail)
    ensures var body := Print(e.operand, PREC_UNARY);
            Bare(e) != [] && (body != [] ==> Bare(e)[|Bare(e)| - 1] == body[|body| - 1])
  {
    hide Print, DepthAt, Fixed, KindOfUnary;
  }

  lemma {:induction false} BinaryParts(e: Expr, tail: seq<Token>)
    requires e.Binary? && Printable(e)
    ensures Printable(e.left) && Printable(e.right) && e.ty == Void && Level(e) == Strength(e.bop)
    ensures Bare(e) + tail == Print(e.left, Strength(e.bop) - 1)
            + ([Fixed(KindOf(e.bop))] + (Print(e.right, Strength(e.bop)) + tail))
    ensures var last := Print(e.right, Strength(e.bop));
            last != [] ==> Bare(e) != [] && Bare(e)[|Bare(e)| - 1] == last[|last| - 1]
    ensures DepthAt(e.left, Strength(e.bop) - 1) <= Depth(e) && 1 + DepthAt(e.right, Strength(e.bop)) <= Depth(e)
  {
    hide Print, DepthAt, Fixed, KindOf, Strength;
  }

  lemma {:induction false} BinaryParses(e: Expr, q: nat, s: PState, tail: seq<Token>)
    requires e.Binary? && Printable(e) && q < Level(e) && Before(s, Bare(e), tail)
    requires s.depth + Depth(e) <= MAX_EXPRESSION_DEPTH && Ends(tail, Level(e))
    ensures Bare(e) != [] && ParseExpr(q, s) == LoopFrom(q, e, s, Bare(e), tail)
    decreases e, 0
  {
    hide ParseExpr, Print, Fixed, Printable, Bare, Depth, DepthAt;
    BinaryParts(e, tail);
    KindsMatch(e.bop, Negate);
    var p := Strength(e.bop);
    var t := Fixed(KindOf(e.bop));
    var left, right := Print(e.left, p - 1), Print(e.right, p);
    var tail1 := [t] + (right + tail);
    assert s.rest == left + tail1;
    PrintParses(e.left, p - 1, q, s, tail1);
    var s1 := After(s, left, tail1).(depth := s.depth + 1);
    Advanced(s1, t, right + tail);
    var s2 := Advance(s1);
    PrintIsParsed(e.right, p, s2, tail);
    assert ParseInfix(Node(e.left, true), s2) == (Node(e, true), After(s2, right, tail));
  }

  lemma {:induction false} NameUnfolds(q: nat, s: PState, x: string, rest: seq<Token>)
    requires s.depth < MAX_EXPRESSION_DEPTH && s.rest == [Token(TIdentifier, x)] + rest
    ensures var s1 := s.(current := Token(TIdentifier, x), rest := rest, depth := s.depth + 1);
            var (e, s2) := ParseLoop(q, Node(Identifier(x, Void), true), s1);
            ParseExpr(q, s) == (e, s2.(depth := s.depth))
  {
    hide ParseLoop, ParseExpr, ParsePrefix;
    Advanced(s.(depth := s.depth + 1), Token(TIdentifier, x), rest);
    ExprUnfolds(q, s);
    NameStarts(s.(current := Token(TIdentifier, x), rest := rest, depth := s.depth + 1));
  }

  lemma {:induction false} LoopGoesOn(q: nat, left: Parsed, s: PState, left1: Parsed, s1: PState)
    requires s.rest != [] && Precedence(Next(s).kind) > q && (left1, s1) == ParseInfix(left, Advance(s))
    ensures ParseLoop(q, left, s) == ParseLoop(q, left1, s1)
  {
    hide ParseInfix;
  }

  lemma {:induction false} CallParses(e: Expr, q: nat, s: PState, tail: seq<Token>)
    requires e.Call? && Printable(e) && q <= PREC_UNARY && Before(s, Bare(e), tail)
    requires s.depth + Depth(e) <= MAX_EXPRESSION_DEPTH
    ensures Bare(e) != [] && ParseExpr(q, s) == LoopFrom(q, e, s, Bare(e), tail)
    decreases e, 0
  {
    hide PrintArgs, ParseArgs, Consume, Depth, DepthOfArgs, ParseExpr, ParseLoop, Fixed;
    CallDepth(e);
    var args := PrintArgs(e.args);
    var close := [Fixed(TRParen)] + tail;
    assert s.rest == [Token(TIdentifier, e.fn)] + ([Fixed(TLParen)] + (args + close));
    NameUnfolds(q, s, e.fn, [Fixed(TLParen)] + (args + close));
    var s1 := s.(current := Token(TIdentifier, e.fn), rest := [Fixed(TLParen)] + (args + close), depth := s.depth + 1);
    Advanced(s1, Fixed(TLParen), args + close);
    var s2 := Advance(s1);
    CallEnds(e, s2, tail);
    var s3 := s2.(current := Fixed(TRParen), rest := tail);
    assert ParseInfix(Node(Identifier(e.fn, Void), true), s2) == (Node(e, true), s3);
    LoopGoesOn(q, Node(Identifier(e.fn, Void), true), s1, Node(e, true), s3);
  }

  lemma {:induction false} CallDepth(e: Expr)
    requires e.Call?
    ensures Depth(e) == 1 + DepthOfArgs(e.args)
  {
  }

  /** From after the opening parenthesis of a call. */
  lemma {:induction false} CallEnds(e: Expr, s: PState, tail: seq<Token>)
    requires e.Call? && Printable(e) && Before(s, PrintArgs(e.args), [Fixed(TRParen)] + tail)
    requires s.depth + DepthOfArgs(e.args) <= MAX_EXPRESSION_DEPTH
    ensures var (args, whole, s1) := if Next(s).kind.TRParen? then ([], true, s) else ParseArgs(0, s);
            args == e.args && whole && Consume(s1, TRParen) == s.(current := Fixed(TRParen), rest := tail)
    decreases e.args, 4
  {
    var close := [Fixed(TRParen)] + tail;
    if e.args == [] {
      assert s.rest == close;
      Consumed(s, Fixed(TRParen), tail);
    } else {
      FirstToken(e.args[0], PREC_ASSIGNMENT);
      assert Next(s) == Print(e.args[0], PREC_ASSIGNMENT)[0];
      var s1 := ArgsParse(0, e.args, s, close);
      Consumed(s1, Fixed(TRParen), tail);
    }
  }

  lemma {:induction false} ArgsParse(n: nat, args: seq<Expr>, s: PState, close: seq<Token>) returns (s1: PState)
    requires args != [] && n + |args| <= MAX_PARAMS_PER_FUNCTION && Before(s, PrintArgs(args), close)
    requires (forall i :: 0 <= i < |args| ==> Printable(args[i])) && NextKind(close) == TRParen
    requires s.depth + DepthOfArgs(args) <= MAX_EXPRESSION_DEPTH
    ensures ParseArgs(n, s) == (args, true, s1) && s1.rest == close && !s1.panic && s1.depth == s.depth
    ensures s1.errors == s.errors && s1.fault == s.fault
    decreases args, 3
  {
    hide ParseExpr, Print, Fixed, Printable, Depth, Bare;
    var first := Print(args[0], PREC_ASSIGNMENT);
    if |args| == 1 {
      PrintIsParsed(args[0], PREC_ASSIGNMENT, s, close);
      s1 := After(s, first, close);
      assert args == [args[0]];
    } else {
      var tail := [Fixed(TComma)] + (PrintArgs(args[1..]) + close);
      assert s.rest == first + tail;
      PrintIsParsed(args[0], PREC_ASSIGNMENT, s, tail);
      var s2 := After(s, first, tail);
      Advanced(s2, Fixed(TComma), PrintArgs(args[1..]) + close);
      s1 := ArgsParse(n + 1, args[1..], Advance(s2), close);
      assert [args[0]] + args[1..] == args;
    }
  }

  // --- Statements -------------------------------------------------------------------------------

  /** Of the types, only these can start a declaration inside a function. */
  predicate LocalType(ty: DataType) {
    ty == Int || ty == Char || ty == Void
  }

  function TypeToken(ty: DataType): Token {
    match ty
    case Int => Fixed(TInt)
    case Char => Fixed(TChar)
    case Void => Fixed(TVoid)
    case _ => Token(TIdentifier, TypeName(ty))
  }

  function PrintStmt(s: Stmt): seq<Token>
    decreases s, 0
  {
    match s
    case VarDecl(x, ty, init) =>
      [TypeToken(ty), Token(TIdentifier, x)]
      + (if init.None? then [] else [Fixed(TEqual)] + Print(init.value, PREC_NONE)) + [Fixed(TSemicolon)]
    case ExprStmt(e) => Print(e, PREC_NONE) + [Fixed(TSemicolon)]
    case Return(result) =>
      [Fixed(TReturn)] + (if result.None? then [] else Print(result.value, PREC_NONE)) + [Fixed(TSemicolon)]
    case If(c, thn, els) =>
      [Fixed(TIf)] + PrintCondition(c) + PrintStmt(thn)
      + (if els.None? then [] else [Fixed(TElse)] + PrintStmt(els.value))
    case While(c, body) => [Fixed(TWhile)] + PrintCondition(c) + PrintStmt(body)
    case Block(ss) => [Fixed(TLBrace)] + PrintStmts(ss) + [Fixed(TRBrace)]
  }

  function PrintCondition(c: Expr): seq<Token> {
    [Fixed(TLParen)] + Print(c, PREC_NONE) + [Fixed(TRParen)]
  }

  function PrintStmts(ss: seq<Stmt>): seq<Token>
    decreases ss, 0
  {
    if ss == [] then [] else PrintStmt(ss[0]) + PrintStmts(ss[1..])
  }

  predicate ExprFits(e: Expr) {
    Printable(e) && DepthAt(e, PREC_NONE) <= MAX_EXPRESSION_DEPTH
  }

  /** An assignment may stand as a statement. */
  predicate EffectFits(e: Expr) {
    if e.Assign? then e.ty == Void && Printable(e.rhs) && 1 + DepthAt(e.rhs, PREC_ASSIGNMENT) <= MAX_EXPRESSION_DEPTH
    else ExprFits(e)
  }

  /** The statement ends in an if without an else: an else after it would become its own. */
  predicate OpenEnded(s: Stmt) {
    match s
    case If(_, _, els) => els.Some? ==> OpenEnded(els.value)
    case While(_, body) => OpenEnded(body)
    case _ => false
  }

  /** The parser's limits are kept, and every else stands after a branch that is not open-ended. */
  predicate StmtFits(s: Stmt)
    decreases s, 0
  {
    match s
    case VarDecl(_, ty, init) => LocalType(ty) && (init.Some? ==> ExprFits(init.value))
    case ExprStmt(e) => EffectFits(e)
    case Return(result) => result.Some? ==> ExprFits(result.value)
    case If(c, thn, els) =>
      ExprFits(c) && StmtFits(thn) && (els.Some? ==> !OpenEnded(thn) && StmtFits(els.value))
    case While(c, body) => ExprFits(c) && StmtFits(body)
    case Block(ss) => |ss| <= MAX_BLOCK_STATEMENTS && AllFit(ss)
  }

  predicate AllFit(ss: seq<Stmt>)
    decreases ss, 0
  {
    ss == [] || (StmtFits(ss[0]) && AllFit(ss[1..]))
  }

  /** Outside expressions, before the tokens `ts`. */
  ghost predicate At(s: PState, ts: seq<Token>) {
    s.rest == ts && !s.panic && s.depth == 0
  }

  /** From `s` the parser came to `s1`, before the tokens `ts`, without an error on the way. */
  ghost predicate Reaches(s: PState, s1: PState, ts: seq<Token>) {
    At(s1, ts) && s1.errors == s.errors && s1.fault == s.fault
  }

  /** The statement is read from `s`, and what follows it is left. */
  ghost predicate Comes(st: Stmt, s: PState, tail: seq<Token>)
    requires s.depth == 0
  {
    ParseStmt(s).0 == StmtNode(st, true) && Reaches(s, ParseStmt(s).1, tail)
  }

  lemma {:induction false} StmtStarts(s: Stmt)
    ensures PrintStmt(s) != [] && !PrintStmt(s)[0].kind.TRBrace? && !PrintStmt(s)[0].kind.TEof?
    ensures PrintStmt(s)[0].kind.TElse? == false
    ensures s.ExprStmt? ==> HasPrefix(PrintStmt(s)[0].kind)
  {
    if s.ExprStmt? {
      FirstToken(s.e, PREC_NONE);
    }
  }

  /** What fits within a statement that fits. */
  lemma {:induction false} PartsFit(st: Stmt)
    requires StmtFits(st)
    ensures st.VarDecl? ==> LocalType(st.varType) && (st.init.Some? ==> ExprFits(st.init.value))
    ensures st.ExprStmt? ==> EffectFits(st.e)
    ensures st.Return? && st.result.Some? ==> ExprFits(st.result.value)
    ensures st.If? ==> ExprFits(st.cond) && StmtFits(st.thn)
    ensures st.If? && st.els.Some? ==> !OpenEnded(st.thn) && StmtFits(st.els.value)
    ensures st.While? ==> ExprFits(st.cond) && StmtFits(st.body)
  {
    hide ExprFits, EffectFits;
  }

  lemma {:induction false} TakeToken(s: PState, s1: PState, t: Token, ts: seq<Token>)
    requires Reaches(s, s1, [t] + ts)
    ensures Next(s1) == t && s1.rest != []
    ensures Reaches(s, Advance(s1), ts) && Advance(s1).current == t
    ensures Reaches(s, Consume(s1, t.kind), ts) && Consume(s1, t.kind).current == t
  {
    Consumed(s1, t, ts);
    Advanced(s1, t, ts);
  }

  /** In statements an expression is followed by a semicolon or a parenthesis. */
  lemma {:induction false} TakeExpr(e: Expr, s: PState, s1: PState, k: Kind, tail: seq<Token>)
    requires ExprFits(e) && Reaches(s, s1, Print(e, PREC_NONE) + ([Fixed(k)] + tail)) && Precedence(k) == 0
    ensures ParseExpr(PREC_NONE, s1).0 == Node(e, true) && Reaches(s, ParseExpr(PREC_NONE, s1).1, [Fixed(k)] + tail)
    ensures HasPrefix(Next(s1).kind)
  {
    hide Print, ParseExpr, Printable, DepthAt, Fixed;
    FirstToken(e, PREC_NONE);
    assert Next(s1) == Print(e, PREC_NONE)[0];
    PrintIsParsed(e, PREC_NONE, s1, [Fixed(k)] + tail);
  }

  /** An assignment is read from its target on. */
  lemma {:induction false} AssignParses(e: Expr, s: PState, tail: seq<Token>)
    requires e.Assign? && EffectFits(e) && Before(s, Print(e, PREC_NONE), tail) && s.depth == 0
    requires Precedence(NextKind(tail)) == 0
    ensures Print(e, PREC_NONE) != [] && ParseExpr(PREC_NONE, s) == (Node(e, true), After(s, Print(e, PREC_NONE), tail))
  {
    hide Print, Depth, Fixed, ParseExpr, ParseLoop, ParseInfix;
    AssignPrints(e);
    var name := Token(TIdentifier, e.target);
    var body := Print(e.rhs, PREC_ASSIGNMENT);
    FirstToken(e.rhs, PREC_ASSIGNMENT);
    var s0 := s.(depth := 1);
    assert s.rest == [name] + ([Fixed(TEqual)] + (body + tail));
    Advanced(s0, name, [Fixed(TEqual)] + (body + tail));
    var s1 := Advance(s0);
    Advanced(s1, Fixed(TEqual), body + tail);
    var s2 := Advance(s1);
    PrintIsParsed(e.rhs, PREC_ASSIGNMENT, s2, tail);
    var s3 := After(s2, body, tail);
    AssignUnfolds(Identifier(e.target, Void), s2, Node(e.rhs, true), s3);
    LoopEnds(PREC_NONE, e, s3, tail);
    LoopGoesOn(PREC_NONE, Node(Identifier(e.target, Void), true), s1, Node(e, true), s3);
    NameUnfolds(PREC_NONE, s, e.target, [Fixed(TEqual)] + (body + tail));
  }

  lemma {:induction false} AssignUnfolds(x: Expr, s: PState, e: Parsed, s1: PState)
    requires x.Identifier? && s.current.kind.TEqual? && (e, s1) == ParseExpr(PREC_ASSIGNMENT, s)
    ensures ParseInfix(Node(x, true), s) == (Node(Assign(x.name, TreeOf(e), Void), Whole(e)), s1)
  {
    hide ParseExpr;
  }

  lemma {:induction false} AssignPrints(e: Expr)
    requires e.Assign?
    ensures Print(e, PREC_NONE) == [Token(TIdentifier, e.target), Fixed(TEqual)] + Print(e.rhs, PREC_ASSIGNMENT)
  {
  }

  lemma {:induction false} TakeEffect(e: Expr, s: PState, s1: PState, tail: seq<Token>)
    requires EffectFits(e) && Reaches(s, s1, Print(e, PREC_NONE) + ([Fixed(TSemicolon)] + tail))
    ensures ParseExpr(PREC_NONE, s1).0 == Node(e, true)
    ensures Reaches(s, ParseExpr(PREC_NONE, s1).1, [Fixed(TSemicolon)] + tail)
    ensures HasPrefix(Next(s1).kind)
  {
    hide Print, ParseExpr, ExprFits, Fixed;
    if e.Assign? {
      FirstToken(e, PREC_NONE);
      assert Next(s1) == Print(e, PREC_NONE)[0];
      AssignParses(e, s1, [Fixed(TSemicolon)] + tail);
    } else {
      TakeExpr(e, s, s1, TSemicolon, tail);
    }
  }

  // --- Each kind of statement: how it is parsed, how it is printed, and that it comes back ------

  lemma {:induction false} EffectUnfolds(s: PState)
    requires s.depth == 0 && HasPrefix(Next(s).kind)
    ensures var e, s1 := ParseExpr(PREC_NONE, s).0, ParseExpr(PREC_NONE, s).1;
            && ParseStmt(s).0 == (if e.Node? then StmtNode(ExprStmt(e.e), e.whole) else NoStmt)
            && ParseStmt(s).1 == Consume(s1, TSemicolon)
  {
    hide ParseExpr, Consume;
  }

  lemma {:induction false} EffectPrints(st: Stmt, tail: seq<Token>)
    requires st.ExprStmt?
    ensures PrintStmt(st) + tail == Print(st.e, PREC_NONE) + ([Fixed(TSemicolon)] + tail)
  {
    hide Print, Fixed;
  }

  lemma {:induction false} ExprStmtParses(st: Stmt, s: PState, tail: seq<Token>)
    requires st.ExprStmt? && StmtFits(st) && At(s, PrintStmt(st) + tail)
    ensures Comes(st, s, tail)
  {
    hide ParseExpr, Print, Consume, PrintStmt, Fixed, ParseStmt, StmtFits, EffectFits, HasPrefix;
    PartsFit(st);
    EffectPrints(st, tail);
    TakeEffect(st.e, s, s, tail);
    EffectUnfolds(s);
    TakeToken(s, ParseExpr(PREC_NONE, s).1, Fixed(TSemicolon), tail);
  }

  lemma {:induction false} ReturnUnfolds(s: PState)
    requires s.depth == 0 && Next(s).kind.TReturn?
    ensures var s1 := Consume(s, TReturn);
            var e, s2 := ParseExpr(PREC_NONE, s1).0, ParseExpr(PREC_NONE, s1).1;
            if Next(s1).kind.TSemicolon? then
              ParseStmt(s).0 == StmtNode(Return(None), true) && ParseStmt(s).1 == Consume(s1, TSemicolon)
            else
              && ParseStmt(s).0 == StmtNode(Return(TreeIfAny(e)), NoHole(e))
              && ParseStmt(s).1 == Consume(s2, TSemicolon)
  {
    hide ParseExpr, Consume;
  }

  lemma {:induction false} ReturnPrints(st: Stmt, tail: seq<Token>)
    requires st.Return?
    ensures var close := [Fixed(TSemicolon)] + tail;
            PrintStmt(st) + tail ==
            [Fixed(TReturn)] + if st.result.None? then close else Print(st.result.value, PREC_NONE) + close
  {
    hide Print, Fixed;
  }

  lemma {:induction false} ReturnParses(st: Stmt, s: PState, tail: seq<Token>)
    requires st.Return? && StmtFits(st) && At(s, PrintStmt(st) + tail)
    ensures Comes(st, s, tail)
  {
    hide ParseExpr, Print, Consume, PrintStmt, Fixed, ParseStmt, StmtFits, ExprFits, Precedence;
    PartsFit(st);
    ReturnPrints(st, tail);
    var close := [Fixed(TSemicolon)] + tail;
    TakeToken(s, s, Fixed(TReturn), if st.result.None? then close else Print(st.result.value, PREC_NONE) + close);
    ReturnUnfolds(s);
    var s1 := Consume(s, TReturn);
    if st.result.Some? {
      ClosesExpr();
      TakeExpr(st.result.value, s, s1, TSemicolon, tail);
      TakeToken(s, ParseExpr(PREC_NONE, s1).1, Fixed(TSemicolon), tail);
    } else {
      TakeToken(s, s1, Fixed(TSemicolon), tail);
    }
  }

  lemma {:induction false} ClosesExpr()
    ensures Precedence(TSemicolon) == 0 && Precedence(TRParen) == 0
  {
  }

  lemma {:induction false} TypeTokenIsRead(ty: DataType)
    ensures TypeOfToken(TypeToken(ty)) == Some(ty)
    ensures LocalType(ty) ==> TypeToken(ty).kind.TInt? || TypeToken(ty).kind.TChar? || TypeToken(ty).kind.TVoid?
  {
  }

  lemma {:induction false} DeclUnfolds(s: PState, ty: DataType)
    requires s.depth == 0 && s.rest != [] && (Next(s).kind.TInt? || Next(s).kind.TChar? || Next(s).kind.TVoid?)
    requires TypeOfToken(Next(s)) == Some(ty) && !s.panic
    ensures var s2 := Consume(Advance(s), TIdentifier);
            var e, s3 := ParseExpr(PREC_NONE, Advance(s2)).0, ParseExpr(PREC_NONE, Advance(s2)).1;
            if s2.rest != [] && Next(s2).kind.TEqual? then
              && ParseStmt(s).0 == StmtNode(VarDecl(s2.current.text, ty, TreeIfAny(e)), NoHole(e))
              && ParseStmt(s).1 == Consume(s3, TSemicolon)
            else
              ParseStmt(s).0 == StmtNode(VarDecl(s2.current.text, ty, None), true)
                && ParseStmt(s).1 == Consume(s2, TSemicolon)
  {
    hide ParseExpr, Consume, TypeOfToken;
  }

  lemma {:induction false} DeclPrints(st: Stmt, tail: seq<Token>)
    requires st.VarDecl?
    ensures var close := [Fixed(TSemicolon)] + tail;
            PrintStmt(st) + tail ==
            [TypeToken(st.varType)] + ([Token(TIdentifier, st.name)] +
              if st.init.None? then close else [Fixed(TEqual)] + (Print(st.init.value, PREC_NONE) + close))
  {
    hide Print, Fixed, TypeToken;
  }

  lemma {:induction false} VarDeclParses(st: Stmt, s: PState, tail: seq<Token>)
    requires st.VarDecl? && StmtFits(st) && At(s, PrintStmt(st) + tail)
    ensures Comes(st, s, tail)
  {
    hide ParseExpr, Print, Consume, PrintStmt, Fixed, ParseStmt, StmtFits, ExprFits, Precedence, TypeToken,
      TypeOfToken, Advance;
    PartsFit(st);
    DeclPrints(st, tail);
    TypeTokenIsRead(st.varType);
    var close := [Fixed(TSemicolon)] + tail;
    var name := Token(TIdentifier, st.name);
    var rest := if st.init.None? then close else [Fixed(TEqual)] + (Print(st.init.value, PREC_NONE) + close);
    TakeToken(s, s, TypeToken(st.varType), [name] + rest);
    DeclUnfolds(s, st.varType);
    TakeToken(s, Advance(s), name, rest);
    var s2 := Consume(Advance(s), TIdentifier);
    if st.init.Some? {
      TakeToken(s, s2, Fixed(TEqual), Print(st.init.value, PREC_NONE) + close);
      ClosesExpr();
      TakeExpr(st.init.value, s, Advance(s2), TSemicolon, tail);
      TakeToken(s, ParseExpr(PREC_NONE, Advance(s2)).1, Fixed(TSemicolon), tail);
    } else {
      TakeToken(s, s2, Fixed(TSemicolon), tail);
    }
  }

  lemma {:induction false} ConditionParses(k: Kind, c: Expr, s: PState, tail: seq<Token>)
    requires ExprFits(c) && At(s, [Fixed(k)] + (PrintCondition(c) + tail))
    ensures ParseCondition(k, s).0 == Node(c, true) && Reaches(s, ParseCondition(k, s).1, tail)
  {
    hide ParseExpr, Print, Consume, Fixed, ExprFits, Precedence;
    var close := [Fixed(TRParen)] + tail;
    assert PrintCondition(c) + tail == [Fixed(TLParen)] + (Print(c, PREC_NONE) + close);
    TakeToken(s, s, Fixed(k), [Fixed(TLParen)] + (Print(c, PREC_NONE) + close));
    var s1 := Consume(s, k);
    TakeToken(s, s1, Fixed(TLParen), Print(c, PREC_NONE) + close);
    var s2 := Consume(s1, TLParen);
    ClosesExpr();
    TakeExpr(c, s, s2, TRParen, tail);
    TakeToken(s, ParseExpr(PREC_NONE, s2).1, Fixed(TRParen), tail);
  }

  /**
    Statements come back: a brace-delimited statement within the parser's limits is parsed
    from what is printed of it, without an error, and nothing else is taken.
   */
  lemma {:induction false} StmtParses(st: Stmt, s: PState, tail: seq<Token>)
    requires StmtFits(st) && At(s, PrintStmt(st) + tail) && (OpenEnded(st) ==> !NextKind(tail).TElse?)
    ensures Comes(st, s, tail)
    decreases st, 1
  {
    hide Comes, PrintStmt, StmtFits;
    match st
    case VarDecl(_, _, _) => VarDeclParses(st, s, tail);
    case ExprStmt(_) => ExprStmtParses(st, s, tail);
    case Return(_) => ReturnParses(st, s, tail);
    case If(_, _, _) => IfParses(st, s, tail);
    case While(_, _) => WhileParses(st, s, tail);
    case Block(_) => BlockParses(st, s, tail);
  }

  lemma {:induction false} IfUnfolds(s: PState)
    requires s.depth == 0 && s.rest != [] && Next(s).kind.TIf?
    ensures var c, s1 := ParseCondition(TIf, s).0, ParseCondition(TIf, s).1;
            var thn, s2 := ParseStmt(s1).0, ParseStmt(s1).1;
            if s2.rest != [] && Next(s2).kind.TElse? then
              var els, s3 := ParseStmt(Advance(s2)).0, ParseStmt(Advance(s2)).1;
              && ParseStmt(s).0 == StmtNode(If(TreeOf(c), StmtOf(thn), StmtIfAny(els)), Whole(c) && StmtNoHole(thn)
                && StmtNoHole(els))
              && ParseStmt(s).1 == s3
            else
              && ParseStmt(s).0 == StmtNode(If(TreeOf(c), StmtOf(thn), None), Whole(c) && StmtNoHole(thn))
              && ParseStmt(s).1 == s2
  {
    hide ParseCondition, ParseStmt;
    StmtIsIf(s);
  }

  lemma {:induction false} StmtIsIf(s: PState)
    requires s.depth == 0 && Next(s).kind.TIf?
    ensures ParseStmt(s) == ParseIf(s)
  {
    hide ParseIf;
  }

  lemma {:induction false} IfPrints(st: Stmt, tail: seq<Token>)
    requires st.If?
    ensures var rest := if st.els.None? then tail else [Fixed(TElse)] + (PrintStmt(st.els.value) + tail);
            PrintStmt(st) + tail == [Fixed(TIf)] + (PrintCondition(st.cond) + (PrintStmt(st.thn) + rest))
  {
    hide PrintCondition, PrintStmt, Fixed;
    IfIsPrinted(st);
    var head, thn := [Fixed(TIf)] + PrintCondition(st.cond), PrintStmt(st.thn);
    if st.els.Some? {
      var els := PrintStmt(st.els.value);
      assert head + thn + ([Fixed(TElse)] + els) + tail == head + (thn + ([Fixed(TElse)] + (els + tail)));
    } else {
      assert head + thn + [] + tail == head + (thn + tail);
    }
  }

  lemma {:induction false} IfIsPrinted(st: Stmt)
    requires st.If?
    ensures PrintStmt(st) ==
            [Fixed(TIf)] + PrintCondition(st.cond) + PrintStmt(st.thn)
            + if st.els.None? then [] else [Fixed(TElse)] + PrintStmt(st.els.value)
  {
    hide PrintCondition, Fixed;
  }

  lemma {:induction false} IfParses(st: Stmt, s: PState, tail: seq<Token>)
    requires st.If? && StmtFits(st) && At(s, PrintStmt(st) + tail) && (OpenEnded(st) ==> !NextKind(tail).TElse?)
    ensures Comes(st, s, tail)
    decreases st, 0
  {
    hide ParseStmt, PrintStmt, ParseCondition, PrintCondition, Consume, ExprFits, Fixed, StmtFits, Advance;
    PartsFit(st);
    IfPrints(st, tail);
    var rest := if st.els.None? then tail else [Fixed(TElse)] + (PrintStmt(st.els.value) + tail);
    TakeToken(s, s, Fixed(TIf), PrintCondition(st.cond) + (PrintStmt(st.thn) + rest));
    ConditionParses(TIf, st.cond, s, PrintStmt(st.thn) + rest);
    IfUnfolds(s);
    var s1 := ParseCondition(TIf, s).1;
    StmtParses(st.thn, s1, rest);
    var s2 := ParseStmt(s1).1;
    if st.els.Some? {
      TakeToken(s, s2, Fixed(TElse), PrintStmt(st.els.value) + tail);
      StmtParses(st.els.value, Advance(s2), tail);
    }
  }

  lemma {:induction false} WhileUnfolds(s: PState)
    requires s.depth == 0 && s.rest != [] && Next(s).kind.TWhile?
    ensures var c, s1 := ParseCondition(TWhile, s).0, ParseCondition(TWhile, s).1;
            var body, s2 := ParseStmt(s1).0, ParseStmt(s1).1;
            && ParseStmt(s).0 == StmtNode(While(TreeOf(c), StmtOf(body)), Whole(c) && StmtNoHole(body))
            && ParseStmt(s).1 == s2
  {
    hide ParseCondition, ParseStmt;
    StmtIsWhile(s);
  }

  lemma {:induction false} StmtIsWhile(s: PState)
    requires s.depth == 0 && Next(s).kind.TWhile?
    ensures ParseStmt(s) == ParseWhile(s)
  {
    hide ParseWhile;
  }

  lemma {:induction false} WhilePrints(st: Stmt, tail: seq<Token>)
    requires st.While?
    ensures PrintStmt(st) + tail == [Fixed(TWhile)] + (PrintCondition(st.cond) + (PrintStmt(st.body) + tail))
  {
    hide PrintCondition, Fixed;
  }

  lemma {:induction false} WhileParses(st: Stmt, s: PState, tail: seq<Token>)
    requires st.While? && StmtFits(st) && At(s, PrintStmt(st) + tail) && (OpenEnded(st) ==> !NextKind(tail).TElse?)
    ensures Comes(st, s, tail)
    decreases st, 0
  {
    hide ParseStmt, PrintStmt, ParseCondition, PrintCondition, Consume, ExprFits, Fixed, StmtFits, Advance;
    PartsFit(st);
    WhilePrints(st, tail);
    TakeToken(s, s, Fixed(TWhile), PrintCondition(st.cond) + (PrintStmt(st.body) + tail));
    ConditionParses(TWhile, st.cond, s, PrintStmt(st.body) + tail);
    WhileUnfolds(s);
    StmtParses(st.body, ParseCondition(TWhile, s).1, tail);
  }

  lemma {:induction false} BlockUnfolds(s: PState)
    requires s.depth == 0 && Next(s).kind.TLBrace?
    ensures var s1 := Consume(s, TLBrace);
            && ParseStmt(s).0 == StmtNode(Block(ParseStmts(0, s1).0), ParseStmts(0, s1).1)
            && ParseStmt(s).1 == Consume(ParseStmts(0, s1).2, TRBrace)
            && ParseBlock(s) == ParseStmt(s)
  {
    hide ParseStmts, Consume;
  }

  lemma {:induction false} BlockPrints(st: Stmt, tail: seq<Token>)
    requires st.Block?
    ensures PrintStmt(st) + tail == [Fixed(TLBrace)] + (PrintStmts(st.stmts) + ([Fixed(TRBrace)] + tail))
  {
    hide PrintStmts, Fixed;
  }

  lemma {:induction false} BlockFits(st: Stmt)
    requires st.Block? && StmtFits(st)
    ensures |st.stmts| <= MAX_BLOCK_STATEMENTS && AllFit(st.stmts)
  {
    hide AllFit;
  }

  lemma {:induction false} BlockParses(st: Stmt, s: PState, tail: seq<Token>)
    requires st.Block? && StmtFits(st) && At(s, PrintStmt(st) + tail)
    ensures Comes(st, s, tail) && ParseBlock(s) == ParseStmt(s)
    decreases st, 0
  {
    hide Consume, ParseStmts, Fixed, ParseStmt, PrintStmt, PrintStmts, StmtFits, AllFit, ParseBlock;
    BlockFits(st);
    BlockPrints(st, tail);
    var close := [Fixed(TRBrace)] + tail;
    TakeToken(s, s, Fixed(TLBrace), PrintStmts(st.stmts) + close);
    BlockUnfolds(s);
    var s1 := Consume(s, TLBrace);
    StmtsParse(0, st.stmts, s1, close);
    TakeToken(s, ParseStmts(0, s1).2, Fixed(TRBrace), tail);
  }

  lemma {:induction false} StmtsParse(n: nat, ss: seq<Stmt>, s: PState, close: seq<Token>)
    requires AllFit(ss) && n + |ss| <= MAX_BLOCK_STATEMENTS && At(s, PrintStmts(ss) + close)
    requires close == [] || NextKind(close).TRBrace?
    ensures ParseStmts(n, s).0 == ss && ParseStmts(n, s).1 && Reaches(s, ParseStmts(n, s).2, close)
    decreases ss, 0
  {
    hide ParseStmt, PrintStmt, StmtFits, ParseStmts;
    if ss == [] {
      assert s.rest == close;
      StmtsEnd(n, s);
    } else {
      var first := PrintStmt(ss[0]);
      var tail := PrintStmts(ss[1..]) + close;
      assert s.rest == first + tail;
      StmtStarts(ss[0]);
      assert Next(s) == first[0];
      NoElse(ss[1..], close);
      StmtParses(ss[0], s, tail);
      StmtsGoOn(n, s);
      StmtsParse(n + 1, ss[1..], ParseStmt(s).1, close);
      assert [ss[0]] + ss[1..] == ss;
    }
  }

  lemma {:induction false} StmtsEnd(n: nat, s: PState)
    requires s.depth == 0 && (s.rest == [] || Next(s).kind.TRBrace?)
    ensures ParseStmts(n, s) == ([], true, s)
  {
  }

  lemma {:induction false} StmtsGoOn(n: nat, s: PState)
    requires s.depth == 0 && s.rest != [] && !Next(s).kind.TRBrace? && !Next(s).kind.TEof? && n < MAX_BLOCK_STATEMENTS
    requires ParseStmt(s).0.StmtNode?
    ensures var st, s1 := ParseStmt(s).0, ParseStmt(s).1;
            && ParseStmts(n, s).0 == [st.s] + ParseStmts(n + 1, s1).0
            && ParseStmts(n, s).1 == (st.whole && ParseStmts(n + 1, s1).1)
            && ParseStmts(n, s).2 == ParseStmts(n + 1, s1).2
  {
    hide ParseStmt, Synchronize;
  }

  lemma {:induction false} NoElse(ss: seq<Stmt>, close: seq<Token>)
    requires close == [] || NextKind(close).TRBrace?
    ensures !NextKind(PrintStmts(ss) + close).TElse?
  {
    hide PrintStmt;
    if ss != [] {
      StmtStarts(ss[0]);
    }
  }

  // --- Files ---------------------------------------------------------------------------------------

  function PrintDecl(d: Declaration): seq<Token> {
    [TypeToken(d.returnType), Token(TIdentifier, d.name), Fixed(TLParen)] + PrintParams(d.params) + [Fixed(TRParen)]
    + if d.body.None? then [Fixed(TSemicolon)] else PrintStmt(d.body.value)
  }

  function PrintParams(ps: seq<Param>): seq<Token> {
    if ps == [] then []
    else
      [TypeToken(ps[0].ty), Token(TIdentifier, ps[0].name)]
      + if |ps| == 1 then [] else [Fixed(TComma)] + PrintParams(ps[1..])
  }

  function PrintUnit(ds: seq<Declaration>): seq<Token> {
    if ds == [] then [] else PrintDecl(ds[0]) + PrintUnit(ds[1..])
  }

  /** The parser has room for 16 parameters, and reads a first one of type void as an empty list. */
  predicate DeclFits(d: Declaration) {
    && |d.params| <= PARAM_ROOM && (d.params != [] ==> d.params[0].ty != Void)
    && (d.body.Some? ==> d.body.value.Block? && StmtFits(d.body.value))
  }

  lemma {:induction false} TypeParses(ty: DataType, s: PState, s1: PState, rest: seq<Token>)
    requires Reaches(s, s1, [TypeToken(ty)] + rest)
    ensures ParseType(s1).0 == ty && Reaches(s, ParseType(s1).1, rest) && TypeOfToken(Next(s1)) == Some(ty)
  {
    hide TypeToken, TypeOfToken;
    TypeTokenIsRead(ty);
    TakeToken(s, s1, TypeToken(ty), rest);
  }

  lemma {:induction false} ParamsPrint(ps: seq<Param>, close: seq<Token>)
    requires ps != []
    ensures PrintParams(ps) + close ==
            [TypeToken(ps[0].ty)] + ([Token(TIdentifier, ps[0].name)] +
              if |ps| == 1 then close else [Fixed(TComma)] + (PrintParams(ps[1..]) + close))
  {
    hide TypeToken, Fixed;
  }

  lemma {:induction false} ParamsUnfold(s: PState)
    ensures var ty, s1 := ParseType(s).0, ParseType(s).1;
            var s2 := Consume(s1, TIdentifier);
            var p := Param(s2.current.text, ty);
            if s2.rest != [] && Next(s2).kind.TComma? then
              && ParseParamList(s).0 == [p] + ParseParamList(Advance(s2)).0
              && ParseParamList(s).1 == ParseParamList(Advance(s2)).1
            else ParseParamList(s).0 == [p] && ParseParamList(s).1 == s2
  {
    hide ParseType, Consume;
  }

  lemma {:induction false} ParamsParse(ps: seq<Param>, s: PState, s0: PState, close: seq<Token>)
    requires ps != [] && Reaches(s, s0, PrintParams(ps) + close) && NextKind(close).TRParen?
    ensures ParseParamList(s0).0 == ps && Reaches(s, ParseParamList(s0).1, close)
    decreases |ps|
  {
    hide ParseType, Consume, Fixed, TypeToken, PrintParams, ParseParamList, TypeOfToken, Advance;
    ParamsPrint(ps, close);
    ParamsUnfold(s0);
    var name := Token(TIdentifier, ps[0].name);
    var rest := if |ps| == 1 then close else [Fixed(TComma)] + (PrintParams(ps[1..]) + close);
    TypeParses(ps[0].ty, s, s0, [name] + rest);
    TakeToken(s, ParseType(s0).1, name, rest);
    var s2 := Consume(ParseType(s0).1, TIdentifier);
    if |ps| > 1 {
      TakeToken(s, s2, Fixed(TComma), PrintParams(ps[1..]) + close);
      ParamsParse(ps[1..], s, Advance(s2), close);
      assert [ps[0]] + ps[1..] == ps;
    } else {
      assert [ps[0]] == ps;
    }
  }

  lemma {:induction false} ParamListParses(ps: seq<Param>, s: PState, s0: PState, close: seq<Token>)
    requires Reaches(s, s0, PrintParams(ps) + close) && NextKind(close).TRParen?
    requires |ps| <= PARAM_ROOM && (ps != [] ==> ps[0].ty != Void)
    ensures ParseParams(s0).0 == ps && Reaches(s, ParseParams(s0).1, close)
  {
    hide ParseParamList, Fixed;
    if ps == [] {
      assert PrintParams(ps) + close == close;
    } else {
      ParamsParse(ps, s, s0, close);
      ParamsPrint(ps, close);
      assert Next(s0) == TypeToken(ps[0].ty);
      NotVoid(ps[0].ty);
    }
  }

  lemma {:induction false} NotVoid(ty: DataType)
    requires ty != Void
    ensures !TypeToken(ty).kind.TVoid? && !TypeToken(ty).kind.TRParen?
  {
  }

  /** The tokens of a declaration up to its body, and then `rest`. */
  function Headed(d: Declaration, rest: seq<Token>): seq<Token> {
    [TypeToken(d.returnType)]
    + ([Token(TIdentifier, d.name)] + ([Fixed(TLParen)] + (PrintParams(d.params) + ([Fixed(TRParen)] + rest))))
  }

  lemma {:induction false} FunctionPrints(d: Declaration, tail: seq<Token>)
    ensures PrintDecl(d) + tail ==
            Headed(d, (if d.body.None? then [Fixed(TSemicolon)] else PrintStmt(d.body.value)) + tail)
  {
    hide PrintStmt, PrintParams, Fixed, TypeToken;
  }

  lemma {:induction false} FunctionUnfolds(s: PState)
    requires s.depth == 0 && TypeOfToken(Next(s)).Some? && !s.panic
    ensures var ty, s1 := ParseType(s).0, ParseType(s).1;
            var s2 := Consume(s1, TIdentifier);
            var s3 := Consume(s2, TLParen);
            var params := ParseParams(s3).0;
            var s4 := Consume(ParseParams(s3).1, TRParen);
            if s4.rest != [] && Next(s4).kind.TSemicolon? then
              && ParseFunction(s).0 == DeclNode(Declaration(s2.current.text, ty, params, None), true)
              && ParseFunction(s).1 == Advance(s4)
            else
              var body, s5 := ParseBlock(s4).0, ParseBlock(s4).1;
              && ParseFunction(s).0 == DeclNode(Declaration(s2.current.text, ty, params, Some(StmtOf(body))),
                StmtNoHole(body))
              && ParseFunction(s).1 == s5
  {
    hide Consume, ParseParams, ParseBlock, TypeOfToken;
  }

  /** From `s` the declaration was read up to its body, which starts at `s1`. */
  ghost predicate HeadRead(d: Declaration, s: PState, s1: PState, rest: seq<Token>)
    requires s.depth == 0 && rest != []
  {
    && Reaches(s, s1, rest)
    && if rest[0].kind.TSemicolon? then
         ParseFunction(s).0 == DeclNode(d.(body := None), true) && ParseFunction(s).1 == Advance(s1)
       else
         var b, s2 := ParseBlock(s1).0, ParseBlock(s1).1;
         && ParseFunction(s).0 == DeclNode(d.(body := Some(StmtOf(b))), StmtNoHole(b))
         && ParseFunction(s).1 == s2
  }

  /** Where the parameters of a function start. */
  function ParamsFrom(s: PState): PState {
    Consume(Consume(ParseType(s).1, TIdentifier), TLParen)
  }

  lemma {:induction false} NameParses(d: Declaration, s: PState, inner: seq<Token>)
    requires At(s, [TypeToken(d.returnType)] + ([Token(TIdentifier, d.name)] + ([Fixed(TLParen)] + inner)))
    ensures Reaches(s, ParamsFrom(s), inner) && ParseType(s).0 == d.returnType
    ensures Consume(ParseType(s).1, TIdentifier).current.text == d.name
    ensures TypeOfToken(Next(s)).Some? && !ParseType(s).1.panic
  {
    hide ParseType, Consume, Fixed, TypeToken, TypeOfToken, Advance;
    var name := Token(TIdentifier, d.name);
    TypeParses(d.returnType, s, s, [name] + ([Fixed(TLParen)] + inner));
    TakeToken(s, ParseType(s).1, name, [Fixed(TLParen)] + inner);
    TakeToken(s, Consume(ParseType(s).1, TIdentifier), Fixed(TLParen), inner);
  }

  lemma {:induction false} BodyFollows(d: Declaration, s: PState, rest: seq<Token>) returns (s1: PState)
    requires s.depth == 0 && !s.panic && rest != [] && TypeOfToken(Next(s)).Some?
    requires ParseType(s).0 == d.returnType && Consume(ParseType(s).1, TIdentifier).current.text == d.name
    requires ParseParams(ParamsFrom(s)).0 == d.params
    requires Reaches(s, ParseParams(ParamsFrom(s)).1, [Fixed(TRParen)] + rest)
    ensures HeadRead(d, s, s1, rest)
  {
    hide ParseType, Consume, ParseParams, ParseBlock, Fixed, ParseFunction, TypeOfToken, Advance;
    FunctionUnfolds(s);
    TakeToken(s, ParseParams(ParamsFrom(s)).1, Fixed(TRParen), rest);
    s1 := Consume(ParseParams(ParamsFrom(s)).1, TRParen);
  }

  /** The declaration is read up to its body. */
  lemma {:induction false} HeadParses(d: Declaration, s: PState, rest: seq<Token>) returns (s1: PState)
    requires DeclFits(d) && rest != [] && At(s, Headed(d, rest))
    ensures HeadRead(d, s, s1, rest)
  {
    hide ParseType, Consume, ParseParams, PrintParams, Fixed, TypeToken, TypeOfToken, HeadRead, ParamsFrom;
    var close := [Fixed(TRParen)] + rest;
    NameParses(d, s, PrintParams(d.params) + close);
    ParamListParses(d.params, s, ParamsFrom(s), close);
    s1 := BodyFollows(d, s, rest);
  }

  /** The body, and with it the declaration. */
  lemma {:induction false} BodyParses(d: Declaration, s: PState, s1: PState, tail: seq<Token>)
    requires DeclFits(d) && s.depth == 0
    requires var rest := (if d.body.None? then [Fixed(TSemicolon)] else PrintStmt(d.body.value)) + tail;
             rest != [] && HeadRead(d, s, s1, rest)
    ensures ParseFunction(s).0 == DeclNode(d, true) && Reaches(s, ParseFunction(s).1, tail)
  {
    hide ParseBlock, ParseStmt, PrintStmt, StmtFits, Fixed, ParseFunction, Consume;
    if d.body.None? {
      TakeToken(s, s1, Fixed(TSemicolon), tail);
    } else {
      BlockStarts(d.body.value, tail);
      BlockParses(d.body.value, s1, tail);
    }
  }

  /** A declaration comes back. */
  lemma {:induction false} DeclParses(d: Declaration, s: PState, tail: seq<Token>)
    requires DeclFits(d) && At(s, PrintDecl(d) + tail)
    ensures ParseFunction(s).0 == DeclNode(d, true) && Reaches(s, ParseFunction(s).1, tail)
  {
    hide PrintStmt, StmtFits, PrintDecl, Fixed, ParseFunction, Headed, HeadRead;
    FunctionPrints(d, tail);
    BodyStarts(d, tail);
    var s1 := HeadParses(d, s, (if d.body.None? then [Fixed(TSemicolon)] else PrintStmt(d.body.value)) + tail);
    BodyParses(d, s, s1, tail);
  }

  lemma {:induction false} BodyStarts(d: Declaration, tail: seq<Token>)
    requires DeclFits(d)
    ensures (if d.body.None? then [Fixed(TSemicolon)] else PrintStmt(d.body.value)) + tail != []
  {
    hide PrintStmt, Fixed;
    if d.body.Some? {
      BlockStarts(d.body.value, tail);
    }
  }

  /** A declaration without parameters, with the word void in their place. */
  function HeadedVoid(d: Declaration, rest: seq<Token>): seq<Token> {
    [TypeToken(d.returnType)]
    + ([Token(TIdentifier, d.name)] + ([Fixed(TLParen)] + ([Fixed(TVoid)] + ([Fixed(TRParen)] + rest))))
  }

  /** A function without parameters may say so: `f(void)` is read as `f()`. */
  lemma {:induction false} VoidParses(d: Declaration, s: PState, tail: seq<Token>)
    requires DeclFits(d) && d.params == []
    requires At(s, HeadedVoid(d, (if d.body.None? then [Fixed(TSemicolon)] else PrintStmt(d.body.value)) + tail))
    ensures ParseFunction(s).0 == DeclNode(d, true) && Reaches(s, ParseFunction(s).1, tail)
  {
    hide PrintStmt, StmtFits, Fixed, ParseFunction, HeadRead, ParseParams, Consume, ParseType, TypeOfToken, TypeToken;
    BodyStarts(d, tail);
    var rest := (if d.body.None? then [Fixed(TSemicolon)] else PrintStmt(d.body.value)) + tail;
    NameParses(d, s, [Fixed(TVoid)] + ([Fixed(TRParen)] + rest));
    VoidIsTaken(s, ParamsFrom(s), [Fixed(TRParen)] + rest);
    var s1 := BodyFollows(d, s, rest);
    BodyParses(d, s, s1, tail);
  }

  lemma {:induction false} VoidIsTaken(s: PState, s0: PState, rest: seq<Token>)
    requires Reaches(s, s0, [Fixed(TVoid)] + rest)
    ensures ParseParams(s0).0 == [] && Reaches(s, ParseParams(s0).1, rest)
  {
    hide Fixed, ParseParamList, Advance;
    TakeToken(s, s0, Fixed(TVoid), rest);
  }

  lemma {:induction false} BlockStarts(b: Stmt, tail: seq<Token>)
    requires b.Block?
    ensures PrintStmt(b) + tail != [] && NextKind(PrintStmt(b) + tail).TLBrace?
  {
  }

  function WholeDecls(ds: seq<Declaration>): seq<ParsedDecl> {
    if ds == [] then [] else [DeclNode(ds[0], true)] + WholeDecls(ds[1..])
  }

  /**
    Parsing inverts printing: a file of declarations within the parser's limits is parsed
    from what is printed of it, without an error.
   */
  lemma {:induction false} UnitParses(n: nat, ds: seq<Declaration>, s: PState)
    requires (forall i :: 0 <= i < |ds| ==> DeclFits(ds[i])) && n + |ds| <= MAX_FUNCTION_COUNT && At(s, PrintUnit(ds))
    ensures ParseUnit(n, s).0 == Some(WholeDecls(ds)) && Reaches(s, ParseUnit(n, s).1, [])
    decreases |ds|
  {
    hide ParseFunction, PrintDecl, DeclFits;
    if ds != [] {
      var tail := PrintUnit(ds[1..]);
      DeclParses(ds[0], s, tail);
      DeclStarts(ds[0], tail);
      UnitParses(n + 1, ds[1..], ParseFunction(s).1);
    }
  }

  lemma {:induction false} DeclStarts(d: Declaration, tail: seq<Token>)
    ensures PrintDecl(d) + tail != [] && TypeOfToken((PrintDecl(d) + tail)[0]) == Some(d.returnType)
    ensures !(PrintDecl(d) + tail)[0].kind.TEof?
  {
    TypeTokenIsRead(d.returnType);
  }
}
