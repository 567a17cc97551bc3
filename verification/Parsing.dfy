/**
  The parser as functions of its state: a Pratt parser for expressions, statements by
  recursive descent, and error recovery. Every function has a value on every token stream;
  where the original follows a null pointer or writes past an array instead, the state is
  marked with that fault, and what the functions give from there on stands for nothing.
 */
module Parsing {
  import opened Limits
  import opened Words
  import opened Ast
  import opened Tokens

  const EofToken: Token := Token(TEof, "")

  /** The array that a parameter list is read into has room for so many. */
  const PARAM_ROOM: nat := 16

  /** A null pointer followed where a tree was looked into, or a parameter written past the array. */
  datatype Fault = NullTree | ParamOverrun

  /**
    The token just taken, the tokens to come, and whether an error is being recovered from.
    `fault` is what went wrong first on the way, if anything did.
   */
  datatype PState = PState(
    current: Token, rest: seq<Token>, panic: bool, depth: nat, errors: nat, fault: Option<Fault>)

  function Next(s: PState): Token {
    if s.rest == [] then EofToken else s.rest[0]
  }

  /** The end of the input is never passed. */
  function Advance(s: PState): (r: PState)
    ensures r.depth == s.depth && |r.rest| <= |s.rest|
    ensures s.rest != [] ==> |r.rest| < |s.rest|
  {
    s.(current := Next(s), rest := if s.rest == [] then [] else s.rest[1..])
  }

  /** Only the first error of a panic is reported. */
  function Error(s: PState): PState {
    if s.panic then s else s.(panic := true, errors := s.errors + 1)
  }

  /** The first fault is the one that counts. */
  function Break(s: PState, fault: Fault): PState {
    if s.fault.Some? then s else s.(fault := Some(fault))
  }

  predicate AtEnd(s: PState) {
    Next(s).kind.TEof?
  }

  predicate StopsRecovery(k: Kind) {
    k.TIf? || k.TWhile? || k.TReturn? || k.TInt? || k.TLBrace?
  }

  /** Skips to a place where a statement may start; it may be here. */
  function Synchronize(s: PState): (r: PState)
    ensures r.depth == s.depth && |r.rest| <= |s.rest|
    decreases |s.rest|
  {
    var s0 := s.(panic := false);
    if s0.rest == [] || AtEnd(s0) || s0.current.kind.TSemicolon? || StopsRecovery(Next(s0).kind) then s0
    else Synchronize(Advance(s0))
  }

  function Consume(s: PState, k: Kind): (r: PState)
    ensures r.depth == s.depth && |r.rest| <= |s.rest|
    ensures Next(s).kind == k && s.rest != [] ==> r == Advance(s).(panic := false) && |r.rest| < |s.rest|
  {
    if Next(s).kind == k then Advance(s).(panic := false) else Synchronize(Error(s))
  }

  // --- Expressions -------------------------------------------------------------------------

  /** No tree, or a tree, which is whole unless there is a hole in it: an operand or condition without a tree. */
  datatype Parsed = Nothing | Node(e: Expr, whole: bool)

  const Hole: Expr := Number("", Void)

  function TreeOf(p: Parsed): Expr {
    if p.Node? then p.e else Hole
  }

  predicate Whole(p: Parsed) {
    p.Node? && p.whole
  }

  /** Where an expression may be missing. */
  predicate NoHole(p: Parsed) {
    p.Nothing? || p.whole
  }

  function TreeIfAny(p: Parsed): Option<Expr> {
    if p.Node? then Some(p.e) else None
  }

  /** An expression of operators that bind tighter than `prec`. */
  function ParseExpr(prec: nat, s: PState): (r: (Parsed, PState))
    ensures r.1.depth == s.depth && |r.1.rest| <= |s.rest|
    ensures s.depth < MAX_EXPRESSION_DEPTH && s.rest != [] ==> |r.1.rest| < |s.rest|
    decreases |s.rest|, 2
  {
    if s.depth >= MAX_EXPRESSION_DEPTH then (Nothing, Error(s))
    else
      var s1 := Advance(s.(depth := s.depth + 1));
      if s.rest == [] || !HasPrefix(s1.current.kind) then (Nothing, Error(s1).(depth := s.depth))
      else
        var (left, s2) := ParsePrefix(s1);
        var (e, s3) := ParseLoop(prec, left, s2);
        (e, s3.(depth := s.depth))
  }

  /** What the current token starts. */
  function ParsePrefix(s: PState): (r: (Parsed, PState))
    ensures r.1.depth == s.depth && |r.1.rest| <= |s.rest|
    decreases |s.rest|, 4
  {
    var k := s.current.kind;
    if k.TNumber? then (Node(Number(s.current.text, Void), true), s)
    else if k.TIdentifier? then (Node(Identifier(s.current.text, Void), true), s)
    else if k.TLParen? then
      var (e, s1) := ParseExpr(PREC_NONE, s);
      (e, Consume(s1, TRParen))
    else
      var (e, s1) := ParseExpr(PREC_UNARY, s);
      (if UnaryOf(k).None? then Nothing else Node(Unary(UnaryOf(k).value, TreeOf(e), Void), Whole(e)), s1)
  }

  function ParseLoop(prec: nat, left: Parsed, s: PState): (r: (Parsed, PState))
    ensures r.1.depth == s.depth && |r.1.rest| <= |s.rest|
    decreases |s.rest|, 3
  {
    if s.rest == [] || Precedence(Next(s).kind) <= prec then (left, s)
    else
      var (left1, s1) := ParseInfix(left, Advance(s));
      ParseLoop(prec, left1, s1)
  }

  /** The current token continues the expression. Assignments and calls look into the tree on their left. */
  function ParseInfix(left: Parsed, s: PState): (r: (Parsed, PState))
    ensures r.1.depth == s.depth && |r.1.rest| <= |s.rest|
    decreases |s.rest|, 4
  {
    var k := s.current.kind;
    if k.TEqual? then
      if left.Nothing? then (Nothing, Break(s, NullTree))
      else if left.e.Identifier? then
        var (e, s1) := ParseExpr(PREC_ASSIGNMENT, s);
        (Node(Assign(left.e.name, TreeOf(e), Void), Whole(e)), s1)
      else (Nothing, Error(s))
    else if k.TLParen? then
      if left.Nothing? then (Nothing, Break(s, NullTree))
      else if left.e.Identifier? then
        var (args, whole, s1) := if Next(s).kind.TRParen? then ([], true, s) else ParseArgs(0, s);
        (Node(Call(left.e.name, args, Void), whole), Consume(s1, TRParen))
      else (Nothing, Error(s))
    else if BinaryOf(k).None? then (left, s)
    else
      var (e, s1) := ParseExpr(Precedence(k), s);
      (Node(Binary(BinaryOf(k).value, TreeOf(left), TreeOf(e), Void), Whole(left) && Whole(e)), s1)
  }

  /** Arguments from number `n` on. After a failure, those before it stay. */
  function ParseArgs(n: nat, s: PState): (r: (seq<Expr>, bool, PState))
    ensures r.2.depth == s.depth && |r.2.rest| <= |s.rest|
    decreases |s.rest|, 3
  {
    if n >= MAX_PARAMS_PER_FUNCTION then ([], true, Synchronize(Error(s)))
    else
      var (a, s1) := ParseExpr(PREC_ASSIGNMENT, s);
      if a.Nothing? then ([], true, Synchronize(s1))
      else if s1.rest == [] || !Next(s1).kind.TComma? then ([a.e], a.whole, s1)
      else
        var (rest, whole, s2) := ParseArgs(n + 1, Advance(s1));
        ([a.e] + rest, a.whole && whole, s2)
  }

  // --- Statements ----------------------------------------------------------------------------

  datatype ParsedStmt = NoStmt | StmtNode(s: Stmt, whole: bool)

  /** A missing branch or loop body does nothing. */
  function StmtOf(p: ParsedStmt): Stmt {
    if p.StmtNode? then p.s else Block([])
  }

  function StmtIfAny(p: ParsedStmt): Option<Stmt> {
    if p.StmtNode? then Some(p.s) else None
  }

  predicate StmtNoHole(p: ParsedStmt) {
    p.NoStmt? || p.whole
  }

  /** Outside expressions. A statement that is not at the end takes at least one token. */
  function ParseStmt(s: PState): (r: (ParsedStmt, PState))
    requires s.depth == 0
    ensures r.1.depth == 0 && |r.1.rest| <= |s.rest|
    ensures s.rest != [] ==> |r.1.rest| < |s.rest|
    decreases |s.rest|, 5
  {
    match Next(s).kind
    case TInt => ParseVarDecl(s)
    case TChar => ParseVarDecl(s)
    case TVoid => ParseVarDecl(s)
    case TIf => ParseIf(s)
    case TWhile => ParseWhile(s)
    case TReturn => ParseReturn(s)
    case TLBrace => ParseBlock(s)
    case _ => ParseExprStmt(s)
  }

  function ParseExprStmt(s: PState): (r: (ParsedStmt, PState))
    requires s.depth == 0
    ensures r.1.depth == 0 && |r.1.rest| <= |s.rest| && (s.rest != [] ==> |r.1.rest| < |s.rest|)
  {
    var (e, s1) := ParseExpr(PREC_NONE, s);
    (if e.Node? then StmtNode(ExprStmt(e.e), e.whole) else NoStmt, Consume(s1, TSemicolon))
  }

  function ParseVarDecl(s: PState): (r: (ParsedStmt, PState))
    requires s.depth == 0
    ensures r.1.depth == 0 && |r.1.rest| <= |s.rest|
    ensures TypeOfToken(Next(s)).Some? ==> |r.1.rest| < |s.rest|
  {
    var (ty, s1) := ParseType(s);
    if s1.panic then (NoStmt, s1)
    else
      var s2 := Consume(s1, TIdentifier);
      var x := s2.current.text;
      if s2.rest != [] && Next(s2).kind.TEqual? then
        var (e, s3) := ParseExpr(PREC_NONE, Advance(s2));
        (StmtNode(VarDecl(x, ty, TreeIfAny(e)), NoHole(e)), Consume(s3, TSemicolon))
      else (StmtNode(VarDecl(x, ty, None), true), Consume(s2, TSemicolon))
  }

  function ParseType(s: PState): (r: (DataType, PState))
    ensures r.1.depth == s.depth && |r.1.rest| <= |s.rest|
    ensures TypeOfToken(Next(s)).Some? ==> |r.1.rest| < |s.rest|
  {
    match TypeOfToken(Next(s))
    case Some(t) => (t, Advance(s))
    case None => (Void, Error(s))
  }

  function ParseReturn(s: PState): (r: (ParsedStmt, PState))
    requires s.depth == 0
    ensures r.1.depth == 0 && |r.1.rest| <= |s.rest|
    ensures Next(s).kind.TReturn? ==> |r.1.rest| < |s.rest|
  {
    var s1 := Consume(s, TReturn);
    if Next(s1).kind.TSemicolon? then (StmtNode(Return(None), true), Consume(s1, TSemicolon))
    else
      var (e, s2) := ParseExpr(PREC_NONE, s1);
      (StmtNode(Return(TreeIfAny(e)), NoHole(e)), Consume(s2, TSemicolon))
  }

  /** A parenthesised condition after keyword `k`. */
  function ParseCondition(k: Kind, s: PState): (r: (Parsed, PState))
    requires s.depth == 0
    ensures r.1.depth == 0 && |r.1.rest| <= |s.rest|
    ensures Next(s).kind == k && !k.TEof? ==> |r.1.rest| < |s.rest|
  {
    var s1 := Consume(Consume(s, k), TLParen);
    var (c, s2) := ParseExpr(PREC_NONE, s1);
    (c, Consume(s2, TRParen))
  }

  function ParseIf(s: PState): (r: (ParsedStmt, PState))
    requires s.depth == 0 && Next(s).kind.TIf?
    ensures r.1.depth == 0 && |r.1.rest| < |s.rest|
    decreases |s.rest|, 4
  {
    var (c, s1) := ParseCondition(TIf, s);
    var (thn, s2) := ParseStmt(s1);
    if s2.rest != [] && Next(s2).kind.TElse? then
      var (els, s3) := ParseStmt(Advance(s2));
      (StmtNode(If(TreeOf(c), StmtOf(thn), StmtIfAny(els)), Whole(c) && StmtNoHole(thn) && StmtNoHole(els)), s3)
    else (StmtNode(If(TreeOf(c), StmtOf(thn), None), Whole(c) && StmtNoHole(thn)), s2)
  }

  function ParseWhile(s: PState): (r: (ParsedStmt, PState))
    requires s.depth == 0 && Next(s).kind.TWhile?
    ensures r.1.depth == 0 && |r.1.rest| < |s.rest|
    decreases |s.rest|, 4
  {
    var (c, s1) := ParseCondition(TWhile, s);
    var (body, s2) := ParseStmt(s1);
    (StmtNode(While(TreeOf(c), StmtOf(body)), Whole(c) && StmtNoHole(body)), s2)
  }

  function ParseBlock(s: PState): (r: (ParsedStmt, PState))
    requires s.depth == 0
    ensures r.1.depth == 0 && |r.1.rest| <= |s.rest|
    ensures Next(s).kind.TLBrace? ==> |r.1.rest| < |s.rest|
    decreases |s.rest|, if Next(s).kind.TLBrace? then 4 else 7
  {
    var s1 := Consume(s, TLBrace);
    var (ss, whole, s2) := ParseStmts(0, s1);
    (StmtNode(Block(ss), whole), Consume(s2, TRBrace))
  }

  /** The statements of a block from number `n` on; one that fails is left out. */
  function ParseStmts(n: nat, s: PState): (r: (seq<Stmt>, bool, PState))
    requires s.depth == 0
    ensures r.2.depth == 0 && |r.2.rest| <= |s.rest|
    decreases |s.rest|, 6
  {
    if s.rest == [] || Next(s).kind.TRBrace? || AtEnd(s) then ([], true, s)
    else if n >= MAX_BLOCK_STATEMENTS then ([], true, Synchronize(Error(s)))
    else
      var (st, s1) := ParseStmt(s);
      if st.StmtNode? then
        var (rest, whole, s2) := ParseStmts(n + 1, s1);
        ([st.s] + rest, st.whole && whole, s2)
      else
        var (rest, whole, s2) := ParseStmts(n, Synchronize(s1));
        (rest, whole, s2)
  }

  // --- Functions --------------------------------------------------------------------------------

  /** A prototype has no body. */
  datatype Declaration = Declaration(name: string, returnType: DataType, params: seq<Param>, body: Option<Stmt>)

  /** No declaration, or one that is whole unless there is a hole in its body. */
  datatype ParsedDecl = NoDecl | DeclNode(d: Declaration, whole: bool)

  function ParseFunction(s: PState): (r: (ParsedDecl, PState))
    requires s.depth == 0
    ensures r.1.depth == 0 && |r.1.rest| <= |s.rest|
    ensures TypeOfToken(Next(s)).Some? ==> |r.1.rest| < |s.rest|
  {
    var (ty, s1) := ParseType(s);
    if s1.panic then (NoDecl, s1)
    else
      var s2 := Consume(s1, TIdentifier);
      var name := s2.current.text;
      var (params, s3) := ParseParams(Consume(s2, TLParen));
      var s4 := Consume(s3, TRParen);
      if s4.rest != [] && Next(s4).kind.TSemicolon? then (DeclNode(Declaration(name, ty, params, None), true),
        Advance(s4))
      else
        var (body, s5) := ParseBlock(s4);
        (DeclNode(Declaration(name, ty, params, Some(StmtOf(body))), StmtNoHole(body)), s5)
  }

  /** Nothing, the word void, or a list. */
  function ParseParams(s: PState): (r: (seq<Param>, PState))
    ensures r.1.depth == s.depth && |r.1.rest| <= |s.rest|
  {
    if Next(s).kind.TRParen? then ([], s)
    else if Next(s).kind.TVoid? then ([], Advance(s))
    else
      var (ps, s1) := ParseParamList(s);
      (ps, if |ps| > PARAM_ROOM then Break(s1, ParamOverrun) else s1)
  }

  function ParseParamList(s: PState): (r: (seq<Param>, PState))
    ensures r.1.depth == s.depth && |r.1.rest| <= |s.rest|
    decreases |s.rest|
  {
    var (ty, s1) := ParseType(s);
    var s2 := Consume(s1, TIdentifier);
    var p := Param(s2.current.text, ty);
    if s2.rest != [] && Next(s2).kind.TComma? then
      var (rest, s3) := ParseParamList(Advance(s2));
      ([p] + rest, s3)
    else ([p], s2)
  }

  /** A whole file; nothing is left of it when a declaration does not start with a type. */
  function ParseUnit(n: nat, s: PState): (r: (Option<seq<ParsedDecl>>, PState))
    requires s.depth == 0
    decreases |s.rest|
  {
    if s.rest == [] || AtEnd(s) then (Some([]), s)
    else if n >= MAX_FUNCTION_COUNT || TypeOfToken(Next(s)).None? then (None, Error(s))
    else
      var (d, s1) := ParseFunction(s);
      var (rest, s2) := ParseUnit(n + 1, s1);
      (if rest.None? then None else Some([d] + rest.value), s2)
  }

  /** What reading a file comes to: a fault, no declarations, or declarations and a count of errors. */
  datatype FileResult = Broken(fault: Fault) | Refused(errors: nat) | Read(ds: seq<ParsedDecl>, errors: nat)

  function ReadTokens(tokens: seq<Token>): FileResult {
    var (r, s) := ParseUnit(0, StartOf(tokens));
    if s.fault.Some? then Broken(s.fault.value) else if r.None? then Refused(s.errors) else Read(r.value, s.errors)
  }

  function StartOf(tokens: seq<Token>): PState {
    PState(Token(TInt, ""), tokens, false, 0, 0, None)
  }
}
