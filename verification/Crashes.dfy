/**
  Where the parser breaks down. An assignment or a call looks into the tree on its left, and
  after an error there may be none; and a parameter list is read into an array of 16. The
  predicates follow the parser and say that no `=` and no `(` after an expression is met without
  a tree, and that no list is longer; the parser breaks down exactly when they fail.
 */
module Crashes {
  import opened Limits
  import opened Words
  import opened Ast
  import opened Tokens
  import opened Parsing
  import opened Printing

  // --- No infix without a tree -----------------------------------------------------------------

  predicate SafeExpr(prec: nat, s: PState)
    decreases |s.rest|, 2
  {
    var s1 := Advance(s.(depth := s.depth + 1));
    s.depth >= MAX_EXPRESSION_DEPTH || s.rest == [] || !HasPrefix(s1.current.kind) ||
    (SafePrefix(s1) && SafeLoop(prec, ParsePrefix(s1).0, ParsePrefix(s1).1))
  }

  predicate SafePrefix(s: PState)
    decreases |s.rest|, 4
  {
    var k := s.current.kind;
    k.TNumber? || k.TIdentifier? || SafeExpr(if k.TLParen? then PREC_NONE else PREC_UNARY, s)
  }

  predicate SafeLoop(prec: nat, left: Parsed, s: PState)
    decreases |s.rest|, 3
  {
    s.rest == [] || Precedence(Next(s).kind) <= prec ||
    (SafeInfix(left, Advance(s)) && SafeLoop(prec, ParseInfix(left, Advance(s)).0, ParseInfix(left, Advance(s)).1))
  }

  predicate SafeInfix(left: Parsed, s: PState)
    decreases |s.rest|, 4
  {
    var k := s.current.kind;
    if k.TEqual? then left.Node? && (left.e.Identifier? ==> SafeExpr(PREC_ASSIGNMENT, s))
    else if k.TLParen? then left.Node? && (left.e.Identifier? && !Next(s).kind.TRParen? ==> SafeArgs(0, s))
    else BinaryOf(k).None? || SafeExpr(Precedence(k), s)
  }

  predicate SafeArgs(n: nat, s: PState)
    decreases |s.rest|, 3
  {
    n >= MAX_PARAMS_PER_FUNCTION ||
    (&& SafeExpr(PREC_ASSIGNMENT, s)
     && var a, s1 := ParseExpr(PREC_ASSIGNMENT, s).0, ParseExpr(PREC_ASSIGNMENT, s).1;
        a.Nothing? || s1.rest == [] || !Next(s1).kind.TComma? || SafeArgs(n + 1, Advance(s1)))
  }

  predicate SafeStmt(s: PState)
    requires s.depth == 0
    decreases |s.rest|, 5
  {
    match Next(s).kind
    case TInt => SafeVarDecl(s)
    case TChar => SafeVarDecl(s)
    case TVoid => SafeVarDecl(s)
    case TIf => SafeIf(s)
    case TWhile => SafeWhile(s)
    case TReturn => SafeReturn(s)
    case TLBrace => SafeBlock(s)
    case _ => SafeExpr(PREC_NONE, s)
  }

  predicate SafeVarDecl(s: PState) {
    var s1 := ParseType(s).1;
    var s2 := Consume(s1, TIdentifier);
    s1.panic || s2.rest == [] || !Next(s2).kind.TEqual? || SafeExpr(PREC_NONE, Advance(s2))
  }

  predicate SafeReturn(s: PState) {
    var s1 := Consume(s, TReturn);
    Next(s1).kind.TSemicolon? || SafeExpr(PREC_NONE, s1)
  }

  predicate SafeCondition(k: Kind, s: PState) {
    SafeExpr(PREC_NONE, Consume(Consume(s, k), TLParen))
  }

  predicate SafeIf(s: PState)
    requires s.depth == 0 && Next(s).kind.TIf?
    decreases |s.rest|, 4
  {
    var s1 := ParseCondition(TIf, s).1;
    var s2 := ParseStmt(s1).1;
    && SafeCondition(TIf, s) && SafeStmt(s1)
    && (s2.rest != [] && Next(s2).kind.TElse? ==> SafeStmt(Advance(s2)))
  }

  predicate SafeWhile(s: PState)
    requires s.depth == 0 && Next(s).kind.TWhile?
    decreases |s.rest|, 4
  {
    SafeCondition(TWhile, s) && SafeStmt(ParseCondition(TWhile, s).1)
  }

  predicate SafeBlock(s: PState)
    requires s.depth == 0
    decreases |s.rest|, if Next(s).kind.TLBrace? then 4 else 7
  {
    SafeStmts(0, Consume(s, TLBrace))
  }

  predicate SafeStmts(n: nat, s: PState)
    requires s.depth == 0
    decreases |s.rest|, 6
  {
    s.rest == [] || Next(s).kind.TRBrace? || AtEnd(s) || n >= MAX_BLOCK_STATEMENTS ||
    (&& SafeStmt(s)
     && var st, s1 := ParseStmt(s).0, ParseStmt(s).1;
        if st.StmtNode? then SafeStmts(n + 1, s1) else SafeStmts(n, Synchronize(s1)))
  }

  predicate SafeParams(s: PState) {
    |ParseParams(s).0| <= PARAM_ROOM
  }

  predicate SafeFunction(s: PState)
    requires s.depth == 0
  {
    var s1 := ParseType(s).1;
    var s3 := Consume(Consume(s1, TIdentifier), TLParen);
    var s4 := Consume(ParseParams(s3).1, TRParen);
    s1.panic || (SafeParams(s3) && ((s4.rest != [] && Next(s4).kind.TSemicolon?) || SafeBlock(s4)))
  }

  predicate SafeUnit(n: nat, s: PState)
    requires s.depth == 0
    decreases |s.rest|
  {
    s.rest == [] || AtEnd(s) || n >= MAX_FUNCTION_COUNT || TypeOfToken(Next(s)).None? ||
    (SafeFunction(s) && SafeUnit(n + 1, ParseFunction(s).1))
  }

  // --- Streams on which it does not happen ------------------------------------------------------

  predicate LooksLeft(k: Kind) {
    k.TEqual? || k.TLParen?
  }

  /** An `=` or `(` directly after a token that may leave the parser without a tree. */
  predicate Clash(a: Token, b: Token) {
    (a.kind.TRParen? || a.kind.TSemicolon? || LooksLeft(a.kind)) && LooksLeft(b.kind)
  }

  /** No clash between the current token and those to come, nor among them. */
  predicate CalmAt(current: Token, rest: seq<Token>) {
    && (rest != [] ==> !Clash(current, rest[0]))
    && forall i :: 0 < i < |rest| ==> !Clash(rest[i - 1], rest[i])
  }

  predicate Calm(s: PState) {
    CalmAt(s.current, s.rest)
  }

  predicate Quiet(s: PState) {
    !LooksLeft(Next(s).kind)
  }

  lemma {:induction false} CalmOn(current: Token, rest: seq<Token>)
    requires CalmAt(current, rest) && rest != []
    ensures CalmAt(rest[0], rest[1..])
  {
    forall i | 0 < i < |rest[1..]| ensures !Clash(rest[1..][i - 1], rest[1..][i]) {
      assert rest[1..][i - 1] == rest[i] && rest[1..][i] == rest[i + 1];
    }
  }

  lemma {:induction false} CalmQuiet(s: PState)
    requires Calm(s) && (s.current.kind.TRParen? || s.current.kind.TSemicolon? || LooksLeft(s.current.kind))
    ensures Quiet(s)
  {
  }

  // --- What every step keeps -------------------------------------------------------------------

  /** A panic has been reported. */
  predicate Reported(s: PState) {
    s.panic ==> s.errors > 0
  }

  /**
    From `s` to `s1` errors only add up, and a fault stays. There is a new one exactly if the
    way is not safe: a null pointer, after an error. Without clashes the way is safe.
   */
  predicate Kept(s: PState, s1: PState, safe: bool) {
    && s.errors <= s1.errors && Reported(s1)
    && (s.fault.Some? || safe ==> s1.fault == s.fault)
    && (s.fault.None? && !safe ==> s1.fault == Some(NullTree) && s1.errors > 0)
    && (Calm(s) ==> Calm(s1) && safe)
  }

  /** The same from the middle of an expression, which may have had a clash before. */
  predicate KeptOn(calm: bool, s: PState, s1: PState, safe: bool) {
    && s.errors <= s1.errors && Reported(s1)
    && (s.fault.Some? || safe ==> s1.fault == s.fault)
    && (s.fault.None? && !safe ==> s1.fault == Some(NullTree) && s1.errors > 0)
    && (calm ==> Calm(s1) && safe)
  }

  /** The same where parameters are read. */
  predicate KeptFile(s: PState, s1: PState, safe: bool) {
    && s.errors <= s1.errors && Reported(s1)
    && (s.fault.Some? || safe ==> s1.fault == s.fault)
    && (s.fault.None? && !safe ==> s1.fault.Some? && (s1.fault == Some(NullTree) ==> s1.errors > 0))
    && (Calm(s) ==> Calm(s1) && (s.fault.None? ==> s1.fault != Some(NullTree)))
  }

  /** Without a whole tree there has been an error. */
  predicate Explained(p: Parsed, s: PState) {
    !Whole(p) ==> s.errors > 0
  }

  predicate DeclWhole(p: ParsedDecl) {
    p.DeclNode? && p.whole
  }

  predicate TooWide(p: ParsedDecl) {
    p.DeclNode? && |p.d.params| > PARAM_ROOM
  }

  predicate AnyTooWide(ds: seq<ParsedDecl>) {
    exists i :: 0 <= i < |ds| && TooWide(ds[i])
  }

  lemma {:induction false} AnyMore(d: ParsedDecl, ds: seq<ParsedDecl>)
    ensures AnyTooWide([d] + ds) <==> TooWide(d) || AnyTooWide(ds)
  {
    var all := [d] + ds;
    if TooWide(d) {
      assert TooWide(all[0]);
    }
    if AnyTooWide(ds) {
      var i :| 0 <= i < |ds| && TooWide(ds[i]);
      assert TooWide(all[i + 1]);
    }
  }

  predicate AllWhole(ds: seq<ParsedDecl>) {
    forall i :: 0 <= i < |ds| ==> DeclWhole(ds[i])
  }

  /** Without a statement, or with a hole in it, there has been an error. */
  predicate StmtExplained(p: ParsedStmt, s: PState) {
    !(p.StmtNode? && p.whole) ==> s.errors > 0
  }

  lemma {:induction false} ErrorKept(s: PState)
    requires Reported(s)
    ensures Kept(s, Error(s), true) && Error(s).errors > 0
  {
  }

  lemma {:induction false} AdvanceKept(s: PState)
    requires Reported(s)
    ensures Kept(s, Advance(s), true)
  {
    hide CalmAt;
    if s.rest != [] && Calm(s) {
      CalmOn(s.current, s.rest);
    }
    EndIsCalm(s.current);
  }

  lemma {:induction false} EndIsCalm(t: Token)
    ensures CalmAt(t, []) && CalmAt(EofToken, [])
  {
  }

  lemma {:induction false} SynchronizeKept(s: PState)
    ensures Kept(s, Synchronize(s), true)
    ensures Calm(s) ==> Quiet(Synchronize(s))
    decreases |s.rest|
  {
    hide CalmAt;
    var s0 := s.(panic := false);
    if s0.rest != [] && !AtEnd(s0) && !s0.current.kind.TSemicolon? && !StopsRecovery(Next(s0).kind) {
      AdvanceKept(s0);
      SynchronizeKept(Advance(s0));
    } else if Calm(s0) && s0.current.kind.TSemicolon? {
      CalmQuiet(s0);
    }
  }

  lemma {:induction false} ConsumeKept(s: PState, k: Kind)
    requires Reported(s)
    ensures Kept(s, Consume(s, k), true)
    ensures Calm(s) && (k.TRParen? || k.TSemicolon?) ==> Quiet(Consume(s, k))
  {
    hide Synchronize, CalmAt;
    AdvanceKept(s);
    if Calm(s) && (k.TRParen? || k.TSemicolon?) && Next(s).kind == k {
      CalmQuiet(Advance(s));
    }
    ErrorKept(s);
    SynchronizeKept(Error(s));
  }

  lemma {:induction false} ExprKept(prec: nat, s: PState)
    requires Reported(s)
    ensures Kept(s, ParseExpr(prec, s).1, SafeExpr(prec, s)) && Explained(ParseExpr(prec, s).0, ParseExpr(prec, s).1)
    decreases |s.rest|, 2
  {
    hide CalmAt, ParsePrefix, ParseLoop, SafePrefix, SafeLoop, HasPrefix;
    ErrorKept(s);
    if s.depth < MAX_EXPRESSION_DEPTH {
      var s1 := Advance(s.(depth := s.depth + 1));
      AdvanceKept(s.(depth := s.depth + 1));
      ErrorKept(s1);
      if s.rest != [] && HasPrefix(s1.current.kind) {
        PrefixKept(s1);
        LoopKept(Calm(s), prec, ParsePrefix(s1).0, ParsePrefix(s1).1);
      }
    }
  }

  lemma {:induction false} PrefixKept(s: PState)
    requires Reported(s) && HasPrefix(s.current.kind)
    ensures Kept(s, ParsePrefix(s).1, SafePrefix(s)) && Explained(ParsePrefix(s).0, ParsePrefix(s).1)
    ensures Calm(s) && ParsePrefix(s).0.Nothing? ==> Quiet(ParsePrefix(s).1)
    decreases |s.rest|, 4
  {
    hide CalmAt, ParseExpr, SafeExpr, Consume;
    var k := s.current.kind;
    if k.TLParen? {
      ExprKept(PREC_NONE, s);
      ConsumeKept(ParseExpr(PREC_NONE, s).1, TRParen);
    } else if !k.TNumber? && !k.TIdentifier? {
      ExprKept(PREC_UNARY, s);
    }
  }

  lemma {:induction false} LoopKept(calm: bool, prec: nat, left: Parsed, s: PState)
    requires Reported(s) && Explained(left, s) && (calm ==> Calm(s) && (left.Nothing? ==> Quiet(s)))
    ensures KeptOn(calm, s, ParseLoop(prec, left, s).1, SafeLoop(prec, left, s))
    ensures Explained(ParseLoop(prec, left, s).0, ParseLoop(prec, left, s).1)
    decreases |s.rest|, 3
  {
    hide CalmAt, ParseInfix, SafeInfix, Precedence;
    if s.rest != [] && Precedence(Next(s).kind) > prec {
      AdvanceKept(s);
      InfixKept(calm, left, Advance(s));
      LoopKept(calm, prec, ParseInfix(left, Advance(s)).0, ParseInfix(left, Advance(s)).1);
    }
  }

  lemma {:induction false} Operators(k: Kind)
    requires Precedence(k) > PREC_NONE
    ensures LooksLeft(k) || BinaryOf(k).Some?
  {
  }

  lemma {:induction false} InfixKept(calm: bool, left: Parsed, s: PState)
    requires Reported(s) && Explained(left, s) && (calm ==> Calm(s) && (left.Nothing? ==> !LooksLeft(s.current.kind)))
    requires Precedence(s.current.kind) > PREC_NONE
    ensures KeptOn(calm, s, ParseInfix(left, s).1, SafeInfix(left, s))
    ensures calm && ParseInfix(left, s).0.Nothing? ==> Quiet(ParseInfix(left, s).1)
    ensures Explained(ParseInfix(left, s).0, ParseInfix(left, s).1)
    decreases |s.rest|, 4
  {
    hide CalmAt, ParseExpr, SafeExpr, ParseArgs, SafeArgs, Consume, BinaryOf, Precedence;
    var k := s.current.kind;
    Operators(k);
    ErrorKept(s);
    if calm && LooksLeft(k) {
      CalmQuiet(s);
    }
    if k.TEqual? {
      if left.Node? && left.e.Identifier? {
        ExprKept(PREC_ASSIGNMENT, s);
      }
    } else if k.TLParen? {
      if left.Node? && left.e.Identifier? {
        if Next(s).kind.TRParen? {
          ConsumeKept(s, TRParen);
        } else {
          ArgsKept(0, s);
          ConsumeKept(ParseArgs(0, s).2, TRParen);
        }
      }
    } else if BinaryOf(k).Some? {
      ExprKept(Precedence(k), s);
    }
  }

  lemma {:induction false} ArgsKept(n: nat, s: PState)
    requires Reported(s)
    ensures Kept(s, ParseArgs(n, s).2, SafeArgs(n, s)) && (!ParseArgs(n, s).1 ==> ParseArgs(n, s).2.errors > 0)
    decreases |s.rest|, 3
  {
    hide CalmAt, ParseExpr, SafeExpr, Synchronize;
    ErrorKept(s);
    SynchronizeKept(Error(s));
    if n < MAX_PARAMS_PER_FUNCTION {
      ExprKept(PREC_ASSIGNMENT, s);
      var a, s1 := ParseExpr(PREC_ASSIGNMENT, s).0, ParseExpr(PREC_ASSIGNMENT, s).1;
      SynchronizeKept(s1);
      if !a.Nothing? && s1.rest != [] && Next(s1).kind.TComma? {
        AdvanceKept(s1);
        ArgsKept(n + 1, Advance(s1));
      }
    }
  }

  // --- Statements and files ----------------------------------------------------------------------

  lemma {:induction false} TypeKept(s: PState)
    requires Reported(s)
    ensures Kept(s, ParseType(s).1, true)
  {
    hide CalmAt, TypeOfToken;
    ErrorKept(s);
    AdvanceKept(s);
  }

  lemma {:induction false} StmtKept(s: PState)
    requires s.depth == 0 && Reported(s)
    ensures Kept(s, ParseStmt(s).1, SafeStmt(s))
    ensures StmtExplained(ParseStmt(s).0, ParseStmt(s).1)
    decreases |s.rest|, 5
  {
    hide CalmAt, ParseVarDecl, ParseIf, ParseWhile, ParseReturn, ParseBlock, ParseExprStmt, Kept,
      SafeVarDecl, SafeIf, SafeWhile, SafeReturn, SafeBlock, SafeExpr;
    var k := Next(s).kind;
    if k.TInt? || k.TChar? || k.TVoid? {
      VarDeclKept(s);
    } else if k.TIf? {
      IfKept(s);
    } else if k.TWhile? {
      WhileKept(s);
    } else if k.TReturn? {
      ReturnKept(s);
    } else if k.TLBrace? {
      BlockKept(s);
    } else {
      ExprStmtKept(s);
    }
  }

  lemma {:induction false} ExprStmtKept(s: PState)
    requires s.depth == 0 && Reported(s)
    ensures Kept(s, ParseExprStmt(s).1, SafeExpr(PREC_NONE, s))
    ensures StmtExplained(ParseExprStmt(s).0, ParseExprStmt(s).1)
  {
    hide CalmAt, ParseExpr, SafeExpr, Consume;
    ExprKept(PREC_NONE, s);
    ConsumeKept(ParseExpr(PREC_NONE, s).1, TSemicolon);
  }

  lemma {:induction false} VarDeclKept(s: PState)
    requires s.depth == 0 && Reported(s)
    ensures Kept(s, ParseVarDecl(s).1, SafeVarDecl(s))
    ensures StmtExplained(ParseVarDecl(s).0, ParseVarDecl(s).1)
  {
    hide CalmAt, ParseExpr, SafeExpr, Consume, ParseType;
    TypeKept(s);
    var s1 := ParseType(s).1;
    ConsumeKept(s1, TIdentifier);
    var s2 := Consume(s1, TIdentifier);
    ConsumeKept(s2, TSemicolon);
    AdvanceKept(s2);
    ExprKept(PREC_NONE, Advance(s2));
    ConsumeKept(ParseExpr(PREC_NONE, Advance(s2)).1, TSemicolon);
  }

  lemma {:induction false} ReturnKept(s: PState)
    requires s.depth == 0 && Reported(s)
    ensures Kept(s, ParseReturn(s).1, SafeReturn(s))
    ensures StmtExplained(ParseReturn(s).0, ParseReturn(s).1)
  {
    hide CalmAt, ParseExpr, SafeExpr, Consume;
    ConsumeKept(s, TReturn);
    var s1 := Consume(s, TReturn);
    ConsumeKept(s1, TSemicolon);
    ExprKept(PREC_NONE, s1);
    ConsumeKept(ParseExpr(PREC_NONE, s1).1, TSemicolon);
  }

  lemma {:induction false} ConditionKept(k: Kind, s: PState)
    requires s.depth == 0 && Reported(s)
    ensures Kept(s, ParseCondition(k, s).1, SafeCondition(k, s))
    ensures Explained(ParseCondition(k, s).0, ParseCondition(k, s).1)
  {
    hide CalmAt, ParseExpr, SafeExpr, Consume;
    ConsumeKept(s, k);
    ConsumeKept(Consume(s, k), TLParen);
    var s1 := Consume(Consume(s, k), TLParen);
    ExprKept(PREC_NONE, s1);
    ConsumeKept(ParseExpr(PREC_NONE, s1).1, TRParen);
  }

  lemma {:induction false} IfKept(s: PState)
    requires s.depth == 0 && Reported(s) && Next(s).kind.TIf?
    ensures Kept(s, ParseIf(s).1, SafeIf(s))
    ensures StmtExplained(ParseIf(s).0, ParseIf(s).1)
    decreases |s.rest|, 4
  {
    hide CalmAt, ParseCondition, SafeCondition, ParseStmt, SafeStmt;
    ConditionKept(TIf, s);
    var s1 := ParseCondition(TIf, s).1;
    StmtKept(s1);
    var s2 := ParseStmt(s1).1;
    if s2.rest != [] && Next(s2).kind.TElse? {
      AdvanceKept(s2);
      StmtKept(Advance(s2));
    }
  }

  lemma {:induction false} WhileKept(s: PState)
    requires s.depth == 0 && Reported(s) && Next(s).kind.TWhile?
    ensures Kept(s, ParseWhile(s).1, SafeWhile(s))
    ensures StmtExplained(ParseWhile(s).0, ParseWhile(s).1)
    decreases |s.rest|, 4
  {
    hide CalmAt, ParseCondition, SafeCondition, ParseStmt, SafeStmt;
    ConditionKept(TWhile, s);
    StmtKept(ParseCondition(TWhile, s).1);
  }

  lemma {:induction false} BlockKept(s: PState)
    requires s.depth == 0 && Reported(s)
    ensures Kept(s, ParseBlock(s).1, SafeBlock(s))
    ensures StmtExplained(ParseBlock(s).0, ParseBlock(s).1)
    decreases |s.rest|, if Next(s).kind.TLBrace? then 4 else 7
  {
    hide CalmAt, Consume, ParseStmts, SafeStmts;
    ConsumeKept(s, TLBrace);
    StmtsKept(0, Consume(s, TLBrace));
    ConsumeKept(ParseStmts(0, Consume(s, TLBrace)).2, TRBrace);
  }

  lemma {:induction false} StmtsKept(n: nat, s: PState)
    requires s.depth == 0 && Reported(s)
    ensures Kept(s, ParseStmts(n, s).2, SafeStmts(n, s)) && (!ParseStmts(n, s).1 ==> ParseStmts(n, s).2.errors > 0)
    decreases |s.rest|, 6
  {
    hide CalmAt, ParseStmt, SafeStmt, Synchronize;
    if s.rest != [] && !Next(s).kind.TRBrace? && !AtEnd(s) {
      if n >= MAX_BLOCK_STATEMENTS {
        ErrorKept(s);
        SynchronizeKept(Error(s));
      } else {
        StmtKept(s);
        var st, s1 := ParseStmt(s).0, ParseStmt(s).1;
        SynchronizeKept(s1);
        if st.StmtNode? {
          StmtsKept(n + 1, s1);
        } else {
          StmtsKept(n, Synchronize(s1));
        }
      }
    }
  }

  lemma {:induction false} ParamsKept(s: PState)
    requires Reported(s)
    ensures KeptFile(s, ParseParams(s).1, SafeParams(s))
    ensures s.fault.None? ==> ParseParams(s).1.fault == if SafeParams(s) then None else Some(ParamOverrun)
  {
    hide CalmAt, ParseParamList;
    AdvanceKept(s);
    ParamListKept(s);
  }

  lemma {:induction false} ParamListKept(s: PState)
    requires Reported(s)
    ensures Kept(s, ParseParamList(s).1, true)
    decreases |s.rest|
  {
    hide CalmAt, ParseType, Consume;
    TypeKept(s);
    ConsumeKept(ParseType(s).1, TIdentifier);
    var s2 := Consume(ParseType(s).1, TIdentifier);
    if s2.rest != [] && Next(s2).kind.TComma? {
      AdvanceKept(s2);
      ParamListKept(Advance(s2));
    }
  }

  lemma {:induction false} FunctionKept(s: PState)
    requires s.depth == 0 && Reported(s)
    ensures KeptFile(s, ParseFunction(s).1, SafeFunction(s))
    ensures !DeclWhole(ParseFunction(s).0) ==> ParseFunction(s).1.errors > 0
    ensures s.fault.None? && ParseFunction(s).1.errors == 0 ==>
              (ParseFunction(s).1.fault.Some? <==> TooWide(ParseFunction(s).0))
    ensures s.fault.None? && !SafeFunction(s) ==>
              ParseFunction(s).1.fault ==
                Some(if SafeParams(Consume(Consume(ParseType(s).1, TIdentifier), TLParen)) then NullTree
                  else ParamOverrun)
  {
    hide CalmAt, ParseType, Consume, ParseParams, ParseBlock, SafeBlock;
    TypeKept(s);
    var s1 := ParseType(s).1;
    ConsumeKept(s1, TIdentifier);
    var s2 := Consume(s1, TIdentifier);
    ConsumeKept(s2, TLParen);
    ParamsKept(Consume(s2, TLParen));
    var s3 := ParseParams(Consume(s2, TLParen)).1;
    ConsumeKept(s3, TRParen);
    var s4 := Consume(s3, TRParen);
    AdvanceKept(s4);
    BlockKept(s4);
  }

  lemma {:induction false} NoneTooWide()
    ensures !AnyTooWide([])
  {
  }

  lemma {:induction false} UnitKept(n: nat, s: PState)
    requires s.depth == 0 && Reported(s)
    ensures KeptFile(s, ParseUnit(n, s).1, SafeUnit(n, s))
    ensures ParseUnit(n, s).0.None? ==> ParseUnit(n, s).1.errors > 0
    ensures ParseUnit(n, s).0.Some? && ParseUnit(n, s).1.errors == 0 ==> AllWhole(ParseUnit(n, s).0.value)
    ensures s.fault.None? && ParseUnit(n, s).1.errors == 0 ==>
              (ParseUnit(n, s).1.fault.Some? <==> ParseUnit(n, s).0.Some? && AnyTooWide(ParseUnit(n, s).0.value))
    decreases |s.rest|
  {
    hide CalmAt, ParseFunction, SafeFunction, TypeOfToken, TooWide, AnyTooWide;
    NoneTooWide();
    if s.rest != [] && !AtEnd(s) {
      if n >= MAX_FUNCTION_COUNT || TypeOfToken(Next(s)).None? {
        ErrorKept(s);
      } else {
        FunctionKept(s);
        UnitKept(n + 1, ParseFunction(s).1);
        var rest := ParseUnit(n + 1, ParseFunction(s).1).0;
        if rest.Some? {
          AnyMore(ParseFunction(s).0, rest.value);
        }
      }
    }
  }

  /**
    On every stream of tokens the parser comes to an end without a fault exactly when it meets
    no `=` and no `(` after an expression without having a tree for that expression, and no
    parameter list of more than 16; and a null pointer comes only after an error.
   */
  lemma {:induction false} CrashesExactly(tokens: seq<Token>)
    ensures ReadTokens(tokens).Broken? <==> !SafeUnit(0, StartOf(tokens))
    ensures ParseUnit(0, StartOf(tokens)).1.errors == 0 ==> ReadTokens(tokens) != Broken(NullTree)
  {
    hide ParseUnit, SafeUnit;
    UnitKept(0, StartOf(tokens));
  }

  /** A file without an error breaks the parser exactly when one of its declarations has more than 16 parameters. */
  lemma {:induction false} WideExactly(tokens: seq<Token>)
    requires ParseUnit(0, StartOf(tokens)).1.errors == 0
    ensures var ds := ParseUnit(0, StartOf(tokens)).0;
            && ds.Some? && AllWhole(ds.value)
            && ReadTokens(tokens) ==
                 if AnyTooWide(ds.value) then Broken(ParamOverrun) else Read(ds.value, 0)
  {
    hide ParseUnit, SafeUnit;
    UnitKept(0, StartOf(tokens));
    var fault := ParseUnit(0, StartOf(tokens)).1.fault;
    assert fault.None? || fault == Some(NullTree) || fault == Some(ParamOverrun) by { FaultIs(fault); }
  }

  lemma {:induction false} FaultIs(f: Option<Fault>)
    ensures f.None? || f == Some(NullTree) || f == Some(ParamOverrun)
  {
    if f.Some? {
      assert f.value.NullTree? || f.value.ParamOverrun?;
    }
  }

  /** A file that is read without an error has no hole in it. */
  lemma {:induction false} ErrorFreeIsWhole(tokens: seq<Token>)
    ensures var r := ReadTokens(tokens);
            && (r.Refused? ==> r.errors > 0)
            && (r.Read? && r.errors == 0 ==> AllWhole(r.ds))
  {
    hide ParseUnit, SafeUnit;
    UnitKept(0, StartOf(tokens));
  }

  /**
    A condition on the tokens alone: where no `=` and no `(` comes directly after a closing
    parenthesis, a semicolon, or another of them, no null pointer is followed.
   */
  lemma {:induction false} CalmIsSafe(tokens: seq<Token>)
    requires forall i :: 0 < i < |tokens| ==> !Clash(tokens[i - 1], tokens[i])
    ensures ReadTokens(tokens) != Broken(NullTree)
  {
    hide ParseUnit, SafeUnit;
    assert Calm(StartOf(tokens));
    UnitKept(0, StartOf(tokens));
  }

  // --- Files that crash it -------------------------------------------------------------------------

  lemma {:induction false} Marks()
    ensures Precedence(TEqual) > PREC_NONE && Precedence(TLParen) > PREC_NONE
    ensures HasPrefix(TNumber) && HasPrefix(TLParen)
  {
  }

  lemma {:induction false} UnsafeInfix(s: PState)
    requires s.current.kind.TEqual? || s.current.kind.TLParen?
    ensures !SafeInfix(Nothing, s)
  {
  }

  lemma {:induction false} UnsafeLoop(prec: nat, left: Parsed, s: PState)
    requires s.rest != [] && Precedence(Next(s).kind) > prec
    requires !SafeInfix(left, Advance(s)) || !SafeLoop(prec, ParseInfix(left, Advance(s)).0,
             ParseInfix(left, Advance(s)).1)
    ensures !SafeLoop(prec, left, s)
  {
    hide SafeInfix, ParseInfix;
  }

  lemma {:induction false} UnsafeExpr(prec: nat, s: PState)
    requires s.depth < MAX_EXPRESSION_DEPTH && s.rest != [] && HasPrefix(Next(s).kind)
    requires var s1 := Advance(s.(depth := s.depth + 1)); !SafeLoop(prec, ParsePrefix(s1).0, ParsePrefix(s1).1)
    ensures !SafeExpr(prec, s)
  {
    hide SafePrefix, SafeLoop, ParsePrefix;
  }

  /** After a number an assignment is refused, and leaves no tree: a parenthesis then crashes the parser. */
  lemma {:induction false} NumberAssigned(s: PState, text: string, tail: seq<Token>)
    requires s.depth < MAX_EXPRESSION_DEPTH
    requires s.rest == [Token(TNumber, text)] + ([Fixed(TEqual)] + ([Fixed(TLParen)] + tail))
    ensures !SafeExpr(PREC_NONE, s)
  {
    hide Fixed, ParseExpr, ParsePrefix, ParseInfix, SafeExpr, SafeLoop, SafeInfix, Precedence, HasPrefix, Advance;
    Marks();
    var rest1, rest2 := [Fixed(TEqual)] + ([Fixed(TLParen)] + tail), [Fixed(TLParen)] + tail;
    var s0 := s.(depth := s.depth + 1);
    Advanced(s0, Token(TNumber, text), rest1);
    var s1 := Advance(s0);
    NameStarts(s1);
    Advanced(s1, Fixed(TEqual), rest2);
    var s2 := Advance(s1);
    var left := Node(Number(text, Void), true);
    NumberNotAssigned(text, s2);
    Advanced(Error(s2), Fixed(TLParen), tail);
    UnsafeInfix(Advance(Error(s2)));
    UnsafeLoop(PREC_NONE, Nothing, Error(s2));
    UnsafeLoop(PREC_NONE, left, s1);
    UnsafeExpr(PREC_NONE, s);
  }

  lemma {:induction false} NumberNotAssigned(text: string, s: PState)
    requires s.current.kind.TEqual?
    ensures ParseInfix(Node(Number(text, Void), true), s) == (Nothing, Error(s))
  {
  }

  /** Empty parentheses leave no tree: an assignment then crashes the parser. */
  lemma {:induction false} NothingAssigned(s: PState, tail: seq<Token>)
    requires s.depth < MAX_EXPRESSION_DEPTH - 1
    requires s.rest == [Fixed(TLParen)] + ([Fixed(TRParen)] + ([Fixed(TRParen)] + ([Fixed(TEqual)] + tail)))
    ensures !SafeExpr(PREC_NONE, s)
  {
    hide Fixed, ParseExpr, ParsePrefix, ParseInfix, SafeExpr, SafeLoop, SafeInfix, Precedence, HasPrefix, Advance;
    Marks();
    var rest3 := [Fixed(TEqual)] + tail;
    var rest2 := [Fixed(TRParen)] + rest3;
    var s0 := s.(depth := s.depth + 1);
    Advanced(s0, Fixed(TLParen), [Fixed(TRParen)] + rest2);
    var s1 := Advance(s0);
    EmptyInside(s1, rest2);
    var s2 := ParseExpr(PREC_NONE, s1).1;
    Advanced(s2, Fixed(TRParen), rest3);
    var s3 := Consume(s2, TRParen);
    GroupUnfolds(s1);
    Advanced(s3, Fixed(TEqual), tail);
    UnsafeInfix(Advance(s3));
    UnsafeLoop(PREC_NONE, Nothing, s3);
    UnsafeExpr(PREC_NONE, s);
  }

  lemma {:induction false} EmptyInside(s: PState, rest: seq<Token>)
    requires s.depth < MAX_EXPRESSION_DEPTH && s.rest == [Fixed(TRParen)] + rest
    ensures ParseExpr(PREC_NONE, s).0 == Nothing && ParseExpr(PREC_NONE, s).1.rest == rest
  {
    hide Fixed;
    Advanced(s.(depth := s.depth + 1), Fixed(TRParen), rest);
  }

  /** The tokens of `int f() {` and then `tail`. */
  function Opened(tail: seq<Token>): seq<Token> {
    [TypeToken(Int)] + ([Token(TIdentifier, "f")] + ([Fixed(TLParen)] + ([Fixed(TRParen)] + ([Fixed(TLBrace)] + tail))))
  }

  /** A function whose first statement is an expression that is not safe crashes the parser. */
  lemma {:induction false} OpenedCrashes(tail: seq<Token>)
    requires tail != [] && HasPrefix(tail[0].kind)
    requires forall s: PState :: At(s, tail) ==> !SafeExpr(PREC_NONE, s)
    ensures ReadTokens(Opened(tail)) == Broken(NullTree)
  {
    hide Fixed, TypeToken, Consume, Advance, ParseType, ParseParams, ParseFunction, ParseStmt, ParseUnit, ReadTokens,
      SafeExpr, SafeStmt, SafeStmts, SafeBlock, SafeFunction, SafeUnit, TypeOfToken, HasPrefix;
    var s := StartOf(Opened(tail));
    assert s.rest[0] == TypeToken(Int);
    TypeTokenIsRead(Int);
    var s4 := HeaderTaken(s, tail);
    TakeToken(s, s4, Fixed(TLBrace), tail);
    UnsafeBlock(s4);
    UnsafeFunction(s);
    FunctionKept(s);
    UnitBreaks(s, NullTree);
    UnitFault(Opened(tail), NullTree);
  }

  /** The fault of the first function is that of the file. */
  lemma {:induction false} UnitBreaks(s: PState, fault: Fault)
    requires s.depth == 0 && Reported(s) && s.rest != [] && TypeOfToken(Next(s)).Some?
    requires ParseFunction(s).1.fault == Some(fault)
    ensures ParseUnit(0, s).1.fault == Some(fault)
  {
    hide ParseFunction, TypeOfToken;
    assert !AtEnd(s) by { EofIsNoType(); }
    FunctionKept(s);
    UnitKept(1, ParseFunction(s).1);
  }

  lemma {:induction false} EofIsNoType()
    ensures forall t: Token :: TypeOfToken(t).Some? ==> !t.kind.TEof?
  {
  }

  lemma {:induction false} UnitFault(tokens: seq<Token>, fault: Fault)
    requires ParseUnit(0, StartOf(tokens)).1.fault == Some(fault)
    ensures ReadTokens(tokens) == Broken(fault)
  {
    hide ParseUnit;
  }

  lemma {:induction false} HeaderTaken(s: PState, tail: seq<Token>) returns (s4: PState)
    requires At(s, Opened(tail))
    ensures var s3 := Consume(Consume(ParseType(s).1, TIdentifier), TLParen);
            SafeParams(s3) && s4 == Consume(ParseParams(s3).1, TRParen)
    ensures Reaches(s, s4, [Fixed(TLBrace)] + tail) && !ParseType(s).1.panic
  {
    hide Fixed, TypeToken, Consume, Advance, ParseType, ParseParams;
    var rest3 := [Fixed(TLBrace)] + tail;
    var rest2 := [Fixed(TRParen)] + rest3;
    TypeParses(Int, s, s, [Token(TIdentifier, "f")] + ([Fixed(TLParen)] + rest2));
    var s1 := ParseType(s).1;
    TakeToken(s, s1, Token(TIdentifier, "f"), [Fixed(TLParen)] + rest2);
    var s2 := Consume(s1, TIdentifier);
    TakeToken(s, s2, Fixed(TLParen), rest2);
    var s3 := Consume(s2, TLParen);
    TakeToken(s, s3, Fixed(TRParen), rest3);
    NoParams(s3);
    s4 := Consume(s3, TRParen);
  }

  lemma {:induction false} UnsafeBlock(s: PState)
    requires s.depth == 0
    requires var s1 := Consume(s, TLBrace); s1.rest != [] && HasPrefix(Next(s1).kind) && !SafeExpr(PREC_NONE, s1)
    ensures !SafeBlock(s)
  {
    hide Consume, SafeExpr, ParseStmt, Synchronize;
    assert !SafeStmt(Consume(s, TLBrace));
  }

  lemma {:induction false} UnsafeFunction(s: PState)
    requires s.depth == 0 && !ParseType(s).1.panic
    requires var s4 := Consume(ParseParams(Consume(Consume(ParseType(s).1, TIdentifier), TLParen)).1, TRParen);
             !Next(s4).kind.TSemicolon? && !SafeBlock(s4)
    ensures !SafeFunction(s)
  {
    hide ParseType, Consume, ParseParams, SafeBlock;
  }

  lemma {:induction false} NoParams(s: PState)
    requires Next(s).kind.TRParen?
    ensures ParseParams(s) == ([], s)
  {
  }

  /** So `int f() { 1 = (` crashes the parser, and so does `int f() { ()) =`, whatever follows. */
  lemma {:induction false} FilesThatCrash(text: string, tail: seq<Token>)
    ensures ReadTokens(Opened([Token(TNumber, text)] + ([Fixed(TEqual)] + ([Fixed(TLParen)] + tail)))) ==
            Broken(NullTree)
    ensures ReadTokens(Opened([Fixed(TLParen)]
            + ([Fixed(TRParen)] + ([Fixed(TRParen)] + ([Fixed(TEqual)] + tail))))) == Broken(NullTree)
  {
    hide Fixed, SafeExpr, ReadTokens, Opened;
    var a := [Token(TNumber, text)] + ([Fixed(TEqual)] + ([Fixed(TLParen)] + tail));
    forall s: PState | At(s, a) ensures !SafeExpr(PREC_NONE, s) {
      NumberAssigned(s, text, tail);
    }
    OpenedCrashes(a);
    var b := [Fixed(TLParen)] + ([Fixed(TRParen)] + ([Fixed(TRParen)] + ([Fixed(TEqual)] + tail)));
    forall s: PState | At(s, b) ensures !SafeExpr(PREC_NONE, s) {
      NothingAssigned(s, tail);
    }
    OpenedCrashes(b);
  }

  /** A parameter list of more than 16 overruns its array, whatever follows it. */
  lemma {:induction false} WideListBreaks(ps: seq<Param>, tail: seq<Token>)
    requires |ps| > PARAM_ROOM && ps[0].ty != Void
    ensures ReadTokens(Wide(ps, tail)) == Broken(ParamOverrun)
  {
    hide Fixed, TypeToken, Consume, Advance, ParseType, ParseParams, ParseFunction, ParseUnit, ReadTokens, SafeFunction,
      TypeOfToken, PrintParams, SafeParams;
    var s := StartOf(Wide(ps, tail));
    var rest := PrintParams(ps) + ([Fixed(TRParen)] + tail);
    HeadIsRead(s, rest);
    WideIsUnsafe(ps, s, Consume(Consume(ParseType(s).1, TIdentifier), TLParen), [Fixed(TRParen)] + tail);
    UnsafeParams(s);
    FunctionKept(s);
    UnitBreaks(s, ParamOverrun);
    UnitFault(Wide(ps, tail), ParamOverrun);
  }

  lemma {:induction false} HeadIsRead(s: PState, rest: seq<Token>)
    requires At(s, [TypeToken(Int)] + ([Token(TIdentifier, "f")] + ([Fixed(TLParen)] + rest)))
    ensures Reaches(s, Consume(Consume(ParseType(s).1, TIdentifier), TLParen), rest)
    ensures !ParseType(s).1.panic && TypeOfToken(Next(s)).Some?
  {
    hide Fixed, TypeToken, Consume, ParseType, TypeOfToken;
    TypeParses(Int, s, s, [Token(TIdentifier, "f")] + ([Fixed(TLParen)] + rest));
    var s1 := ParseType(s).1;
    TakeToken(s, s1, Token(TIdentifier, "f"), [Fixed(TLParen)] + rest);
    TakeToken(s, Consume(s1, TIdentifier), Fixed(TLParen), rest);
  }

  /** The tokens of `int f(`, parameters, a parenthesis and then `tail`. */
  function Wide(ps: seq<Param>, tail: seq<Token>): seq<Token> {
    [TypeToken(Int)] + ([Token(TIdentifier, "f")] + ([Fixed(TLParen)] + (PrintParams(ps) + ([Fixed(TRParen)] + tail))))
  }

  lemma {:induction false} WideIsUnsafe(ps: seq<Param>, s: PState, s3: PState, close: seq<Token>)
    requires |ps| > PARAM_ROOM && ps[0].ty != Void && NextKind(close).TRParen?
    requires Reaches(s, s3, PrintParams(ps) + close)
    ensures !SafeParams(s3)
  {
    hide ParseParamList, Fixed, TypeToken, PrintParams;
    ParamsParse(ps, s, s3, close);
    ParamsPrint(ps, close);
    assert Next(s3) == TypeToken(ps[0].ty);
    NotVoid(ps[0].ty);
  }

  lemma {:induction false} UnsafeParams(s: PState)
    requires s.depth == 0 && !ParseType(s).1.panic
    requires !SafeParams(Consume(Consume(ParseType(s).1, TIdentifier), TLParen))
    ensures !SafeFunction(s)
  {
    hide ParseType, Consume, SafeParams, ParseParams, SafeBlock;
  }
}
