/** The parser leaves all types to be filled in. */
module Freshness {
  import opened Limits
  import opened Words
  import opened Ast
  import opened Tokens
  import opened Parsing
  import opened Annotation
  import opened Programs

  predicate FreshTree(p: Parsed) {
    p.Node? ==> Erase(p.e) == p.e
  }

  predicate FreshStmt(p: ParsedStmt) {
    p.StmtNode? ==> EraseStmt(p.s) == p.s
  }

  lemma {:induction false} HoleIsFresh(p: Parsed)
    requires FreshTree(p)
    ensures Erase(TreeOf(p)) == TreeOf(p)
    ensures EraseOption(TreeIfAny(p)) == TreeIfAny(p)
  {
  }

  lemma {:induction false} ExprFresh(prec: nat, s: PState)
    ensures FreshTree(ParseExpr(prec, s).0)
    decreases |s.rest|, 2
  {
    hide Erase, ParsePrefix, ParseLoop, HasPrefix;
    if s.depth < MAX_EXPRESSION_DEPTH && s.rest != [] {
      var s1 := Advance(s.(depth := s.depth + 1));
      PrefixFresh(s1);
      LoopFresh(prec, ParsePrefix(s1).0, ParsePrefix(s1).1);
    }
  }

  lemma {:induction false} PrefixFresh(s: PState)
    ensures FreshTree(ParsePrefix(s).0)
    decreases |s.rest|, 4
  {
    hide ParseExpr, Consume;
    var prec := if s.current.kind.TLParen? then PREC_NONE else PREC_UNARY;
    ExprFresh(prec, s);
    HoleIsFresh(ParseExpr(prec, s).0);
  }

  lemma {:induction false} LoopFresh(prec: nat, left: Parsed, s: PState)
    requires FreshTree(left)
    ensures FreshTree(ParseLoop(prec, left, s).0)
    decreases |s.rest|, 3
  {
    hide Erase, ParseInfix, Precedence;
    if s.rest != [] && Precedence(Next(s).kind) > prec {
      InfixFresh(left, Advance(s));
      LoopFresh(prec, ParseInfix(left, Advance(s)).0, ParseInfix(left, Advance(s)).1);
    }
  }

  lemma {:induction false} InfixFresh(left: Parsed, s: PState)
    requires FreshTree(left)
    ensures FreshTree(ParseInfix(left, s).0)
    decreases |s.rest|, 4
  {
    hide ParseExpr, ParseArgs, Consume, BinaryOf, Precedence;
    var k := s.current.kind;
    HoleIsFresh(left);
    if k.TLParen? {
      ArgsFresh(0, s);
    } else {
      var prec := if k.TEqual? then PREC_ASSIGNMENT else Precedence(k);
      ExprFresh(prec, s);
      HoleIsFresh(ParseExpr(prec, s).0);
    }
  }

  lemma {:induction false} ArgsFresh(n: nat, s: PState)
    ensures EraseArgs(ParseArgs(n, s).0) == ParseArgs(n, s).0
    decreases |s.rest|, 3
  {
    hide ParseExpr, Erase, Synchronize;
    if n < MAX_PARAMS_PER_FUNCTION {
      ExprFresh(PREC_ASSIGNMENT, s);
      var a, s1 := ParseExpr(PREC_ASSIGNMENT, s).0, ParseExpr(PREC_ASSIGNMENT, s).1;
      if a.Node? && s1.rest != [] && Next(s1).kind.TComma? {
        ArgsFresh(n + 1, Advance(s1));
      }
    }
  }

  lemma {:induction false} StmtFresh(s: PState)
    requires s.depth == 0
    ensures FreshStmt(ParseStmt(s).0)
    decreases |s.rest|, 5
  {
    hide ParseVarDecl, ParseIf, ParseWhile, ParseReturn, ParseBlock, ParseExprStmt, EraseStmt;
    SimpleFresh(s);
    if Next(s).kind.TIf? {
      IfFresh(s);
    } else if Next(s).kind.TWhile? {
      WhileFresh(s);
    } else if Next(s).kind.TLBrace? {
      BlockFresh(s);
    }
  }

  lemma {:induction false} SimpleFresh(s: PState)
    requires s.depth == 0
    ensures FreshStmt(ParseVarDecl(s).0) && FreshStmt(ParseReturn(s).0) && FreshStmt(ParseExprStmt(s).0)
  {
    hide ParseVarDecl, ParseReturn, ParseExprStmt;
    VarDeclFresh(s);
    ReturnFresh(s);
    EffectFresh(s);
  }

  lemma {:induction false} EffectFresh(s: PState)
    requires s.depth == 0
    ensures FreshStmt(ParseExprStmt(s).0)
  {
    hide ParseExpr, Consume, Erase;
    ExprFresh(PREC_NONE, s);
  }

  lemma {:induction false} ReturnFresh(s: PState)
    requires s.depth == 0
    ensures FreshStmt(ParseReturn(s).0)
  {
    hide ParseExpr, Consume, Erase;
    var s1 := Consume(s, TReturn);
    ExprFresh(PREC_NONE, s1);
    HoleIsFresh(ParseExpr(PREC_NONE, s1).0);
  }

  lemma {:induction false} VarDeclFresh(s: PState)
    requires s.depth == 0
    ensures FreshStmt(ParseVarDecl(s).0)
  {
    hide ParseExpr, Consume, Erase, ParseType;
    var s2 := Advance(Consume(ParseType(s).1, TIdentifier));
    ExprFresh(PREC_NONE, s2);
    HoleIsFresh(ParseExpr(PREC_NONE, s2).0);
  }

  lemma {:induction false} ConditionFresh(k: Kind, s: PState)
    requires s.depth == 0
    ensures var c := ParseCondition(k, s).0; FreshTree(c) && Erase(TreeOf(c)) == TreeOf(c)
  {
    hide ParseExpr, Consume, Erase;
    var s1 := Consume(Consume(s, k), TLParen);
    ExprFresh(PREC_NONE, s1);
    HoleIsFresh(ParseExpr(PREC_NONE, s1).0);
  }

  lemma {:induction false} BranchIsFresh(p: ParsedStmt)
    requires FreshStmt(p)
    ensures EraseStmt(StmtOf(p)) == StmtOf(p)
  {
    assert EraseStmts([]) == [];
  }

  lemma {:induction false} IfFresh(s: PState)
    requires s.depth == 0 && Next(s).kind.TIf?
    ensures FreshStmt(ParseIf(s).0)
    decreases |s.rest|, 4
  {
    hide ParseCondition, ParseStmt, Erase;
    ConditionFresh(TIf, s);
    var s1 := ParseCondition(TIf, s).1;
    StmtFresh(s1);
    BranchIsFresh(ParseStmt(s1).0);
    var s2 := ParseStmt(s1).1;
    if s2.rest != [] && Next(s2).kind.TElse? {
      StmtFresh(Advance(s2));
    }
  }

  lemma {:induction false} WhileFresh(s: PState)
    requires s.depth == 0 && Next(s).kind.TWhile?
    ensures FreshStmt(ParseWhile(s).0)
    decreases |s.rest|, 4
  {
    hide ParseCondition, ParseStmt, Erase;
    ConditionFresh(TWhile, s);
    var s1 := ParseCondition(TWhile, s).1;
    StmtFresh(s1);
    BranchIsFresh(ParseStmt(s1).0);
  }

  lemma {:induction false} BlockFresh(s: PState)
    requires s.depth == 0
    ensures FreshStmt(ParseBlock(s).0)
    decreases |s.rest|, if Next(s).kind.TLBrace? then 4 else 7
  {
    hide Consume, ParseStmts, EraseStmts;
    StmtsFresh(0, Consume(s, TLBrace));
  }

  lemma {:induction false} StmtsFresh(n: nat, s: PState)
    requires s.depth == 0
    ensures EraseStmts(ParseStmts(n, s).0) == ParseStmts(n, s).0
    decreases |s.rest|, 6
  {
    hide ParseStmt, Synchronize, EraseStmt;
    if s.rest != [] && !Next(s).kind.TRBrace? && !AtEnd(s) && n < MAX_BLOCK_STATEMENTS {
      StmtFresh(s);
      var st, s1 := ParseStmt(s).0, ParseStmt(s).1;
      if st.StmtNode? {
        StmtsFresh(n + 1, s1);
      } else {
        StmtsFresh(n, Synchronize(s1));
      }
    }
  }

  predicate FreshDecl(p: ParsedDecl) {
    p.DeclNode? ==> Fresh(p.d)
  }

  lemma {:induction false} FunctionFresh(s: PState)
    requires s.depth == 0
    ensures FreshDecl(ParseFunction(s).0)
  {
    hide ParseType, Consume, ParseParams, ParseBlock, EraseStmt;
    var s3 := Consume(Consume(ParseType(s).1, TIdentifier), TLParen);
    var s4 := Consume(ParseParams(s3).1, TRParen);
    BlockFresh(s4);
    BranchIsFresh(ParseBlock(s4).0);
  }

  /** Whatever the tokens, the trees that the parser builds carry no types yet. */
  lemma {:induction false} UnitFresh(n: nat, s: PState)
    requires s.depth == 0
    ensures var ds := ParseUnit(n, s).0; ds.Some? ==> forall i :: 0 <= i < |ds.value| ==> FreshDecl(ds.value[i])
    decreases |s.rest|
  {
    hide ParseFunction, FreshDecl, TypeOfToken;
    if s.rest != [] && !AtEnd(s) && n < MAX_FUNCTION_COUNT && TypeOfToken(Next(s)).Some? {
      FunctionFresh(s);
      UnitFresh(n + 1, ParseFunction(s).1);
    }
  }

  lemma {:induction false} ReadFresh(tokens: seq<Token>)
    ensures var r := ReadTokens(tokens); r.Read? ==> forall i :: 0 <= i < |r.ds| ==> FreshDecl(r.ds[i])
  {
    hide ParseUnit, FreshDecl;
    UnitFresh(0, StartOf(tokens));
  }
}
