/** The parser as it works: two tokens in hand, taken from the lexer on demand. */
module Parsers {
  import opened Limits
  import opened Words
  import opened Ast
  import opened Tokens
  import opened Parsing
  import opened Lexing
  import opened Scanners

  /** The tokens to come, when `next` is in hand and `s` is the text after it. */
  function Coming(next: Token, s: string): seq<Token> {
    if next.kind.TEof? then [] else [next] + TokensOf(s)
  }

  class Parser {
    const lexer: Lexer
    var current: Token
    var next: Token
    var panicMode: bool
    var exprDepth: nat
    var errors: nat
    /** What went wrong first: from there on the run of the original means nothing. */
    var fault: Option<Fault>

    /** The end of the input is met once, and nothing unreadable is in hand. */
    ghost predicate Valid()
      reads this, lexer
    {
      && lexer.Valid() && !next.kind.TError?
      && (next.kind.TEof? ==> next == EofToken && lexer.ToCome() == [])
    }

    ghost function State(): PState
      requires Valid()
      reads this, lexer
    {
      PState(current, Coming(next, lexer.ToCome()), panicMode, exprDepth, errors, fault)
    }

    constructor (text: string)
      ensures Valid() && State() == StartOf(TokensOf(text)) && fresh(lexer)
    {
      lexer := new Lexer(text);
      current, next := Token(TInt, ""), Token(TInt, "");
      panicMode, exprDepth, errors, fault := false, 0, 0, None;
      new;
      FetchNext();
    }

    /** Loads `next`, passing over what the lexer cannot read. */
    method FetchNext()
      requires lexer.Valid()
      modifies this`next, lexer`curr
      ensures Valid() && Coming(next, lexer.ToCome()) == TokensOf(old(lexer.ToCome()))
    {
      hide NextToken;
      next := lexer.Scan();
      while next.kind.TError?
        invariant lexer.Valid() && (next.kind.TEof? ==> next == EofToken && lexer.ToCome() == [])
        invariant TokensOf(old(lexer.ToCome())) ==
                  if next.kind.TError? then TokensOf(lexer.ToCome()) else Coming(next, lexer.ToCome())
        decreases |lexer.ToCome()|, next.kind.TError?
      {
        next := lexer.Scan();
      }
    }

    method AdvanceToken()
      requires Valid()
      modifies this`current, this`next, lexer`curr
      ensures Valid() && State() == Advance(old(State()))
    {
      hide TokensOf;
      ghost var s := State();
      if next.kind.TEof? {
        EndStays();
      }
      current := next;
      FetchNext();
    }

    // --- The cursor ------------------------------------------------------------------------

    method ReportError()
      requires Valid()
      modifies this`panicMode, this`errors
      ensures Valid() && State() == Error(old(State()))
    {
      if !panicMode {
        panicMode := true;
        errors := errors + 1;
      }
    }

    method BreakDown(f: Fault)
      requires Valid()
      modifies this`fault
      ensures Valid() && State() == Break(old(State()), f)
    {
      if fault == None {
        fault := Some(f);
      }
    }

    /** Skips to a place where a statement may start; it may be here. */
    method Recover()
      requires Valid()
      modifies this`current, this`next, this`panicMode, lexer`curr
      ensures Valid() && State() == Synchronize(old(State()))
    {
      hide TokensOf;
      ghost var s := State();
      panicMode := false;
      SyncCalms(s);
      while !next.kind.TEof? && !current.kind.TSemicolon? && !StopsRecovery(next.kind)
        invariant Valid() && !panicMode && Synchronize(State()) == Synchronize(s)
        decreases |State().rest|
      {
        AdvanceToken();
      }
    }

    method Expect(k: Kind)
      requires Valid()
      modifies this`current, this`next, this`panicMode, this`errors, lexer`curr
      ensures Valid() && State() == Consume(old(State()), k)
    {
      hide TokensOf, Synchronize;
      if next.kind == k {
        AdvanceToken();
        panicMode := false;
        return;
      }
      ReportError();
      Recover();
    }

    // --- Expressions -------------------------------------------------------------------------

    method ParseExpression(prec: nat) returns (e: Parsed)
      requires Valid()
      modifies this, lexer`curr
      ensures Valid() && State() == ParseExpr(prec, old(State())).1 && e == ParseExpr(prec, old(State())).0
      decreases |State().rest|, 2
    {
      hide TokensOf, ParsePrefix, ParseLoop;
      if exprDepth >= MAX_EXPRESSION_DEPTH {
        ReportError();
        return Nothing;
      }
      ghost var s := State();
      exprDepth := exprDepth + 1;
      AdvanceToken();
      if !HasPrefix(current.kind) {
        ReportError();
        exprDepth := exprDepth - 1;
        return Nothing;
      }
      e := ParseFirst();
      e := ParseRest(prec, e);
      exprDepth := exprDepth - 1;
    }

    /** What the current token starts. */
    method ParseFirst() returns (e: Parsed)
      requires Valid() && HasPrefix(current.kind)
      modifies this, lexer`curr
      ensures Valid() && State() == ParsePrefix(old(State())).1 && e == ParsePrefix(old(State())).0
      decreases |State().rest|, 4
    {
      hide TokensOf, ParseExpr, Consume;
      var k := current.kind;
      if k.TNumber? {
        return Node(Number(current.text, Void), true);
      }
      if k.TIdentifier? {
        return Node(Identifier(current.text, Void), true);
      }
      if k.TLParen? {
        e := ParseExpression(PREC_NONE);
        Expect(TRParen);
        return;
      }
      var operand := ParseExpression(PREC_UNARY);
      e := Node(Unary(UnaryOf(k).value, TreeOf(operand), Void), Whole(operand));
    }

    /** Goes on while operators bind tighter than `prec`. */
    method ParseRest(prec: nat, first: Parsed) returns (left: Parsed)
      requires Valid()
      modifies this, lexer`curr
      ensures Valid() && State() == ParseLoop(prec, first, old(State())).1
      ensures left == ParseLoop(prec, first, old(State())).0
      decreases |State().rest|, 3
    {
      hide TokensOf, ParseInfix;
      ghost var s := State();
      left := first;
      while Precedence(next.kind) > prec
        invariant Valid() && |State().rest| <= |s.rest|
        invariant ParseLoop(prec, left, State()).0 == ParseLoop(prec, first, s).0
        invariant ParseLoop(prec, left, State()).1 == ParseLoop(prec, first, s).1
        decreases |State().rest|
      {
        LoopNext(prec, left, State());
        AdvanceToken();
        left := ParseOperator(left);
      }
    }

    /** The current token continues the expression. */
    method ParseOperator(left: Parsed) returns (e: Parsed)
      requires Valid()
      modifies this, lexer`curr
      ensures Valid() && State() == ParseInfix(left, old(State())).1 && e == ParseInfix(left, old(State())).0
      decreases |State().rest|, 5
    {
      hide TokensOf, ParseExpr, Consume, ParseArgs;
      var k := current.kind;
      if k.TEqual? {
        if left.Nothing? {
          BreakDown(NullTree);
          return Nothing;
        }
        if !left.e.Identifier? {
          ReportError();
          return Nothing;
        }
        var value := ParseExpression(PREC_ASSIGNMENT);
        return Node(Assign(left.e.name, TreeOf(value), Void), Whole(value));
      }
      if k.TLParen? {
        e := ParseCall(left);
        return;
      }
      if BinaryOf(k).None? {
        return left;
      }
      var right := ParseExpression(Precedence(k));
      return Node(Binary(BinaryOf(k).value, TreeOf(left), TreeOf(right), Void), Whole(left) && Whole(right));
    }

    method ParseCall(callee: Parsed) returns (e: Parsed)
      requires Valid() && current.kind.TLParen?
      modifies this, lexer`curr
      ensures Valid() && State() == ParseInfix(callee, old(State())).1 && e == ParseInfix(callee, old(State())).0
      decreases |State().rest|, 4
    {
      hide TokensOf, Consume, ParseArgs;
      if callee.Nothing? {
        BreakDown(NullTree);
        return Nothing;
      }
      if !callee.e.Identifier? {
        ReportError();
        return Nothing;
      }
      var args, whole := [], true;
      if !next.kind.TRParen? {
        args, whole := ParseArguments();
      }
      Expect(TRParen);
      return Node(Call(callee.e.name, args, Void), whole);
    }

    /** One argument after the other; a failure or the limit ends the list. */
    method ParseArguments() returns (args: seq<Expr>, whole: bool)
      requires Valid()
      modifies this, lexer`curr
      ensures Valid() && State() == ParseArgs(0, old(State())).2
      ensures args == ParseArgs(0, old(State())).0 && whole == ParseArgs(0, old(State())).1
      decreases |State().rest|, 3
    {
      hide TokensOf, ParseExpr, Synchronize, ParseArgs;
      ghost var s := State();
      args, whole := [], true;
      var more := true;
      while more
        invariant Valid() && |State().rest| <= |s.rest|
        invariant more ==> ParseArgs(0, s).2 == ParseArgs(|args|, State()).2
        invariant more ==> ParseArgs(0, s).0 == args + ParseArgs(|args|, State()).0
        invariant more ==> ParseArgs(0, s).1 == (whole && ParseArgs(|args|, State()).1)
        invariant !more ==> ParseArgs(0, s).2 == State() && ParseArgs(0, s).0 == args && ParseArgs(0, s).1 == whole
        decreases more, |State().rest|
      {
        ArgsNext(|args|, State());
        if |args| >= MAX_PARAMS_PER_FUNCTION {
          ReportError();
          Recover();
          more := false;
        } else {
          var a := ParseExpression(PREC_ASSIGNMENT);
          if a.Nothing? {
            Recover();
            more := false;
          } else {
            args := args + [a.e];
            whole := whole && a.whole;
            if next.kind.TComma? {
              AdvanceToken();
            } else {
              more := false;
            }
          }
        }
      }
    }

    // --- Statements ----------------------------------------------------------------------------

    method ParseStatement() returns (st: ParsedStmt)
      requires Valid() && exprDepth == 0
      modifies this, lexer`curr
      ensures Valid() && exprDepth == 0
      ensures State() == ParseStmt(old(State())).1 && st == ParseStmt(old(State())).0
      decreases |State().rest|, 5
    {
      hide TokensOf, ParseVarDecl, ParseIf, ParseWhile, ParseReturn, ParseBlock, ParseExprStmt;
      var k := next.kind;
      if k.TInt? || k.TChar? || k.TVoid? {
        st := ParseDeclaration();
      } else if k.TIf? {
        st := ParseIfStatement();
      } else if k.TWhile? {
        st := ParseWhileStatement();
      } else if k.TReturn? {
        st := ParseReturnStatement();
      } else if k.TLBrace? {
        st := ParseBlockStatement();
      } else {
        st := ParseExpressionStatement();
      }
    }

    method ParseExpressionStatement() returns (st: ParsedStmt)
      requires Valid() && exprDepth == 0
      modifies this, lexer`curr
      ensures Valid() && exprDepth == 0
      ensures State() == ParseExprStmt(old(State())).1 && st == ParseExprStmt(old(State())).0
    {
      hide TokensOf, ParseExpr, Consume;
      var e := ParseExpression(PREC_NONE);
      Expect(TSemicolon);
      st := if e.Node? then StmtNode(ExprStmt(e.e), e.whole) else NoStmt;
    }

    method ParseTypeName() returns (ty: DataType)
      requires Valid()
      modifies this, lexer`curr
      ensures Valid() && State() == ParseType(old(State())).1 && ty == ParseType(old(State())).0
    {
      hide TokensOf, TypeOfToken;
      NoTypeAtEnd();
      var t := TypeOfToken(next);
      if t.Some? {
        AdvanceToken();
        return t.value;
      }
      ReportError();
      return Void;
    }

    method ParseDeclaration() returns (st: ParsedStmt)
      requires Valid() && exprDepth == 0
      modifies this, lexer`curr
      ensures Valid() && exprDepth == 0
      ensures State() == ParseVarDecl(old(State())).1 && st == ParseVarDecl(old(State())).0
    {
      hide TokensOf, ParseExpr, Consume, ParseType;
      var ty := ParseTypeName();
      if panicMode {
        return NoStmt;
      }
      Expect(TIdentifier);
      var x := current.text;
      var init, whole := None, true;
      if next.kind.TEqual? {
        AdvanceToken();
        var e := ParseExpression(PREC_NONE);
        init, whole := TreeIfAny(e), NoHole(e);
      }
      Expect(TSemicolon);
      return StmtNode(VarDecl(x, ty, init), whole);
    }

    method ParseReturnStatement() returns (st: ParsedStmt)
      requires Valid() && exprDepth == 0
      modifies this, lexer`curr
      ensures Valid() && exprDepth == 0
      ensures State() == ParseReturn(old(State())).1 && st == ParseReturn(old(State())).0
    {
      hide TokensOf, ParseExpr, Consume;
      Expect(TReturn);
      var result, whole := None, true;
      if !next.kind.TSemicolon? {
        var e := ParseExpression(PREC_NONE);
        result, whole := TreeIfAny(e), NoHole(e);
      }
      Expect(TSemicolon);
      return StmtNode(Return(result), whole);
    }

    /** A parenthesised condition after keyword `k`. */
    method ParseGuard(k: Kind) returns (c: Parsed)
      requires Valid() && exprDepth == 0
      modifies this, lexer`curr
      ensures Valid() && exprDepth == 0
      ensures State() == ParseCondition(k, old(State())).1 && c == ParseCondition(k, old(State())).0
    {
      hide TokensOf, ParseExpr, Consume;
      Expect(k);
      Expect(TLParen);
      c := ParseExpression(PREC_NONE);
      Expect(TRParen);
    }

    method ParseIfStatement() returns (st: ParsedStmt)
      requires Valid() && exprDepth == 0 && next.kind.TIf?
      modifies this, lexer`curr
      ensures Valid() && exprDepth == 0
      ensures State() == ParseIf(old(State())).1 && st == ParseIf(old(State())).0
      decreases |State().rest|, 4
    {
      hide TokensOf, ParseCondition, ParseStmt;
      var c := ParseGuard(TIf);
      var thn := ParseStatement();
      if next.kind.TElse? {
        AdvanceToken();
        var els := ParseStatement();
        return StmtNode(If(TreeOf(c), StmtOf(thn), StmtIfAny(els)), Whole(c) && StmtNoHole(thn) && StmtNoHole(els));
      }
      return StmtNode(If(TreeOf(c), StmtOf(thn), None), Whole(c) && StmtNoHole(thn));
    }

    method ParseWhileStatement() returns (st: ParsedStmt)
      requires Valid() && exprDepth == 0 && next.kind.TWhile?
      modifies this, lexer`curr
      ensures Valid() && exprDepth == 0
      ensures State() == ParseWhile(old(State())).1 && st == ParseWhile(old(State())).0
      decreases |State().rest|, 4
    {
      hide TokensOf, ParseCondition, ParseStmt;
      var c := ParseGuard(TWhile);
      var body := ParseStatement();
      return StmtNode(While(TreeOf(c), StmtOf(body)), Whole(c) && StmtNoHole(body));
    }

    method ParseBlockStatement() returns (st: ParsedStmt)
      requires Valid() && exprDepth == 0
      modifies this, lexer`curr
      ensures Valid() && exprDepth == 0
      ensures State() == ParseBlock(old(State())).1 && st == ParseBlock(old(State())).0
      decreases |State().rest|, if next.kind.TLBrace? then 4 else 7
    {
      hide TokensOf, Consume, ParseStmts;
      Expect(TLBrace);
      var ss, whole := ParseStatements();
      Expect(TRBrace);
      return StmtNode(Block(ss), whole);
    }

    /** The statements of a block; after one that fails the parser recovers. */
    method ParseStatements() returns (ss: seq<Stmt>, whole: bool)
      requires Valid() && exprDepth == 0
      modifies this, lexer`curr
      ensures Valid() && exprDepth == 0
      ensures State() == ParseStmts(0, old(State())).2
      ensures ss == ParseStmts(0, old(State())).0 && whole == ParseStmts(0, old(State())).1
      decreases |State().rest|, 6
    {
      hide TokensOf, ParseStmt, Synchronize, ParseStmts;
      ghost var s := State();
      ss, whole := [], true;
      while !next.kind.TRBrace? && !next.kind.TEof?
        invariant Valid() && exprDepth == 0 && |State().rest| <= |s.rest|
        invariant ParseStmts(0, s).2 == ParseStmts(|ss|, State()).2
        invariant ParseStmts(0, s).0 == ss + ParseStmts(|ss|, State()).0
        invariant ParseStmts(0, s).1 == (whole && ParseStmts(|ss|, State()).1)
        decreases |State().rest|
      {
        StmtsNext(|ss|, State());
        if |ss| >= MAX_BLOCK_STATEMENTS {
          ReportError();
          Recover();
          return;
        }
        var st := ParseStatement();
        if st.StmtNode? {
          ss := ss + [st.s];
          whole := whole && st.whole;
        } else {
          Recover();
        }
      }
      StmtsEnd(|ss|, State());
    }

    // --- Functions --------------------------------------------------------------------------------

    method ParseParameters() returns (ps: seq<Param>)
      requires Valid()
      modifies this, lexer`curr
      ensures Valid() && exprDepth == old(exprDepth)
      ensures State() == ParseParams(old(State())).1 && ps == ParseParams(old(State())).0
    {
      hide TokensOf, ParseParamList;
      if next.kind.TRParen? {
        return [];
      }
      if next.kind.TVoid? {
        AdvanceToken();
        return [];
      }
      ps := ParseParameterList();
      if |ps| > PARAM_ROOM {
        BreakDown(ParamOverrun);
      }
    }

    method ParseParameterList() returns (ps: seq<Param>)
      requires Valid()
      modifies this, lexer`curr
      ensures Valid() && exprDepth == old(exprDepth)
      ensures State() == ParseParamList(old(State())).1 && ps == ParseParamList(old(State())).0
    {
      hide TokensOf, ParseType, Consume, ParseParamList;
      ghost var s := State();
      ps := [];
      var more := true;
      while more
        invariant Valid() && exprDepth == s.depth && |State().rest| <= |s.rest|
        invariant more ==> ParseParamList(s).1 == ParseParamList(State()).1
        invariant more ==> ParseParamList(s).0 == ps + ParseParamList(State()).0
        invariant !more ==> ParseParamList(s).1 == State() && ParseParamList(s).0 == ps
        decreases more, |State().rest|
      {
        ParamNext(State());
        var ty := ParseTypeName();
        Expect(TIdentifier);
        ps := ps + [Param(current.text, ty)];
        if next.kind.TComma? {
          AdvanceToken();
        } else {
          more := false;
        }
      }
    }

    method ParseFunctionDecl() returns (d: ParsedDecl)
      requires Valid() && exprDepth == 0
      modifies this, lexer`curr
      ensures Valid() && exprDepth == 0
      ensures State() == ParseFunction(old(State())).1 && d == ParseFunction(old(State())).0
    {
      hide TokensOf, ParseType, Consume, ParseParams, ParseBlock;
      var ty := ParseTypeName();
      if panicMode {
        return NoDecl;
      }
      Expect(TIdentifier);
      var name := current.text;
      Expect(TLParen);
      var params := ParseParameters();
      Expect(TRParen);
      if next.kind.TSemicolon? {
        AdvanceToken();
        return DeclNode(Declaration(name, ty, params, None), true);
      }
      var body := ParseBlockStatement();
      return DeclNode(Declaration(name, ty, params, Some(StmtOf(body))), StmtNoHole(body));
    }

    /** A whole file. */
    method ParseFile() returns (ds: Option<seq<ParsedDecl>>)
      requires Valid() && exprDepth == 0
      modifies this, lexer`curr
      ensures Valid() && State() == ParseUnit(0, old(State())).1 && ds == ParseUnit(0, old(State())).0
    {
      hide TokensOf, ParseFunction, TypeOfToken, ParseUnit;
      ghost var s := State();
      var decls: seq<ParsedDecl> := [];
      PrependNone(decls, ParseUnit(0, s).0);
      while !next.kind.TEof?
        invariant Valid() && exprDepth == 0
        invariant ParseUnit(0, s).1 == ParseUnit(|decls|, State()).1
        invariant ParseUnit(0, s).0 == Prepend(decls, ParseUnit(|decls|, State()).0)
        decreases |State().rest|
      {
        UnitNext(|decls|, State());
        if |decls| >= MAX_FUNCTION_COUNT || TypeOfToken(next).None? {
          ReportError();
          return None;
        }
        var d := ParseFunctionDecl();
        PrependMore(decls, d, ParseUnit(|decls| + 1, State()).0);
        decls := decls + [d];
      }
      UnitEnd(|decls|, State());
      assert decls + [] == decls;
      return Some(decls);
    }
  }

  lemma {:induction false} SyncCalms(s: PState)
    ensures Synchronize(s) == Synchronize(s.(panic := false))
  {
  }

  lemma {:induction false} LoopNext(prec: nat, left: Parsed, s: PState)
    requires s.rest != [] && Precedence(Next(s).kind) > prec
    ensures var (left1, s1) := ParseInfix(left, Advance(s));
            ParseLoop(prec, left, s).0 == ParseLoop(prec, left1, s1).0
              && ParseLoop(prec, left, s).1 == ParseLoop(prec, left1, s1).1
  {
    hide ParseInfix;
  }

  /** What the list of arguments comes to, by what the next one is. */
  lemma {:induction false} ArgsNext(n: nat, s: PState)
    ensures n >= MAX_PARAMS_PER_FUNCTION ==> ParseArgs(n, s) == ([], true, Synchronize(Error(s)))
    ensures n < MAX_PARAMS_PER_FUNCTION ==>
              var (a, s1) := ParseExpr(PREC_ASSIGNMENT, s);
              && (a.Nothing? ==> ParseArgs(n, s) == ([], true, Synchronize(s1)))
              && (a.Node? && !Next(s1).kind.TComma? ==> ParseArgs(n, s) == ([a.e], a.whole, s1))
              && (a.Node? && Next(s1).kind.TComma? ==>
                    var (rest, whole, s2) := ParseArgs(n + 1, Advance(s1));
                    ParseArgs(n, s) == ([a.e] + rest, a.whole && whole, s2))
  {
    hide ParseExpr, Synchronize;
  }

  lemma {:induction false} NoTypeAtEnd()
    ensures TypeOfToken(EofToken) == None
  {
  }

  lemma {:induction false} StmtsNext(n: nat, s: PState)
    requires s.depth == 0 && s.rest != [] && !Next(s).kind.TRBrace? && !AtEnd(s)
    ensures n >= MAX_BLOCK_STATEMENTS ==> ParseStmts(n, s) == ([], true, Synchronize(Error(s)))
    ensures n < MAX_BLOCK_STATEMENTS ==>
              var (st, s1) := ParseStmt(s);
              && (st.StmtNode? ==> var (rest, whole, s2) := ParseStmts(n + 1, s1);
                                   ParseStmts(n, s) == ([st.s] + rest, st.whole && whole, s2))
              && (st.NoStmt? ==> var (rest, whole, s2) := ParseStmts(n, Synchronize(s1));
                                 ParseStmts(n, s) == (rest, whole, s2))
  {
    hide ParseStmt, Synchronize;
  }

  lemma {:induction false} StmtsEnd(n: nat, s: PState)
    requires s.depth == 0 && (s.rest == [] || Next(s).kind.TRBrace? || AtEnd(s))
    ensures ParseStmts(n, s) == ([], true, s)
  {
  }

  lemma {:induction false} ParamNext(s: PState)
    ensures var (ty, s1) := ParseType(s);
            var s2 := Consume(s1, TIdentifier);
            var p := Param(s2.current.text, ty);
            && (!Next(s2).kind.TComma? ==> ParseParamList(s) == ([p], s2))
            && (Next(s2).kind.TComma? ==> var (rest, s3) := ParseParamList(Advance(s2));
                                          ParseParamList(s) == ([p] + rest, s3))
  {
    hide ParseType, Consume;
  }

  function Prepend(ds: seq<ParsedDecl>, r: Option<seq<ParsedDecl>>): Option<seq<ParsedDecl>> {
    if r.None? then None else Some(ds + r.value)
  }

  lemma {:induction false} PrependNone(ds: seq<ParsedDecl>, r: Option<seq<ParsedDecl>>)
    requires ds == []
    ensures Prepend(ds, r) == r
  {
    if r.Some? {
      assert ds + r.value == r.value;
    }
  }

  lemma {:induction false} PrependMore(ds: seq<ParsedDecl>, d: ParsedDecl, r: Option<seq<ParsedDecl>>)
    ensures Prepend(ds + [d], r) == Prepend(ds, Prepend([d], r))
  {
    if r.Some? {
      assert ds + [d] + r.value == ds + ([d] + r.value);
    }
  }

  lemma {:induction false} UnitNext(n: nat, s: PState)
    requires s.depth == 0 && s.rest != [] && !AtEnd(s)
    ensures n >= MAX_FUNCTION_COUNT || TypeOfToken(Next(s)).None? ==> ParseUnit(n, s) == (None, Error(s))
    ensures n < MAX_FUNCTION_COUNT && TypeOfToken(Next(s)).Some? ==>
              var (d, s1) := ParseFunction(s);
              ParseUnit(n, s).1 == ParseUnit(n + 1, s1).1 && ParseUnit(n, s).0 == Prepend([d], ParseUnit(n + 1, s1).0)
  {
    hide ParseFunction, TypeOfToken;
  }

  lemma {:induction false} UnitEnd(n: nat, s: PState)
    requires s.depth == 0 && (s.rest == [] || AtEnd(s))
    ensures ParseUnit(n, s) == (Some([]), s)
  {
  }

  /** A file is read from its text as `ReadTokens` reads its tokens. */
  method ParseText(text: string) returns (result: FileResult)
    ensures result == ReadTokens(TokensOf(text))
  {
    hide TokensOf, ParseUnit;
    var p := new Parser(text);
    var ds := p.ParseFile();
    if p.fault.Some? {
      return Broken(p.fault.value);
    }
    result := if ds.None? then Refused(p.errors) else Read(ds.value, p.errors);
  }

  lemma {:induction false} EndStays()
    ensures TokensOf([]) == []
  {
  }
}
