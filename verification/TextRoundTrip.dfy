/** From trees to text and back: printing, spelling, lexing and parsing. */
module TextRoundTrip {
  import opened Limits
  import opened Words
  import opened Ast
  import opened Tokens
  import opened Parsing
  import opened Printing
  import opened Lexing

  predicate AllSpellable(ts: seq<Token>) {
    forall i :: 0 <= i < |ts| ==> Spellable(ts[i])
  }

  lemma {:induction false} Both(a: seq<Token>, b: seq<Token>)
    requires AllSpellable(a) && AllSpellable(b)
    ensures AllSpellable(a + b)
  {
  }

  lemma {:induction false} One(t: Token)
    requires Spellable(t)
    ensures AllSpellable([t])
  {
  }

  /** A number is digits, and a name is one that the lexer takes for a name. */
  predicate Named(e: Expr) {
    match e
    case Number(text, _) => text != [] && forall i :: 0 <= i < |text| ==> IsDigit(text[i])
    case Identifier(x, _) => IsName(x)
    case Call(fn, args, _) => IsName(fn) && forall i :: 0 <= i < |args| ==> Named(args[i])
    case Unary(_, operand, _) => Named(operand)
    case Binary(_, l, r, _) => Named(l) && Named(r)
    case Assign(x, rhs, _) => IsName(x) && Named(rhs)
  }

  predicate StmtNamed(s: Stmt)
    decreases s, 0
  {
    match s
    case VarDecl(x, _, init) => IsName(x) && (init.Some? ==> Named(init.value))
    case ExprStmt(e) => Named(e)
    case Return(result) => result.Some? ==> Named(result.value)
    case If(c, thn, els) => Named(c) && StmtNamed(thn) && (els.Some? ==> StmtNamed(els.value))
    case While(c, body) => Named(c) && StmtNamed(body)
    case Block(ss) => AllNamed(ss)
  }

  predicate AllNamed(ss: seq<Stmt>)
    decreases ss, 0
  {
    ss == [] || (StmtNamed(ss[0]) && AllNamed(ss[1..]))
  }

  predicate DeclNamed(d: Declaration) {
    && IsName(d.name) && (forall i :: 0 <= i < |d.params| ==> IsName(d.params[i].name))
    && (d.body.Some? ==> StmtNamed(d.body.value))
  }

  lemma {:induction false} FixedSpellable(k: Kind)
    requires !k.TNumber? && !k.TIdentifier? && !k.TEof? && !k.TError?
    ensures Spellable(Fixed(k))
  {
  }

  lemma {:induction false} OperatorSpellable(op: BinaryOp, uop: UnaryOp)
    ensures Spellable(Fixed(KindOf(op))) && Spellable(Fixed(KindOfUnary(uop)))
  {
  }

  lemma {:induction false} TypeSpellable(ty: DataType)
    ensures Spellable(TypeToken(ty))
  {
    hide Fixed, IsName, Spellable;
    FixedSpellable(TInt);
    FixedSpellable(TChar);
    FixedSpellable(TVoid);
    if ty != Int && ty != Char && ty != Void {
      TypeNameIsName(ty);
      NameSpellable(TypeName(ty));
    }
  }

  lemma {:induction false} TypeNameIsName(ty: DataType)
    requires ty != Int && ty != Char && ty != Void
    ensures IsName(TypeName(ty))
  {
  }

  lemma {:induction false} PrintSpellable(e: Expr, p: nat)
    requires Named(e)
    ensures AllSpellable(Print(e, p))
    decreases e, 1
  {
    hide Bare, AllSpellable;
    BareSpellable(e);
    var open, close := [Fixed(TLParen)], [Fixed(TRParen)];
    FixedSpellable(TLParen);
    FixedSpellable(TRParen);
    One(Fixed(TLParen));
    One(Fixed(TRParen));
    Both(open, Bare(e));
    Both(open + Bare(e), close);
  }

  lemma {:induction false} BareSpellable(e: Expr)
    requires Named(e)
    ensures AllSpellable(Bare(e))
    decreases e, 0
  {
    hide Print, AllSpellable, PrintArgs;
    match e
    case Number(text, _) => One(Token(TNumber, text));
    case Identifier(x, _) => One(Token(TIdentifier, x));
    case Unary(op, operand, _) =>
      OperatorSpellable(Add, op);
      One(Fixed(KindOfUnary(op)));
      PrintSpellable(operand, PREC_UNARY);
      Both([Fixed(KindOfUnary(op))], Print(operand, PREC_UNARY));
    case Binary(op, l, r, _) =>
      OperatorSpellable(op, Negate);
      One(Fixed(KindOf(op)));
      PrintSpellable(l, Strength(op) - 1);
      PrintSpellable(r, Strength(op));
      Both(Print(l, Strength(op) - 1), [Fixed(KindOf(op))]);
      Both(Print(l, Strength(op) - 1) + [Fixed(KindOf(op))], Print(r, Strength(op)));
    case Call(fn, args, _) =>
      FixedSpellable(TLParen);
      FixedSpellable(TRParen);
      Two(Token(TIdentifier, fn), Fixed(TLParen));
      One(Fixed(TRParen));
      ArgsSpellable(args);
      Both([Token(TIdentifier, fn), Fixed(TLParen)], PrintArgs(args));
      Both([Token(TIdentifier, fn), Fixed(TLParen)] + PrintArgs(args), [Fixed(TRParen)]);
    case Assign(x, rhs, _) =>
      FixedSpellable(TEqual);
      Two(Token(TIdentifier, x), Fixed(TEqual));
      PrintSpellable(rhs, PREC_ASSIGNMENT);
      Both([Token(TIdentifier, x), Fixed(TEqual)], Print(rhs, PREC_ASSIGNMENT));
  }

  lemma {:induction false} Two(a: Token, b: Token)
    requires Spellable(a) && Spellable(b)
    ensures AllSpellable([a, b])
  {
  }

  lemma {:induction false} ArgsSpellable(args: seq<Expr>)
    requires forall i :: 0 <= i < |args| ==> Named(args[i])
    ensures AllSpellable(PrintArgs(args))
    decreases args, 0
  {
    hide Print, Named;
    if args != [] {
      PrintSpellable(args[0], PREC_ASSIGNMENT);
      if |args| > 1 {
        FixedSpellable(TComma);
        ArgsSpellable(args[1..]);
      }
    }
  }

  lemma {:induction false} StmtSpellable(s: Stmt)
    requires StmtNamed(s)
    ensures AllSpellable(PrintStmt(s))
    decreases s, 0
  {
    hide Print, Named, PrintCondition, Spellable, AllSpellable, Fixed, TypeToken, IsName, PrintStmts;
    match s
    case VarDecl(x, ty, init) => VarDeclSpellable(s);
    case ExprStmt(e) =>
      PrintSpellable(e, PREC_NONE);
      Marked(TSemicolon);
      Both(Print(e, PREC_NONE), [Fixed(TSemicolon)]);
    case Return(result) =>
      Marked(TSemicolon);
      Marked(TReturn);
      if result.Some? {
        PrintSpellable(result.value, PREC_NONE);
        Three([Fixed(TReturn)], Print(result.value, PREC_NONE), [Fixed(TSemicolon)]);
      } else {
        Three([Fixed(TReturn)], [], [Fixed(TSemicolon)]);
      }
    case If(c, thn, els) =>
      ConditionSpellable(c);
      StmtSpellable(thn);
      Marked(TIf);
      Three([Fixed(TIf)], PrintCondition(c), PrintStmt(thn));
      if els.Some? {
        StmtSpellable(els.value);
        Marked(TElse);
        Both([Fixed(TElse)], PrintStmt(els.value));
        Both([Fixed(TIf)] + PrintCondition(c) + PrintStmt(thn), [Fixed(TElse)] + PrintStmt(els.value));
      } else {
        assert PrintStmt(s) == [Fixed(TIf)] + PrintCondition(c) + PrintStmt(thn);
      }
    case While(c, body) =>
      ConditionSpellable(c);
      StmtSpellable(body);
      Marked(TWhile);
      Three([Fixed(TWhile)], PrintCondition(c), PrintStmt(body));
    case Block(ss) =>
      StmtsSpellable(ss);
      Marked(TLBrace);
      Marked(TRBrace);
      Three([Fixed(TLBrace)], PrintStmts(ss), [Fixed(TRBrace)]);
  }

  lemma {:induction false} VarDeclSpellable(s: Stmt)
    requires s.VarDecl? && StmtNamed(s)
    ensures AllSpellable(PrintStmt(s))
  {
    hide Print, Named, Spellable, AllSpellable, Fixed, TypeToken, IsName;
    TypeSpellable(s.varType);
    NameSpellable(s.name);
    Two(TypeToken(s.varType), Token(TIdentifier, s.name));
    Marked(TSemicolon);
    if s.init.Some? {
      PrintSpellable(s.init.value, PREC_NONE);
      Marked(TEqual);
      Both([Fixed(TEqual)], Print(s.init.value, PREC_NONE));
      Three([TypeToken(s.varType), Token(TIdentifier, s.name)], [Fixed(TEqual)] + Print(s.init.value, PREC_NONE),
        [Fixed(TSemicolon)]);
    } else {
      Three([TypeToken(s.varType), Token(TIdentifier, s.name)], [], [Fixed(TSemicolon)]);
    }
  }

  lemma {:induction false} Marked(k: Kind)
    requires !k.TNumber? && !k.TIdentifier? && !k.TEof? && !k.TError?
    ensures AllSpellable([Fixed(k)])
  {
    hide Spellable, Fixed;
    FixedSpellable(k);
  }

  lemma {:induction false} Three(a: seq<Token>, b: seq<Token>, c: seq<Token>)
    requires AllSpellable(a) && (b != [] ==> AllSpellable(b)) && AllSpellable(c)
    ensures AllSpellable(a + b + c)
  {
    hide Spellable;
  }

  lemma {:induction false} NameSpellable(x: string)
    requires IsName(x)
    ensures Spellable(Token(TIdentifier, x))
  {
  }

  lemma {:induction false} ConditionSpellable(c: Expr)
    requires Named(c)
    ensures AllSpellable(PrintCondition(c))
  {
    hide Print, Spellable, AllSpellable, Fixed;
    Marked(TLParen);
    Marked(TRParen);
    PrintSpellable(c, PREC_NONE);
    Three([Fixed(TLParen)], Print(c, PREC_NONE), [Fixed(TRParen)]);
  }

  lemma {:induction false} StmtsSpellable(ss: seq<Stmt>)
    requires AllNamed(ss)
    ensures AllSpellable(PrintStmts(ss))
    decreases ss, 0
  {
    hide PrintStmt, StmtNamed, Spellable;
    if ss != [] {
      StmtSpellable(ss[0]);
      StmtsSpellable(ss[1..]);
    }
  }

  lemma {:induction false} ParamsSpellable(ps: seq<Param>)
    requires forall i :: 0 <= i < |ps| ==> IsName(ps[i].name)
    ensures AllSpellable(PrintParams(ps))
    decreases |ps|
  {
    hide Spellable, IsName, TypeToken, Fixed;
    FixedSpellable(TComma);
    if ps != [] {
      TypeSpellable(ps[0].ty);
      NameSpellable(ps[0].name);
      ParamsSpellable(ps[1..]);
    }
  }

  lemma {:induction false} UnitSpellable(ds: seq<Declaration>)
    requires forall i :: 0 <= i < |ds| ==> DeclNamed(ds[i])
    ensures AllSpellable(PrintUnit(ds))
    decreases |ds|
  {
    hide PrintDecl, DeclNamed, Spellable;
    if ds != [] {
      DeclSpellable(ds[0]);
      UnitSpellable(ds[1..]);
    }
  }

  lemma {:induction false} DeclSpellable(d: Declaration)
    requires DeclNamed(d)
    ensures AllSpellable(PrintDecl(d))
  {
    hide Spellable, IsName, TypeToken, PrintStmt, PrintParams, StmtNamed, Fixed, AllSpellable;
    TypeSpellable(d.returnType);
    NameSpellable(d.name);
    FixedSpellable(TLParen);
    Two(TypeToken(d.returnType), Token(TIdentifier, d.name));
    Marked(TLParen);
    Marked(TRParen);
    Marked(TSemicolon);
    var start := [TypeToken(d.returnType), Token(TIdentifier, d.name)];
    Both(start, [Fixed(TLParen)]);
    assert start + [Fixed(TLParen)] == [TypeToken(d.returnType), Token(TIdentifier, d.name), Fixed(TLParen)];
    ParamsSpellable(d.params);
    Three(start + [Fixed(TLParen)], PrintParams(d.params), [Fixed(TRParen)]);
    if d.body.Some? {
      StmtSpellable(d.body.value);
      Both(start + [Fixed(TLParen)] + PrintParams(d.params) + [Fixed(TRParen)], PrintStmt(d.body.value));
    } else {
      Both(start + [Fixed(TLParen)] + PrintParams(d.params) + [Fixed(TRParen)], [Fixed(TSemicolon)]);
    }
  }

  /**
    From declarations to text and back: within the parser's limits, what is printed with the
    fewest parentheses and one space after each token is read back as the same declarations,
    without an error.
   */
  lemma {:induction false} TextComesBack(ds: seq<Declaration>)
    requires |ds| <= MAX_FUNCTION_COUNT && forall i :: 0 <= i < |ds| ==> DeclFits(ds[i]) && DeclNamed(ds[i])
    ensures ReadTokens(TokensOf(Spell(PrintUnit(ds)))) == Read(WholeDecls(ds), 0)
  {
    hide ParseUnit, TokensOf, Spell, PrintUnit, DeclFits, DeclNamed;
    UnitSpellable(ds);
    SpelledLexes(PrintUnit(ds));
    UnitParses(0, ds, StartOf(PrintUnit(ds)));
  }
}
