/**
  Where the narrowing check does not look: a function that is accepted without a warning, and
  whose run loses the value of its constant initialiser.
 */
module SilentLosses {
  import opened Words
  import opened Ast
  import opened Source
  import opened Typing
  import opened Ir
  import opened Lowering
  import opened OpenAddressing
  import opened Semantic
  import opened Resolvers
  import opened SelfInit
  import opened ConstEval

  function Half(): Expr {
    Number("65536", Int)
  }

  function Product(): Expr {
    Binary(Mul, Half(), Half(), Int)
  }

  /** int f() { int x = 65536 * 65536; return x; } */
  function Lossy(): Func {
    Func("f", Int, [], [VarDecl("x", Int, Some(Product())), Return(Some(X()))])
  }

  lemma {:induction false} ProductChecked(sc: Scopes, hash: string -> nat, sig: Signatures)
    requires Sized(sc)
    ensures CheckExpr(Product(), sc, hash, sig) == (true, Product())
    ensures ConstValue(Product()) == Value(0x1_0000_0000)
  {
    hide NumberValue;
    Numeral();
    assert CheckExpr(Half(), sc, hash, sig) == (true, Half());
    assert ConstValue(Half()) == Value(65536);
  }

  lemma {:induction false} DeclAccepted(hash: string -> nat, sig: Signatures) returns (sc: Scopes)
    ensures Sized(sc) && LookupVar(sc, hash, "x") == Some(Int)
    ensures CheckStmt(Lossy().body[0], [EmptyScope()], hash, sig, Int) == (true, Lossy().body[0], sc)
  {
    hide NoHoles, LookupVar, DeclareVar, EmptyScope, Product, CheckExpr;
    ProductChecked([EmptyScope()], hash, sig);
    ProductIsInt();
    NothingKnown(hash);
    DeclaredIn([], hash, Int);
    assert [] + [EmptyScope()] == [EmptyScope()];
    DeclaredLookup([EmptyScope()], hash, "x", Int);
    sc := DeclareVar([EmptyScope()], hash, "x", Int).value;
  }

  lemma {:induction false} ReturnAccepted(sc: Scopes, hash: string -> nat, sig: Signatures)
    requires Sized(sc) && LookupVar(sc, hash, "x") == Some(Int)
    ensures CheckStmt(Lossy().body[1], sc, hash, sig, Int) == (true, Lossy().body[1], sc)
  {
    hide LookupVar, CheckExpr;
    XChecked(sc, hash, sig);
  }

  lemma {:induction false} TwoAccepted(a: Stmt, b: Stmt, sc: Scopes, sc1: Scopes, sc2: Scopes, hash: string -> nat,
                                       sig: Signatures, ret: DataType)
    requires Sized(sc) && Sized(sc1) && CheckStmt(a, sc, hash, sig, ret) == (true, a, sc1)
    requires CheckStmt(b, sc1, hash, sig, ret) == (true, b, sc2)
    ensures CheckStmts([a, b], sc, hash, sig, ret).0 && CheckStmts([a, b], sc, hash, sig, ret).1 == [a, b]
  {
    hide CheckStmt;
    var ss := [a, b];
    assert ss[1..] == [b] && [b][1..] == [];
    assert CheckStmts([b], sc1, hash, sig, ret).0 && CheckStmts([b], sc1, hash, sig, ret).1 == [b];
  }

  lemma {:induction false} LossyAccepted(hash: string -> nat, sig: Signatures)
    ensures CheckFunc(Lossy(), hash, sig).0 && CheckFunc(Lossy(), hash, sig).1 == Lossy()
  {
    hide NoHoles, LookupVar, CheckStmts, CheckStmt, Product;
    var sc := DeclAccepted(hash, sig);
    ReturnAccepted(sc, hash, sig);
    var a, b := Lossy().body[0], Lossy().body[1];
    TwoAccepted(a, b, [EmptyScope()], sc, sc, hash, sig, Int);
    assert Lossy().body == [a, b];
  }

  lemma {:induction false} ProductIsInt()
    ensures Product().ty == Int && !Product().Assign?
  {
  }

  lemma {:induction false} XChecked(sc: Scopes, hash: string -> nat, sig: Signatures)
    requires Sized(sc) && LookupVar(sc, hash, "x") == Some(Int)
    ensures CheckExpr(X(), sc, hash, sig) == (true, X())
  {
    hide LookupVar;
  }

  function LossyCode(): seq<Instr> {
    [Const(1, 65536), Const(2, 65536), Bin(IrMul, 3, 1, 2), Store(0, 3, Int), Load(4, 0, Int), Ret(4)]
  }

  lemma {:induction false} ProductLowered(g: Gen)
    requires g.code == [] && g.vregs == 1
    ensures var code := [Const(1, 65536), Const(2, 65536), Bin(IrMul, 3, 1, 2)];
            LowerExpr(Product(), g) == (g.(code := code, vregs := 4), 3)
  {
    hide NumberValue;
    Numeral();
    var g1 := g.(code := [] + [Const(1, 65536)], vregs := 2);
    assert LowerExpr(Half(), g) == (g1, 1);
    var g2 := g1.(code := g1.code + [Const(2, 65536)], vregs := 3);
    assert LowerExpr(Half(), g1) == (g2, 2);
    assert g2.code + [Bin(IrMul, 3, 1, 2)] == [Const(1, 65536), Const(2, 65536), Bin(IrMul, 3, 1, 2)];
  }

  /** After the declaration. */
  function Declared1(): Gen {
    Gen(LossyCode()[..4], 4, 1, 0, map["x" := Symbol(0, true)], 0)
  }

  lemma {:induction false} DeclLowered()
    ensures LowerStmt(Lossy().body[0], Start) == Declared1()
  {
    hide LowerExpr, Product;
    var g0 := Start.(slots := 1, env := map["x" := Symbol(0, true)]);
    ProductLowered(g0);
    assert LowerExpr(Product(), g0).0.code + [Store(0, 3, Int)] == LossyCode()[..4];
  }

  lemma {:induction false} ReturnLowered()
    ensures LowerStmt(Lossy().body[1], Declared1()) == Declared1().(code := LossyCode(), vregs := 5)
  {
    var g := Declared1();
    var g1 := g.(code := g.code + [Load(4, 0, Int)], vregs := 5);
    assert LowerExpr(X(), g) == (g1, 4);
    assert g1.code + [Ret(4)] == LossyCode();
  }

  lemma {:induction false} LossyLowered()
    ensures LowerFunc(Lossy()) == Some(IrFunc(LossyCode(), 0, 5, 1, 0))
  {
    hide Product, LowerStmt, LossyCode;
    DeclLowered();
    ReturnLowered();
    var body := Lossy().body;
    var rest := body[1..];
    assert rest[1..] == [] && rest[0] == body[1];
    assert LowerStmts(rest, Declared1()) == LowerStmt(body[1], Declared1());
    assert |LossyCode()| == 6 by { CodeLength(); }
  }

  lemma {:induction false} CodeLength()
    ensures |LossyCode()| == 6
  {
  }

  lemma {:induction false} LossyRuns(q: IrProgram, tr: Trace, fuel: nat)
    requires fuel >= 6
    ensures Run(q, IrFunc(LossyCode(), 0, 5, 1, 0), Initial([], tr), fuel) == Returned(0, tr)
  {
    var f := IrFunc(LossyCode(), 0, 5, 1, 0);
    var c0 := Initial([], tr);
    var c1 := c0.(pc := 1, vregs := c0.vregs[1 := 65536]);
    assert Next(f, c0) == Go(c1);
    var c2 := c1.(pc := 2, vregs := c1.vregs[2 := 65536]);
    assert Next(f, c1) == Go(c2);
    var c3 := c2.(pc := 3, vregs := c2.vregs[3 := 0x1_0000_0000]);
    assert AluMeaning(IrMul, 65536, 65536) == Some(0x1_0000_0000);
    assert Next(f, c2) == Go(c3);
    var c4 := c3.(pc := 4, slots := map[0 := Slot(4, 0)]);
    assert Narrow(0x1_0000_0000, 4) == 0;
    assert Next(f, c3) == Go(c4);
    var c5 := c4.(pc := 5, vregs := c4.vregs[4 := 0]);
    assert Next(f, c4) == Go(c5);
    LastSteps(q, f, c4, c5, tr, fuel - 4);
    assert Run(q, f, c3, fuel - 3) == Returned(0, tr);
    assert Run(q, f, c2, fuel - 2) == Returned(0, tr);
    assert Run(q, f, c1, fuel - 1) == Returned(0, tr);
  }

  lemma {:induction false} LastSteps(q: IrProgram, f: IrFunc, c4: Conf, c5: Conf, tr: Trace, fuel: nat)
    requires f.code == LossyCode() && c4.pc == 4 && Next(f, c4) == Go(c5)
    requires c5.pc == 5 && 4 in c5.vregs && c5.vregs[4] == 0 && c5.trace == tr && fuel >= 2
    ensures Run(q, f, c4, fuel) == Returned(0, tr)
  {
    assert Next(f, c5) == End(Returned(0, tr));
    assert Run(q, f, c5, fuel - 1) == Returned(0, tr);
  }

  /**
    65536 * 65536 has type int, so an int local can be initialised with it without a warning.
    The function is accepted as it is, its constant is 4294967296, and every run returns 0.
   */
  lemma {:induction false} SilentLoss(hash: string -> nat, sig: Signatures, q: IrProgram, tr: Trace, fuel: nat)
    requires fuel >= 6
    ensures CheckFunc(Lossy(), hash, sig).0 && CheckFunc(Lossy(), hash, sig).1 == Lossy()
    ensures !Warns(Int, Product().ty, Product()) && ConstValue(Product()) == Value(0x1_0000_0000)
    ensures LowerFunc(Lossy()).Some? && Run(q, LowerFunc(Lossy()).value, Initial([], tr), fuel) == Returned(0, tr)
  {
    hide CheckFunc, LowerFunc, Run, ConstValue, Lossy;
    LossyAccepted(hash, sig);
    ProductIsInt();
    ProductChecked([], hash, sig);
    LossyLowered();
    LossyRuns(q, tr, fuel);
  }
}
