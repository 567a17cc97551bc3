/**
  What the premise on initialisers is for: a function that the analyser accepts, whose source
  returns 1, and whose IR reads a slot that was never written.
 */
module SelfInit {
  import opened Words
  import opened Ast
  import opened Source
  import opened Typing
  import opened Ir
  import opened Lowering
  import opened OpenAddressing
  import opened Semantic
  import opened Resolvers

  function One(): Expr {
    Number("1", Int)
  }

  function X(): Expr {
    Identifier("x", Int)
  }

  /** int f() { int x = 1; { int x = x; return x; } } */
  function Example(): Func {
    Func("f", Int, [], [VarDecl("x", Int, Some(One())), Inner()])
  }

  function Inner(): Stmt {
    Block([VarDecl("x", Int, Some(X())), Return(Some(X()))])
  }

  function Program1(): Program {
    map["f" := Example()]
  }

  lemma {:induction false} OneIsOne()
    ensures NumberValue("1") == 1
  {
    var t := "1";
    assert t[..|t| - 1] == [];
    assert Digits(t) == 10 * Digits([]) + DigitOf('1');
  }

  // --- The analyser accepts ---------------------------------------------------------------

  lemma {:induction false} DeclaredIn(sc: Scopes, hash: string -> nat, ty: DataType)
    requires ScopesOk(sc, hash)
    ensures var sc0 := sc + [EmptyScope()];
            DeclareVar(sc0, hash, "x", ty).Some?
  {
    var sc0 := sc + [EmptyScope()];
    assert Probe(EmptyScope(), hash("x"), "x", 0) == 0;
  }

  lemma {:induction false} InnerAccepted(sc: Scopes, hash: string -> nat, sig: Signatures)
    requires ScopesOk(sc, hash) && LookupVar(sc, hash, "x") == Some(Int)
    ensures CheckStmt(Inner(), sc, hash, sig, Int).0
  {
    hide NoHoles, LookupVar, DeclareVar, EmptyScope;
    var sc0 := sc + [EmptyScope()];
    EnteredLookup(sc, hash);
    DeclaredIn(sc, hash, Int);
    DeclaredLookup(sc0, hash, "x", Int);
    var sc1 := DeclareVar(sc0, hash, "x", Int).value;
    var decl, ret := VarDecl("x", Int, Some(X())), Return(Some(X()));
    assert CheckStmt(decl, sc0, hash, sig, Int) == (true, decl, sc1);
    assert CheckStmt(ret, sc1, hash, sig, Int).0;
    var ss := [decl, ret];
    assert ss[1..] == [ret] && [ret][1..] == [];
    assert CheckStmts([ret], sc1, hash, sig, Int).0;
    assert CheckStmts(ss, sc0, hash, sig, Int).0;
  }

  lemma {:induction false} Accepted(hash: string -> nat, sig: Signatures)
    ensures CheckFunc(Example(), hash, sig).0
  {
    hide NoHoles, LookupVar, DeclareVar, EmptyScope, Inner;
    OneIsOne();
    NothingKnown(hash);
    DeclaredIn([], hash, Int);
    assert [] + [EmptyScope()] == [EmptyScope()];
    DeclaredLookup([EmptyScope()], hash, "x", Int);
    var sc1 := DeclareVar([EmptyScope()], hash, "x", Int).value;
    InnerAccepted(sc1, hash, sig);
    var decl := VarDecl("x", Int, Some(One()));
    assert CheckStmt(decl, [EmptyScope()], hash, sig, Int) == (true, decl, sc1);
    var ss := [decl, Inner()];
    assert ss[1..] == [Inner()] && [Inner()][1..] == [];
    assert CheckStmts([Inner()], sc1, hash, sig, Int).0;
    assert CheckStmts(ss, [EmptyScope()], hash, sig, Int).0;
  }

  // --- The source returns 1 ----------------------------------------------------------------

  lemma {:induction false} SourceReturnsOne(tr: Trace, fuel: nat)
    ensures Invoke(Program1(), "f", [], tr, fuel) == Returned(1, tr)
  {
    OneIsOne();
    var p := Program1();
    var env0 := Bindings(ParamVars([]), []);
    assert env0 == Bindings([], []);
    var outer, inner := Var("x", Int, true), Var("x", Int, true);
    var env1 := Push(env0, outer, 1);
    var env2 := Push(env1, inner, 1);
    assert Keep(outer, 1) == 1;
    assert Find(env1.vars, "x") == 0 && Find(env2.vars, "x") == 1;
    var decl, ret := VarDecl("x", Int, Some(X())), Return(Some(X()));
    assert Exec(p, decl, env1, tr, fuel) == Normal(env2, tr);
    assert Exec(p, ret, env2, tr, fuel) == Done(Returned(1, tr));
    var ss := [decl, ret];
    assert ss[1..] == [ret];
    assert ExecAll(p, [ret], env2, tr, fuel) == Done(Returned(1, tr));
    assert ExecAll(p, ss, env1, tr, fuel) == Done(Returned(1, tr));
    assert Exec(p, Inner(), env1, tr, fuel) == Done(Returned(1, tr));
    assert Exec(p, VarDecl("x", Int, Some(One())), env0, tr, fuel) == Normal(env1, tr);
    var body := Example().body;
    assert body[1..] == [Inner()];
    assert ExecAll(p, [Inner()], env1, tr, fuel) == Done(Returned(1, tr));
  }

  // --- The IR reads what was never written ---------------------------------------------------

  function ExampleCode(): seq<Instr> {
    [Const(1, 1), Store(0, 1, Int), Load(2, 1, Int), Store(1, 2, Int), Load(3, 1, Int), Ret(3)]
  }

  lemma {:induction false} Lowered()
    ensures LowerFunc(Example()) == Some(IrFunc(ExampleCode(), 0, 4, 2, 0))
  {
    OneIsOne();
    var g0 := Start.(slots := 1, env := map["x" := Symbol(0, true)]);
    var g1 := g0.(code := [Const(1, 1), Store(0, 1, Int)], vregs := 2);
    assert LowerStmt(VarDecl("x", Int, Some(One())), Start) == g1;
    var decl, ret := VarDecl("x", Int, Some(X())), Return(Some(X()));
    var g2 := g1.(slots := 2, env := map["x" := Symbol(1, true)], vregs := 3,
              code := g1.code + [Load(2, 1, Int)] + [Store(1, 2, Int)]);
    assert LowerStmt(decl, g1) == g2;
    var g3 := g2.(vregs := 4, code := g2.code + [Load(3, 1, Int)] + [Ret(3)]);
    assert LowerStmt(ret, g2) == g3;
    var ss := [decl, ret];
    assert ss[1..] == [ret] && [ret][1..] == [];
    assert LowerStmts([ret], g2) == g3;
    assert LowerStmts(ss, g1) == g3;
    assert LowerStmt(Inner(), g1) == g3.(env := g1.env);
    var body := Example().body;
    assert body[1..] == [Inner()] && [Inner()][1..] == [];
    assert LowerStmts([Inner()], g1) == g3.(env := g1.env);
    assert g3.code == ExampleCode();
  }

  lemma {:induction false} IrIsStuck(q: IrProgram, args: seq<Word>, tr: Trace, fuel: nat)
    requires fuel >= 3
    ensures Run(q, IrFunc(ExampleCode(), 0, 4, 2, 0), Initial([], tr), fuel) == Stuck
  {
    var f := IrFunc(ExampleCode(), 0, 4, 2, 0);
    var c0 := Initial([], tr);
    var c1 := c0.(pc := 1, vregs := c0.vregs[1 := 1]);
    assert Next(f, c0) == Go(c1);
    var c2 := c1.(pc := 2, slots := map[0 := Slot(4, Narrow(1, 4))]);
    assert Next(f, c1) == Go(c2);
    assert Next(f, c2) == End(Stuck);
    assert Run(q, f, c2, fuel - 2) == Stuck;
    assert Run(q, f, c1, fuel - 1) == Stuck;
  }

  /** The two resolvers disagree on the initialiser, and the generated code reads the wrong slot. */
  lemma {:induction false} SelfInitMisread(hash: string -> nat, sig: Signatures, q: IrProgram, tr: Trace, fuel: nat)
    requires fuel >= 3
    ensures CheckFunc(Example(), hash, sig).0 && Invoke(Program1(), "f", [], tr, fuel) == Returned(1, tr)
    ensures LowerFunc(Example()).Some? && Run(q, LowerFunc(Example()).value, Initial([], tr), fuel) == Stuck
    ensures ResolveAll(Example().body, map[], 0, false).uses != ResolveAll(Example().body, map[], 0, true).uses
  {
    Accepted(hash, sig);
    SourceReturnsOne(tr, fuel);
    Lowered();
    IrIsStuck(q, [], tr, fuel);
    var decl := VarDecl("x", Int, Some(X()));
    assert Mentions(X(), "x");
    assert !NoSelfInit(decl);
    var ss := [decl, Return(Some(X()))];
    assert !NoSelfInits(ss) && !NoSelfInit(Inner());
    var body := Example().body;
    assert body[1..] == [Inner()];
    assert !NoSelfInits([Inner()]) && !NoSelfInits(body);
    ResolversAgree(Example());
  }
}
