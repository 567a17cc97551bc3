/**
  Names are resolved twice: by the analyser's scope chain and by the generator's symbol
  table. They differ in one thing: the analyser checks an initialiser before it declares the
  variable, the generator after. A declaration is identified by its parameter or slot number.
 */
module Resolvers {
  import opened Limits
  import opened Words
  import opened Ast
  import opened Source
  import opened Typing
  import opened Ir
  import opened Lowering
  import opened IrShape
  import opened OpenAddressing
  import opened Semantic

  type Scope = map<string, Symbol>

  /** A name in the program: the declaration it resolves to and the type it is annotated with. */
  datatype Ref = Ref(sym: Option<Symbol>, ty: DataType)

  /** The names in the expression, in the order in which their values are read and written. */
  function Uses(e: Expr, env: Scope): seq<Ref> {
    match e
    case Number(_, _) => []
    case Identifier(x, ty) => [Ref(Resolve(env, x), ty)]
    case Call(_, args, _) => UsesAll(args, env)
    case Unary(_, operand, _) => Uses(operand, env)
    case Binary(_, l, r, _) => Uses(l, env) + Uses(r, env)
    case Assign(x, rhs, ty) => Uses(rhs, env) + [Ref(Resolve(env, x), ty)]
  }

  function UsesAll(es: seq<Expr>, env: Scope): seq<Ref> {
    if es == [] then [] else Uses(es[0], env) + UsesAll(es[1..], env)
  }

  function Resolve(env: Scope, x: string): Option<Symbol> {
    if x in env then Some(env[x]) else None
  }

  /** The resolutions of a statement, the scope it leaves, and the next free slot. */
  datatype Resolved = Resolved(uses: seq<Ref>, env: Scope, slots: nat)

  /** `early`: declare a variable before its initialiser is resolved, as the generator does. */
  function ResolveStmt(s: Stmt, env: Scope, k: nat, early: bool): Resolved
    decreases s, 0
  {
    match s
    case VarDecl(x, ty, init) =>
      var env1 := env[x := Symbol(k, true)];
      var uses := if init.None? then [] else Uses(init.value, if early then env1 else env);
      Resolved(uses + [Ref(Some(Symbol(k, true)), ty)], env1, k + 1)
    case ExprStmt(e) => Resolved(Uses(e, env), env, k)
    case Return(result) => Resolved(if result.None? then [] else Uses(result.value, env), env, k)
    case If(c, thn, els) =>
      var r1 := ResolveStmt(thn, env, k, early);
      var r2 := if els.None? then Resolved([], r1.env, r1.slots) else ResolveStmt(els.value, r1.env, r1.slots, early);
      Resolved(Uses(c, env) + r1.uses + r2.uses, r2.env, r2.slots)
    case While(c, body) =>
      var r := ResolveStmt(body, env, k, early);
      Resolved(Uses(c, env) + r.uses, r.env, r.slots)
    case Block(ss) => ResolveAll(ss, env, k, early).(env := env)
  }

  function ResolveAll(ss: seq<Stmt>, env: Scope, k: nat, early: bool): Resolved
    decreases ss, 0
  {
    if ss == [] then Resolved([], env, k)
    else
      var r1 := ResolveStmt(ss[0], env, k, early);
      var r2 := ResolveAll(ss[1..], r1.env, r1.slots, early);
      Resolved(r1.uses + r2.uses, r2.env, r2.slots)
  }

  // --- Agreement ---------------------------------------------------------------------------

  /** No initialiser mentions the variable that it initialises. */
  predicate NoSelfInit(s: Stmt)
    decreases s, 0
  {
    match s
    case VarDecl(x, _, init) => init.Some? ==> !Mentions(init.value, x)
    case ExprStmt(_) => true
    case Return(_) => true
    case If(_, thn, els) => NoSelfInit(thn) && (els.Some? ==> NoSelfInit(els.value))
    case While(_, body) => NoSelfInit(body)
    case Block(ss) => NoSelfInits(ss)
  }

  predicate NoSelfInits(ss: seq<Stmt>)
    decreases ss, 0
  {
    ss == [] || (NoSelfInit(ss[0]) && NoSelfInits(ss[1..]))
  }

  /** The scopes only hold slots below `k`: the next one is new. */
  ghost predicate Below(env: Scope, k: nat) {
    forall x :: x in env && env[x].isStack ==> env[x].index < k
  }

  lemma {:induction false} UsesLength(e: Expr, env: Scope, env1: Scope)
    ensures |Uses(e, env)| == |Uses(e, env1)|
    decreases e, 0
  {
    match e
    case Call(_, args, _) => UsesAllLength(args, env, env1);
    case Unary(_, operand, _) => UsesLength(operand, env, env1);
    case Binary(_, l, r, _) => UsesLength(l, env, env1); UsesLength(r, env, env1);
    case Assign(_, rhs, _) => UsesLength(rhs, env, env1);
    case Number(_, _) =>
    case Identifier(_, _) =>
  }

  lemma {:induction false} UsesAllLength(es: seq<Expr>, env: Scope, env1: Scope)
    ensures |UsesAll(es, env)| == |UsesAll(es, env1)|
    decreases es, 0
  {
    if es != [] {
      UsesLength(es[0], env, env1);
      UsesAllLength(es[1..], env, env1);
    }
  }

  lemma {:induction false} SplitEqual<T>(a: seq<T>, b: seq<T>, c: seq<T>, d: seq<T>)
    requires |a| == |c|
    ensures a + b == c + d <==> a == c && b == d
  {
    if a + b == c + d {
      assert (a + b)[..|a|] == a && (c + d)[..|a|] == c;
      assert (a + b)[|a|..] == b && (c + d)[|a|..] == d;
    }
  }

  /** A new declaration of `x` changes the resolution of an expression exactly when it mentions `x`. */
  lemma {:induction false} UsesDiffer(e: Expr, env: Scope, x: string, k: nat)
    requires Below(env, k)
    ensures Uses(e, env) == Uses(e, env[x := Symbol(k, true)]) <==> !Mentions(e, x)
    decreases e, 0
  {
    var env1 := env[x := Symbol(k, true)];
    match e
    case Number(_, _) =>
    case Identifier(y, ty) => assert Uses(e, env)[0] == Ref(Resolve(env, y), ty)
      && Uses(e, env1)[0] == Ref(Resolve(env1, y), ty);
    case Call(_, args, _) => UsesAllDiffer(args, env, x, k);
    case Unary(_, operand, _) => UsesDiffer(operand, env, x, k);
    case Binary(_, l, r, _) =>
      UsesDiffer(l, env, x, k);
      UsesDiffer(r, env, x, k);
      UsesLength(l, env, env1);
      SplitEqual(Uses(l, env), Uses(r, env), Uses(l, env1), Uses(r, env1));
    case Assign(y, rhs, ty) =>
      UsesDiffer(rhs, env, x, k);
      UsesLength(rhs, env, env1);
      var a, b := Ref(Resolve(env, y), ty), Ref(Resolve(env1, y), ty);
      SplitEqual(Uses(rhs, env), [a], Uses(rhs, env1), [b]);
      assert [a][0] == a && [b][0] == b;
  }

  lemma {:induction false} UsesAllDiffer(es: seq<Expr>, env: Scope, x: string, k: nat)
    requires Below(env, k)
    ensures UsesAll(es, env) == UsesAll(es, env[x := Symbol(k, true)]) <==>
            forall i :: 0 <= i < |es| ==> !Mentions(es[i], x)
    decreases es, 0
  {
    var env1 := env[x := Symbol(k, true)];
    if es != [] {
      UsesDiffer(es[0], env, x, k);
      UsesAllDiffer(es[1..], env, x, k);
      UsesLength(es[0], env, env1);
      SplitEqual(Uses(es[0], env), UsesAll(es[1..], env), Uses(es[0], env1), UsesAll(es[1..], env1));
      assert forall i :: 1 <= i < |es| ==> es[i] == es[1..][i - 1];
    }
  }

  /** Both orders leave the same scopes and slots behind, and resolve the same number of names. */
  ghost predicate SameAfter(a: Resolved, b: Resolved) {
    a.env == b.env && a.slots == b.slots && |a.uses| == |b.uses|
  }

  lemma {:induction false} StmtAgrees(s: Stmt, env: Scope, k: nat)
    requires Below(env, k)
    ensures var a, b := ResolveStmt(s, env, k, false), ResolveStmt(s, env, k, true);
            SameAfter(a, b) && Below(a.env, a.slots) && k <= a.slots && (a.uses == b.uses <==> NoSelfInit(s))
    decreases s, 0
  {
    hide Uses;
    match s
    case VarDecl(x, _, init) =>
      if init.Some? {
        UsesDiffer(init.value, env, x, k);
        UsesLength(init.value, env, env[x := Symbol(k, true)]);
        SplitEqual(Uses(init.value, env), [Ref(Some(Symbol(k, true)), s.varType)],
                   Uses(init.value, env[x := Symbol(k, true)]), [Ref(Some(Symbol(k, true)), s.varType)]);
      }
    case ExprStmt(_) =>
    case Return(_) =>
    case If(c, thn, els) =>
      StmtAgrees(thn, env, k);
      var a, b := ResolveStmt(thn, env, k, false), ResolveStmt(thn, env, k, true);
      SplitEqual(Uses(c, env), a.uses, Uses(c, env), b.uses);
      if els.Some? {
        StmtAgrees(els.value, a.env, a.slots);
        SplitEqual(Uses(c, env) + a.uses, ResolveStmt(els.value, a.env, a.slots, false).uses,
                   Uses(c, env) + b.uses, ResolveStmt(els.value, a.env, a.slots, true).uses);
      } else {
        SplitEqual(Uses(c, env) + a.uses, [], Uses(c, env) + b.uses, []);
      }
    case While(c, body) =>
      StmtAgrees(body, env, k);
      SplitEqual(Uses(c, env), ResolveStmt(body, env, k, false).uses, Uses(c, env),
        ResolveStmt(body, env, k, true).uses);
    case Block(ss) => AllAgree(ss, env, k);
  }

  lemma {:induction false} AllAgree(ss: seq<Stmt>, env: Scope, k: nat)
    requires Below(env, k)
    ensures var a, b := ResolveAll(ss, env, k, false), ResolveAll(ss, env, k, true);
            SameAfter(a, b) && Below(a.env, a.slots) && k <= a.slots && (a.uses == b.uses <==> NoSelfInits(ss))
    decreases ss, 0
  {
    hide ResolveStmt, NoSelfInit;
    if ss != [] {
      StmtAgrees(ss[0], env, k);
      var a, b := ResolveStmt(ss[0], env, k, false), ResolveStmt(ss[0], env, k, true);
      AllAgree(ss[1..], a.env, a.slots);
      SplitEqual(a.uses, ResolveAll(ss[1..], a.env, a.slots, false).uses, b.uses,
        ResolveAll(ss[1..], a.env, a.slots, true).uses);
    }
  }

  function ParamScope(ps: seq<Param>, v: nat, env: Scope): Scope
    decreases |ps|
  {
    if ps == [] then env else ParamScope(ps[1..], v + 1, env[ps[0].name := Symbol(v, false)])
  }

  /**
    The two resolvers agree on every identifier of a function exactly when no initialiser
    mentions its own variable.
   */
  lemma {:induction false} ResolversAgree(f: Func)
    ensures var env := ParamScope(f.params, 1, map[]);
            ResolveAll(f.body, env, 0, false).uses == ResolveAll(f.body, env, 0, true).uses <==> NoSelfInits(f.body)
  {
    ParamsBelow(f.params, 1, map[]);
    AllAgree(f.body, ParamScope(f.params, 1, map[]), 0);
  }

  lemma {:induction false} ParamsBelow(ps: seq<Param>, v: nat, env: Scope)
    requires Below(env, 0)
    ensures Below(ParamScope(ps, v, env), 0)
    decreases |ps|
  {
    if ps != [] {
      ParamsBelow(ps[1..], v + 1, env[ps[0].name := Symbol(v, false)]);
    }
  }

  // --- The generator's side -----------------------------------------------------------------

  /** The stack slots that the code loads and stores, in order, with the types it uses for them. */
  function Touched(code: seq<Instr>): seq<Ref> {
    if code == [] then []
    else
      var i := code[|code| - 1];
      Touched(code[..|code| - 1]) + if i.Load? || i.Store? then [Ref(Some(Symbol(i.slot, true)), i.ty)] else []
  }

  /** The names that stand for stack slots. */
  function OnStack(uses: seq<Ref>): seq<Ref> {
    if uses == [] then []
    else (if uses[0].sym.Some? && uses[0].sym.value.isStack then [uses[0]] else []) + OnStack(uses[1..])
  }

  lemma {:induction false} OnStackAppend(a: seq<Ref>, b: seq<Ref>)
    ensures OnStack(a + b) == OnStack(a) + OnStack(b)
    decreases |a|
  {
    if a == [] {
      assert a + b == b;
    } else {
      assert (a + b)[1..] == a[1..] + b;
      OnStackAppend(a[1..], b);
    }
  }

  lemma {:induction false} TouchedEmit(g: Gen, i: Instr)
    requires Healthy(Emit(g, i))
    ensures Healthy(g)
    ensures Touched(Emit(g, i).code) == Touched(g.code) + if i.Load?
            || i.Store? then [Ref(Some(Symbol(i.slot, true)), i.ty)] else []
  {
    assert (g.code + [i])[..|g.code|] == g.code;
  }

  lemma {:induction false} ArgsTouchNothing(regs: seq<nat>, from: nat, g: Gen)
    requires Healthy(EmitArgs(regs, from, g))
    ensures Healthy(g) && Touched(EmitArgs(regs, from, g).code) == Touched(g.code)
    decreases |regs|
  {
    hide Touched, Emit;
    if regs != [] {
      ArgsTouchNothing(regs[1..], from + 1, Emit(g, Arg(regs[0], from)));
      TouchedEmit(g, Arg(regs[0], from));
    }
  }

  /** Register 0 stands for failure only. */
  ghost predicate Positive(g: Gen) {
    g.vregs > 0 && forall x :: x in g.env && !g.env[x].isStack ==> g.env[x].index > 0
  }

  lemma {:induction false} TouchedDefine(g: Gen, i: Instr)
    requires g.vregs > 0 && Healthy(Emit(NewVreg(g).0, i))
    ensures Healthy(g) && NewVreg(g).1 == g.vregs
    ensures Touched(Emit(NewVreg(g).0, i).code) == Touched(g.code) + if i.Load?
            || i.Store? then [Ref(Some(Symbol(i.slot, true)), i.ty)] else []
  {
    hide Touched;
    TouchedEmit(NewVreg(g).0, i);
  }

  /** An expression loads the stack slots that its names resolve to, and stores none. */
  lemma {:induction false} ExprTouches(e: Expr, g: Gen)
    requires Positive(g) && Healthy(LowerExpr(e, g).0)
    ensures Healthy(g) && LowerExpr(e, g).1 > 0
    ensures Touched(LowerExpr(e, g).0.code) == Touched(g.code) + OnStack(Uses(e, g.env))
    decreases e, 1
  {
    hide Touched, OnStack;
    NoneOnStack(Touched(g.code));
    match e
    case Number(text, _) => TouchedDefine(g, Const(NewVreg(g).1, NumberValue(text)));
    case Identifier(x, ty) => IdentifierTouches(x, ty, g);
    case Unary(op, operand, _) =>
      var (g1, s) := LowerExpr(operand, g);
      ExprTouches(operand, g);
      TouchedDefine(g1, Un(UnaryOpcode(op), NewVreg(g1).1, s));
    case Binary(_, _, _, _) => BinaryTouches(e, g);
    case Call(_, _, _) => CallTouches(e, g);
    case Assign(_, _, _) =>
  }

  lemma {:induction false} NoneOnStack(touched: seq<Ref>)
    ensures OnStack([]) == [] && touched + [] == touched
  {
  }

  lemma {:induction false} IdentifierTouches(x: string, ty: DataType, g: Gen)
    requires Positive(g) && Healthy(LowerExpr(Identifier(x, ty), g).0)
    ensures Healthy(g) && LowerExpr(Identifier(x, ty), g).1 > 0
    ensures Touched(LowerExpr(Identifier(x, ty), g).0.code) == Touched(g.code) + OnStack(Uses(Identifier(x, ty), g.env))
  {
    hide Touched;
    var r := Ref(Resolve(g.env, x), ty);
    assert OnStack([r]) == (if r.sym.Some? && r.sym.value.isStack then [r] else []) + OnStack([r][1..]);
    NoneOnStack(Touched(g.code));
    if g.env[x].isStack {
      TouchedDefine(g, Load(NewVreg(g).1, g.env[x].index, ty));
    }
  }

  lemma {:induction false} BinaryTouches(e: Expr, g: Gen)
    requires e.Binary? && Positive(g) && Healthy(LowerExpr(e, g).0)
    ensures Healthy(g) && LowerExpr(e, g).1 > 0
    ensures Touched(LowerExpr(e, g).0.code) == Touched(g.code) + OnStack(Uses(e, g.env))
    decreases e, 0
  {
    hide Touched, OnStack;
    var (g1, s1) := LowerExpr(e.left, g);
    ExprTouches(e.left, g);
    var (g2, s2) := LowerExpr(e.right, g1);
    ExprTouches(e.right, g1);
    TouchedDefine(g2, Bin(BinaryOpcode(e.bop, e.left.ty), NewVreg(g2).1, s1, s2));
    OnStackAppend(Uses(e.left, g.env), Uses(e.right, g.env));
  }

  lemma {:induction false} CallTouches(e: Expr, g: Gen)
    requires e.Call? && Positive(g) && Healthy(LowerExpr(e, g).0)
    ensures Healthy(g) && LowerExpr(e, g).1 > 0
    ensures Touched(LowerExpr(e, g).0.code) == Touched(g.code) + OnStack(Uses(e, g.env))
    decreases e, 0
  {
    hide Touched, OnStack;
    var (g1, regs) := LowerArgs(e.args, g);
    ArgsTouch(e.args, g);
    var g2 := EmitArgs(regs, 0, g1);
    TouchedDefine(g2, CallFn(NewVreg(g2).1, e.fn));
    ArgsTouchNothing(regs, 0, g1);
  }

  lemma {:induction false} ArgsTouch(es: seq<Expr>, g: Gen)
    requires Positive(g) && Healthy(LowerArgs(es, g).0)
    ensures Healthy(g) && |LowerArgs(es, g).1| == |es|
    ensures Touched(LowerArgs(es, g).0.code) == Touched(g.code) + OnStack(UsesAll(es, g.env))
    decreases es, 0
  {
    hide Touched, OnStack, LowerExpr, Uses;
    if es == [] {
      NoneOnStack(Touched(g.code));
    } else {
      var (g1, s) := LowerExpr(es[0], g);
      ExprTouches(es[0], g);
      ArgsTouch(es[1..], g1);
      OnStackAppend(Uses(es[0], g.env), UsesAll(es[1..], g.env));
    }
  }

  /** What lowering a statement does to slots and scopes, as early resolution says. */
  ghost predicate ResolvedBy(g: Gen, g1: Gen, r: Resolved) {
    && Healthy(g) && Positive(g1)
    && Touched(g1.code) == Touched(g.code) + OnStack(r.uses)
    && g1.env == r.env && g1.slots == r.slots
  }

  /** The generator resolves names as early resolution does. */
  lemma {:induction false} StmtTouches(s: Stmt, g: Gen)
    requires Positive(g) && Healthy(LowerStmt(s, g))
    ensures ResolvedBy(g, LowerStmt(s, g), ResolveStmt(s, g.env, g.slots, true))
    decreases s, 1
  {
    hide Touched, OnStack, LowerExpr, Uses;
    match s
    case VarDecl(_, _, _) => DeclareTouches(s, g);
    case ExprStmt(e) =>
      if e.Assign? {
        AssignTouches(s, g);
      } else {
        ExprTouches(e, g);
      }
    case Return(result) =>
      if result.Some? {
        ExprTouches(result.value, g);
        TouchedEmit(LowerExpr(result.value, g).0, Ret(LowerExpr(result.value, g).1));
      } else {
        NoneOnStack(Touched(g.code));
      }
    case If(_, _, els) =>
      if els.Some? {
        IfElseTouches(s, g);
      } else {
        IfTouches(s, g);
      }
    case While(_, _) => WhileTouches(s, g);
    case Block(ss) => AllTouch(ss, g);
  }

  lemma {:induction false} DeclareTouches(s: Stmt, g: Gen)
    requires s.VarDecl? && Positive(g) && Healthy(LowerStmt(s, g))
    ensures ResolvedBy(g, LowerStmt(s, g), ResolveStmt(s, g.env, g.slots, true))
  {
    hide Touched, OnStack, LowerExpr, Uses;
    var k := g.slots;
    var g1 := g.(slots := k + 1, env := g.env[s.name := Symbol(k, true)]);
    var (g2, v) := if s.init.Some? then LowerExpr(s.init.value, g1) else ZeroInit(g1);
    var own := Ref(Some(Symbol(k, true)), s.varType);
    var uses := if s.init.None? then [] else Uses(s.init.value, g1.env);
    if s.init.Some? {
      ExprTouches(s.init.value, g1);
    } else {
      NoneOnStack(Touched(g.code));
      TouchedDefine(g1, Const(NewVreg(g1).1, 0));
    }
    TouchedEmit(g2, Store(k, v, s.varType));
    OnStackAppend(uses, [own]);
    OnStackOne(own);
  }

  lemma {:induction false} OnStackOne(r: Ref)
    ensures OnStack([r]) == if r.sym.Some? && r.sym.value.isStack then [r] else []
  {
    assert OnStack([r]) == (if r.sym.Some? && r.sym.value.isStack then [r] else []) + OnStack([r][1..]);
  }

  lemma {:induction false} AssignTouches(s: Stmt, g: Gen)
    requires s.ExprStmt? && s.e.Assign? && Positive(g) && Healthy(LowerStmt(s, g))
    ensures ResolvedBy(g, LowerStmt(s, g), ResolveStmt(s, g.env, g.slots, true))
  {
    hide Touched, OnStack, LowerExpr;
    var e := s.e;
    var (g1, v) := LowerExpr(e.rhs, g);
    ExprTouches(e.rhs, g);
    var sym := g.env[e.target];
    TouchedEmit(g1, if sym.isStack then Store(sym.index, v, e.ty) else Mov(sym.index, v));
    var own := Ref(Resolve(g.env, e.target), e.ty);
    OnStackAppend(Uses(e.rhs, g.env), [own]);
    OnStackOne(own);
  }

  lemma {:induction false} IfElseTouches(s: Stmt, g: Gen)
    requires s.If? && s.els.Some? && Positive(g) && Healthy(LowerStmt(s, g))
    ensures ResolvedBy(g, LowerStmt(s, g), ResolveStmt(s, g.env, g.slots, true))
    decreases s, 0
  {
    hide Touched, OnStack, LowerExpr, Uses, Emit, LowerStmt;
    IfElseUnfold(s, g);
    var (g1, v) := LowerExpr(s.cond, g);
    var l := g1.labels;
    var g2 := g1.(labels := l + 2);
    var ga := Emit(g2, Jz(v, l));
    ExprTouches(s.cond, g);
    TouchedEmit(g2, Jz(v, l));
    StmtTouches(s.thn, ga);
    var g3 := LowerStmt(s.thn, ga);
    TouchedEmit(g3, Jmp(l + 1));
    TouchedEmit(Emit(g3, Jmp(l + 1)), Label(l));
    var g4 := Emit(Emit(g3, Jmp(l + 1)), Label(l));
    StmtTouches(s.els.value, g4);
    TouchedEmit(LowerStmt(s.els.value, g4), Label(l + 1));
    var r1 := ResolveStmt(s.thn, g.env, g.slots, true);
    var r2 := ResolveStmt(s.els.value, r1.env, r1.slots, true);
    OnStackAppend(Uses(s.cond, g.env), r1.uses);
    OnStackAppend(Uses(s.cond, g.env) + r1.uses, r2.uses);
  }

  lemma {:induction false} IfTouches(s: Stmt, g: Gen)
    requires s.If? && s.els.None? && Positive(g) && Healthy(LowerStmt(s, g))
    ensures ResolvedBy(g, LowerStmt(s, g), ResolveStmt(s, g.env, g.slots, true))
    decreases s, 0
  {
    hide Touched, OnStack, LowerExpr, Uses;
    var (g1, v) := LowerExpr(s.cond, g);
    var l := g1.labels;
    var g2 := g1.(labels := l + 1);
    ExprTouches(s.cond, g);
    TouchedEmit(g2, Jz(v, l));
    StmtTouches(s.thn, Emit(g2, Jz(v, l)));
    TouchedEmit(LowerStmt(s.thn, Emit(g2, Jz(v, l))), Label(l));
    var r1 := ResolveStmt(s.thn, g.env, g.slots, true);
    OnStackAppend(Uses(s.cond, g.env), r1.uses);
    assert Uses(s.cond, g.env) + r1.uses + [] == Uses(s.cond, g.env) + r1.uses;
  }

  lemma {:induction false} WhileTouches(s: Stmt, g: Gen)
    requires s.While? && Positive(g) && Healthy(LowerStmt(s, g))
    ensures ResolvedBy(g, LowerStmt(s, g), ResolveStmt(s, g.env, g.slots, true))
    decreases s, 0
  {
    hide Touched, OnStack, LowerExpr, Uses, Emit, LowerStmt;
    WhileUnfold(s, g);
    var l := g.labels;
    var gl := g.(labels := l + 2);
    var g0 := Emit(gl, Label(l));
    TouchedEmit(gl, Label(l));
    var (g1, v) := LowerExpr(s.cond, g0);
    ExprTouches(s.cond, g0);
    TouchedEmit(g1, Jz(v, l + 1));
    StmtTouches(s.body, Emit(g1, Jz(v, l + 1)));
    var g2 := LowerStmt(s.body, Emit(g1, Jz(v, l + 1)));
    TouchedEmit(g2, Jmp(l));
    TouchedEmit(Emit(g2, Jmp(l)), Label(l + 1));
    OnStackAppend(Uses(s.cond, g.env), ResolveStmt(s.body, g.env, g.slots, true).uses);
  }

  lemma {:induction false} AllTouch(ss: seq<Stmt>, g: Gen)
    requires Positive(g) && Healthy(LowerStmts(ss, g))
    ensures ResolvedBy(g, LowerStmts(ss, g), ResolveAll(ss, g.env, g.slots, true))
    decreases ss, 0
  {
    hide Touched, OnStack, LowerStmt, ResolveStmt;
    if ss == [] {
      NoneOnStack(Touched(g.code));
    } else {
      var g1 := LowerStmt(ss[0], g);
      assert Healthy(g1);
      StmtTouches(ss[0], g);
      AllTouch(ss[1..], g1);
      OnStackAppend(ResolveStmt(ss[0], g.env, g.slots, true).uses, ResolveAll(ss[1..], g1.env, g1.slots, true).uses);
    }
  }

  lemma {:induction false} ParamsResolved(ps: seq<Param>, g: Gen)
    requires Positive(g) && LowerParams(ps, g).errors == g.errors
    ensures LowerParams(ps, g).env == ParamScope(ps, g.vregs, g.env) && Positive(LowerParams(ps, g))
    decreases |ps|
  {
    if ps != [] {
      var (g1, v) := NewVreg(g);
      var g2 := g1.(env := g1.env[ps[0].name := Symbol(v, false)]);
      assert v != 0 ==> LowerParams(ps[1..], g2).errors >= g2.errors;
      ParamsResolved(ps[1..], g2);
    }
  }

  /** The slots that the code of a function touches are those that early resolution names. */
  lemma {:induction false} LoweredTouches(f: Func)
    requires LowerFunc(f).Some?
    ensures Touched(LowerFunc(f).value.code) ==
            OnStack(ResolveAll(f.body, ParamScope(f.params, 1, map[]), 0, true).uses)
  {
    hide LowerStmts, ResolveAll, OnStack;
    var gp := LowerParams(f.params, Start);
    assert LowerStmts(f.body, gp).errors >= gp.errors;
    ParamsResolved(f.params, Start);
    AllTouch(f.body, gp);
    assert Touched([]) == [];
  }

  // --- The analyser's side --------------------------------------------------------------------

  /** The type that each declaration was made with. */
  type Kinds = map<Symbol, DataType>

  /**
    The scope chain gives each name the type of the declaration that it resolves to; all
    declarations are below slot `k`.
   */
  ghost predicate Known(sc: Scopes, hash: string -> nat, env: Scope, kinds: Kinds, k: nat)
    requires Sized(sc)
  {
    && (forall x :: x in env ==> env[x] in kinds)
    && (forall x :: LookupVar(sc, hash, x) == if x in env then Some(kinds[env[x]]) else None)
    && (forall s :: s in kinds && s.isStack ==> s.index < k)
  }

  /** The name is resolved, and annotated with the type of its declaration. */
  predicate RefOk(r: Ref, kinds: Kinds) {
    r.sym.Some? && r.sym.value in kinds && kinds[r.sym.value] == r.ty
  }

  predicate AllRefsOk(uses: seq<Ref>, kinds: Kinds) {
    forall i :: 0 <= i < |uses| ==> RefOk(uses[i], kinds)
  }

  ghost predicate MoreKinds(kinds: Kinds, kinds1: Kinds) {
    forall s :: s in kinds ==> s in kinds1 && kinds1[s] == kinds[s]
  }

  lemma {:induction false} RefsStillOk(uses: seq<Ref>, kinds: Kinds, kinds1: Kinds)
    requires AllRefsOk(uses, kinds) && MoreKinds(kinds, kinds1)
    ensures AllRefsOk(uses, kinds1)
  {
    forall i | 0 <= i < |uses| ensures RefOk(uses[i], kinds1) {
      assert RefOk(uses[i], kinds);
    }
  }

  lemma {:induction false} ExprRefs(e: Expr, sc: Scopes, hash: string -> nat, sig: Signatures, env: Scope,
                                    kinds: Kinds, k: nat)
    requires Sized(sc) && Known(sc, hash, env, kinds, k) && Plain(e) && CheckExpr(e, sc, hash, sig).0
    ensures AllRefsOk(Uses(CheckExpr(e, sc, hash, sig).1, env), kinds)
    decreases e, 0
  {
    hide LookupVar, LookupFunction, ResultType, NumberType, Known;
    match e
    case Number(_, _) =>
    case Identifier(x, _) => KnownName(sc, hash, env, kinds, k, x);
    case Call(fn, args, _) => ArgsRefs(args, LookupFunction(sig.functions, fn).value.params, sc, hash, sig, env, kinds,
      k);
    case Unary(_, operand, _) => ExprRefs(operand, sc, hash, sig, env, kinds, k);
    case Binary(_, l, r, _) =>
      ExprRefs(l, sc, hash, sig, env, kinds, k);
      ExprRefs(r, sc, hash, sig, env, kinds, k);
    case Assign(_, _, _) =>
  }

  lemma {:induction false} KnownName(sc: Scopes, hash: string -> nat, env: Scope, kinds: Kinds, k: nat, x: string)
    requires Sized(sc) && Known(sc, hash, env, kinds, k) && LookupVar(sc, hash, x).Some?
    ensures RefOk(Ref(Resolve(env, x), LookupVar(sc, hash, x).value), kinds)
  {
    hide LookupVar;
    assert LookupVar(sc, hash, x) == if x in env then Some(kinds[env[x]]) else None;
  }

  lemma {:induction false} ArgsRefs(args: seq<Expr>, ps: seq<Param>, sc: Scopes, hash: string -> nat, sig: Signatures,
                                    env: Scope, kinds: Kinds, k: nat)
    requires Sized(sc) && Known(sc, hash, env, kinds, k) && |args| == |ps| && CheckArgs(args, ps, sc, hash, sig).0
    requires forall i :: 0 <= i < |args| ==> Plain(args[i])
    ensures AllRefsOk(UsesAll(CheckArgs(args, ps, sc, hash, sig).1, env), kinds)
    decreases args, 0
  {
    hide LookupVar, CheckExpr, Known, Uses;
    if args != [] {
      ExprRefs(args[0], sc, hash, sig, env, kinds, k);
      ArgsRefs(args[1..], ps[1..], sc, hash, sig, env, kinds, k);
      var out := CheckArgs(args, ps, sc, hash, sig).1;
      assert out[1..] == CheckArgs(args[1..], ps[1..], sc, hash, sig).1;
    }
  }

  /** What an accepted statement does to the analyser's scopes, as late resolution says. */
  ghost predicate ResolvedLate(sc1: Scopes, hash: string -> nat, kinds: Kinds, kinds1: Kinds, k: nat, r: Resolved) {
    && ScopesOk(sc1, hash) && Known(sc1, hash, r.env, kinds1, r.slots) && k <= r.slots
    && MoreKinds(kinds, kinds1) && AllRefsOk(r.uses, kinds1)
  }

  /** The analyser resolves names as late resolution does. */
  lemma {:induction false} StmtRefs(s: Stmt, sc: Scopes, hash: string -> nat, sig: Signatures, ret: DataType,
                                    env: Scope, kinds: Kinds, k: nat)
    returns (kinds1: Kinds)
    requires ScopesOk(sc, hash) && Known(sc, hash, env, kinds, k) && Regular(s) && CheckStmt(s, sc, hash, sig, ret).0
    ensures var (_, s1, sc1) := CheckStmt(s, sc, hash, sig, ret);
            ResolvedLate(sc1, hash, kinds, kinds1, k, ResolveStmt(s1, env, k, false))
    decreases s, 0
  {
    hide CheckExpr, LookupVar, DeclareVar, Known, AllRefsOk, Uses, NoHoles;
    kinds1 := kinds;
    NoRefs(kinds);
    match s
    case VarDecl(x, ty, init) =>
      kinds1 := DeclareRefs(s, sc, hash, sig, ret, env, kinds, k);
    case ExprStmt(e) =>
      if e.Assign? {
        AssignRefs(s, sc, hash, sig, ret, env, kinds, k);
      } else {
        ExprRefs(e, sc, hash, sig, env, kinds, k);
      }
    case Return(result) =>
      if result.Some? {
        ExprRefs(result.value, sc, hash, sig, env, kinds, k);
      }
    case If(c, thn, els) =>
      ExprRefs(c, sc, hash, sig, env, kinds, k);
      kinds1 := StmtRefs(thn, sc, hash, sig, ret, env, kinds, k);
      var (_, thn1, sc1) := CheckStmt(thn, sc, hash, sig, ret);
      var r1 := ResolveStmt(thn1, env, k, false);
      var uses := Uses(CheckExpr(c, sc, hash, sig).1, env);
      RefsStillOk(uses, kinds, kinds1);
      BothOk(uses, r1.uses, kinds1);
      if els.Some? {
        var kinds2 := StmtRefs(els.value, sc1, hash, sig, ret, r1.env, kinds1, r1.slots);
        var r2 := ResolveStmt(CheckStmt(els.value, sc1, hash, sig, ret).1, r1.env, r1.slots, false);
        RefsStillOk(uses + r1.uses, kinds1, kinds2);
        BothOk(uses + r1.uses, r2.uses, kinds2);
        kinds1 := kinds2;
      } else {
        BothOk(uses + r1.uses, [], kinds1);
      }
    case While(c, body) =>
      ExprRefs(c, sc, hash, sig, env, kinds, k);
      kinds1 := StmtRefs(body, sc, hash, sig, ret, env, kinds, k);
      var uses := Uses(CheckExpr(c, sc, hash, sig).1, env);
      RefsStillOk(uses, kinds, kinds1);
      BothOk(uses, ResolveStmt(CheckStmt(body, sc, hash, sig, ret).1, env, k, false).uses, kinds1);
    case Block(ss) => kinds1 := BlockRefs(ss, sc, hash, sig, ret, env, kinds, k);
  }

  lemma {:induction false} NoRefs(kinds: Kinds)
    ensures AllRefsOk([], kinds) && MoreKinds(kinds, kinds)
  {
  }

  lemma {:induction false} BothOk(a: seq<Ref>, b: seq<Ref>, kinds: Kinds)
    requires AllRefsOk(a, kinds) && AllRefsOk(b, kinds)
    ensures AllRefsOk(a + b, kinds)
  {
  }

  lemma {:induction false} DeclareRefs(s: Stmt, sc: Scopes, hash: string -> nat, sig: Signatures, ret: DataType,
                                       env: Scope, kinds: Kinds, k: nat)
    returns (kinds1: Kinds)
    requires s.VarDecl? && ScopesOk(sc, hash) && Known(sc, hash, env, kinds, k) && Regular(s)
    requires CheckStmt(s, sc, hash, sig, ret).0
    ensures var (_, s1, sc1) := CheckStmt(s, sc, hash, sig, ret);
            ResolvedLate(sc1, hash, kinds, kinds1, k, ResolveStmt(s1, env, k, false))
  {
    hide CheckExpr, LookupVar, DeclareVar, AllRefsOk, Uses, NoHoles;
    var own := Symbol(k, true);
    kinds1 := kinds[own := s.varType];
    NoRefs(kinds);
    DeclaredLookup(sc, hash, s.name, s.varType);
    var uses := [];
    if s.init.Some? {
      ExprRefs(s.init.value, sc, hash, sig, env, kinds, k);
      uses := Uses(CheckExpr(s.init.value, sc, hash, sig).1, env);
    }
    RefsStillOk(uses, kinds, kinds1);
    OneOk(Ref(Some(own), s.varType), kinds1);
    BothOk(uses, [Ref(Some(own), s.varType)], kinds1);
  }

  lemma {:induction false} OneOk(r: Ref, kinds: Kinds)
    requires RefOk(r, kinds)
    ensures AllRefsOk([r], kinds)
  {
  }

  lemma {:induction false} AssignRefs(s: Stmt, sc: Scopes, hash: string -> nat, sig: Signatures, ret: DataType,
                                      env: Scope, kinds: Kinds, k: nat)
    requires s.ExprStmt? && s.e.Assign? && ScopesOk(sc, hash) && Known(sc, hash, env, kinds, k)
    requires Regular(s) && CheckStmt(s, sc, hash, sig, ret).0
    ensures AllRefsOk(ResolveStmt(CheckStmt(s, sc, hash, sig, ret).1, env, k, false).uses, kinds)
  {
    hide CheckExpr, LookupVar, Known, AllRefsOk, NoHoles;
    ExprRefs(s.e.rhs, sc, hash, sig, env, kinds, k);
    KnownName(sc, hash, env, kinds, k, s.e.target);
    var own := Ref(Resolve(env, s.e.target), LookupVar(sc, hash, s.e.target).value);
    OneOk(own, kinds);
    BothOk(Uses(CheckExpr(s.e.rhs, sc, hash, sig).1, env), [own], kinds);
  }

  lemma {:induction false} BlockRefs(ss: seq<Stmt>, sc: Scopes, hash: string -> nat, sig: Signatures, ret: DataType,
                                     env: Scope, kinds: Kinds, k: nat)
    returns (kinds1: Kinds)
    requires ScopesOk(sc, hash) && Known(sc, hash, env, kinds, k) && AllRegular(ss)
    requires CheckStmts(ss, sc + [EmptyScope()], hash, sig, ret).0
    ensures var (_, ss1, sc1) := CheckStmts(ss, sc + [EmptyScope()], hash, sig, ret);
            ResolvedLate(sc1[..|sc|], hash, kinds, kinds1, k, ResolveAll(ss1, env, k, false).(env := env))
    decreases ss, 1
  {
    hide LookupVar, CheckStmts, AllRefsOk, NoHoles, EmptyScope;
    EnteredLookup(sc, hash);
    kinds1 := StmtsRefs(ss, sc + [EmptyScope()], hash, sig, ret, env, kinds, k);
    BlockRestores(ss, sc, hash, sig, ret);
  }

  lemma {:induction false} StmtsRefs(ss: seq<Stmt>, sc: Scopes, hash: string -> nat, sig: Signatures, ret: DataType,
                                     env: Scope, kinds: Kinds, k: nat)
    returns (kinds1: Kinds)
    requires ScopesOk(sc, hash) && Known(sc, hash, env, kinds, k) && AllRegular(ss)
    requires CheckStmts(ss, sc, hash, sig, ret).0
    ensures var (_, ss1, sc1) := CheckStmts(ss, sc, hash, sig, ret);
            ResolvedLate(sc1, hash, kinds, kinds1, k, ResolveAll(ss1, env, k, false))
    decreases ss, 0
  {
    hide CheckStmt, Known, AllRefsOk, NoHoles, ResolveStmt, Regular;
    kinds1 := kinds;
    NoRefs(kinds);
    if ss != [] {
      kinds1 := StmtRefs(ss[0], sc, hash, sig, ret, env, kinds, k);
      var (_, s1, sc1) := CheckStmt(ss[0], sc, hash, sig, ret);
      var r1 := ResolveStmt(s1, env, k, false);
      var kinds2 := StmtsRefs(ss[1..], sc1, hash, sig, ret, r1.env, kinds1, r1.slots);
      var out := CheckStmts(ss, sc, hash, sig, ret).1;
      assert out[0] == s1 && out[1..] == CheckStmts(ss[1..], sc1, hash, sig, ret).1;
      RefsStillOk(r1.uses, kinds1, kinds2);
      BothOk(r1.uses, ResolveAll(out[1..], r1.env, r1.slots, false).uses, kinds2);
      kinds1 := kinds2;
    }
  }

  // --- Both sides together ---------------------------------------------------------------------

  lemma {:induction false} ParamsKnown(ps: seq<Param>, sc: Scopes, hash: string -> nat, env: Scope, kinds: Kinds,
                                       v: nat)
    returns (kinds1: Kinds)
    requires ScopesOk(sc, hash) && Known(sc, hash, env, kinds, 0) && CheckParams(ps, sc, hash).0
    requires forall s :: s in kinds ==> s.index < v
    ensures ScopesOk(CheckParams(ps, sc, hash).1, hash)
    ensures Known(CheckParams(ps, sc, hash).1, hash, ParamScope(ps, v, env), kinds1, 0)
    decreases |ps|
  {
    hide DeclareVar, LookupVar, NoHoles;
    kinds1 := kinds;
    if ps != [] {
      DeclaredLookup(sc, hash, ps[0].name, ps[0].ty);
      var sc1 := DeclareVar(sc, hash, ps[0].name, ps[0].ty).value;
      var sym := Symbol(v, false);
      kinds1 := ParamsKnown(ps[1..], sc1, hash, env[ps[0].name := sym], kinds[sym := ps[0].ty], v + 1);
    }
  }

  lemma {:induction false} TypedNoSelfInit(s: Stmt, vars: seq<Var>)
    requires TypedStmt(s, vars)
    ensures NoSelfInit(s)
    decreases s, 0
  {
    hide TypedExpr, Mentions;
    match s
    case If(_, thn, els) =>
      TypedNoSelfInit(thn, vars);
      if els.Some? {
        TypedNoSelfInit(els.value, vars);
      }
    case While(_, body) => TypedNoSelfInit(body, vars);
    case Block(ss) => AllTypedNoSelfInit(ss, vars);
    case VarDecl(_, _, _) =>
    case ExprStmt(_) =>
    case Return(_) =>
  }

  lemma {:induction false} AllTypedNoSelfInit(ss: seq<Stmt>, vars: seq<Var>)
    requires TypedStmts(ss, vars)
    ensures NoSelfInits(ss)
    decreases ss, 0
  {
    if ss != [] {
      TypedNoSelfInit(ss[0], vars);
      AllTypedNoSelfInit(ss[1..], vars + Declared(ss[0]));
    }
  }

  lemma {:induction false} OnStackOk(uses: seq<Ref>, kinds: Kinds)
    requires AllRefsOk(uses, kinds)
    ensures AllRefsOk(OnStack(uses), kinds)
  {
    if uses != [] {
      OnStackOk(uses[1..], kinds);
      assert RefOk(uses[0], kinds);
    }
  }

  /**
    In the code of an accepted function every load and store of a slot uses one type, that of
    the declaration to which the analyser resolved the name.
   */
  lemma {:induction false} SlotsHaveOneType(f: Func, hash: string -> nat, sig: Signatures) returns (kinds: Kinds)
    requires CheckFunc(f, hash, sig).0 && AllRegular(f.body) && LowerFunc(CheckFunc(f, hash, sig).1).Some?
    ensures var f1 := CheckFunc(f, hash, sig).1;
            var late := ResolveAll(f1.body, ParamScope(f.params, 1, map[]), 0, false).uses;
            && AllRefsOk(late, kinds)
            && Touched(LowerFunc(f1).value.code) == OnStack(late) && AllRefsOk(Touched(LowerFunc(f1).value.code), kinds)
  {
    hide LowerFunc, CheckStmts, CheckParams, AllRegular, AllRefsOk, NoHoles, Known, ResolveAll, TypedStmts,
      EmptyScope, Touched, OnStack;
    var f1 := CheckFunc(f, hash, sig).1;
    AcceptedIsTyped(f, hash, sig);
    AllTypedNoSelfInit(f1.body, ParamVars(f.params));
    ResolversAgree(f1);
    LoweredTouches(f1);
    kinds := AcceptedRefs(f, hash, sig);
    OnStackOk(ResolveAll(f1.body, ParamScope(f.params, 1, map[]), 0, false).uses, kinds);
  }

  /** Every name in an accepted function is resolved, and annotated with its declaration's type. */
  lemma {:induction false} AcceptedRefs(f: Func, hash: string -> nat, sig: Signatures) returns (kinds: Kinds)
    requires CheckFunc(f, hash, sig).0 && AllRegular(f.body)
    ensures AllRefsOk(ResolveAll(CheckFunc(f, hash, sig).1.body, ParamScope(f.params, 1, map[]), 0, false).uses, kinds)
  {
    hide CheckStmts, CheckParams, AllRegular, AllRefsOk, NoHoles, ResolveAll, Known;
    NothingKnown(hash);
    kinds := ParamsKnown(f.params, [EmptyScope()], hash, map[], map[], 1);
    kinds := StmtsRefs(f.body, CheckParams(f.params, [EmptyScope()], hash).1, hash, sig, f.returnType,
      ParamScope(f.params, 1, map[]), kinds, 0);
  }

  lemma {:induction false} NothingKnown(hash: string -> nat)
    ensures ScopesOk([EmptyScope()], hash) && Known([EmptyScope()], hash, map[], map[], 0)
  {
    hide NoHoles, EmptyScope;
    EnteredLookup([], hash);
    assert [] + [EmptyScope()] == [EmptyScope()];
  }

  // --- No undefined variables ---------------------------------------------------------------------

  /** The symbol table knows exactly the variables in scope. */
  ghost predicate Names(g: Gen, vars: seq<Var>) {
    Positive(g) && forall x :: x in g.env <==> Lookup(vars, x).Some?
  }

  /** Nothing went wrong between `g` and `g1`, or the virtual registers ran out. */
  predicate OnlyRegisters(g: Gen, g1: Gen) {
    g1.errors == g.errors || g1.vregs >= MAX_VREGS
  }

  lemma {:induction false} DefineErrors(g: Gen, i: Instr)
    requires g.vregs > 0
    ensures OnlyRegisters(g, NewVreg(g).0)
    ensures NewVreg(g).0.errors == g.errors ==> NewVreg(g).1 > 0
    ensures OnlyRegisters(g, Emit(NewVreg(g).0, i)) && Emit(NewVreg(g).0, i).errors == NewVreg(g).0.errors
  {
  }

  lemma {:induction false} ExprErrors(e: Expr, g: Gen, vars: seq<Var>)
    requires TypedExpr(e, vars) && Names(g, vars)
    ensures OnlyRegisters(g, LowerExpr(e, g).0)
    ensures LowerExpr(e, g).0.errors == g.errors ==> LowerExpr(e, g).1 > 0
    decreases e, 0
  {
    hide Lookup;
    match e
    case Number(text, _) => DefineErrors(g, Const(NewVreg(g).1, NumberValue(text)));
    case Identifier(x, ty) =>
      if g.env[x].isStack {
        DefineErrors(g, Load(NewVreg(g).1, g.env[x].index, ty));
      }
    case Unary(op, operand, _) =>
      var (g1, s) := LowerExpr(operand, g);
      ExprErrors(operand, g, vars);
      DefineErrors(g1, Un(UnaryOpcode(op), NewVreg(g1).1, s));
    case Binary(op, l, r, _) =>
      var (g1, s1) := LowerExpr(l, g);
      ExprErrors(l, g, vars);
      var (g2, s2) := LowerExpr(r, g1);
      ExprErrors(r, g1, vars);
      DefineErrors(g2, Bin(BinaryOpcode(op, l.ty), NewVreg(g2).1, s1, s2));
    case Call(fn, args, _) =>
      ArgsErrors(args, g, vars);
      var (g1, regs) := LowerArgs(args, g);
      var g2 := EmitArgs(regs, 0, g1);
      DefineErrors(g2, CallFn(NewVreg(g2).1, fn));
  }

  lemma {:induction false} ArgsErrors(es: seq<Expr>, g: Gen, vars: seq<Var>)
    requires (forall i :: 0 <= i < |es| ==> TypedExpr(es[i], vars)) && Names(g, vars)
    ensures OnlyRegisters(g, LowerArgs(es, g).0)
    ensures LowerArgs(es, g).0.errors == g.errors ==> |LowerArgs(es, g).1| == |es|
    decreases es, 0
  {
    hide Lookup, TypedExpr, LowerExpr;
    if es != [] {
      ExprErrors(es[0], g, vars);
      var (g1, s) := LowerExpr(es[0], g);
      if s != 0 {
        ArgsErrors(es[1..], g1, vars);
      }
    }
  }

  /** What is left after a statement: the names in scope, unless the registers ran out. */
  ghost predicate NamesAfter(g: Gen, g1: Gen, vars: seq<Var>) {
    OnlyRegisters(g, g1) && (g1.errors == g.errors ==> Names(g1, vars))
  }

  lemma {:induction false} StmtErrors(s: Stmt, g: Gen, vars: seq<Var>)
    requires TypedStmt(s, vars) && Names(g, vars)
    ensures NamesAfter(g, LowerStmt(s, g), vars + Declared(s))
    decreases s, 1
  {
    hide Lookup, LowerExpr, TypedExpr;
    assert vars + [] == vars;
    match s
    case VarDecl(_, _, _) => DeclareErrors(s, g, vars);
    case ExprStmt(e) =>
      if e.Assign? {
        ExprErrors(e.rhs, g, vars);
      } else {
        ExprErrors(e, g, vars);
      }
    case Return(result) =>
      if result.Some? {
        ExprErrors(result.value, g, vars);
      }
    case If(_, _, _) => IfErrors(s, g, vars);
    case While(_, _) => WhileErrors(s, g, vars);
    case Block(ss) => AllErrors(ss, g, vars);
  }

  lemma {:induction false} DeclareErrors(s: Stmt, g: Gen, vars: seq<Var>)
    requires s.VarDecl? && TypedStmt(s, vars) && Names(g, vars)
    ensures NamesAfter(g, LowerStmt(s, g), vars + Declared(s))
  {
    hide Lookup, LowerExpr, TypedExpr;
    var k := g.slots;
    var v := Var(s.name, s.varType, true);
    var g1 := g.(slots := k + 1, env := g.env[s.name := Symbol(k, true)]);
    forall x ensures x in g1.env <==> Lookup(vars + [v], x).Some? {
      LookupPushed(vars, v, x);
    }
    if s.init.Some? {
      TypedMore(s.init.value, vars, v);
      ExprErrors(s.init.value, g1, vars + [v]);
    } else {
      DefineErrors(g1, Const(NewVreg(g1).1, 0));
    }
  }

  /** An expression is typed in a larger scope, if it does not mention what was added. */
  lemma {:induction false} TypedMore(e: Expr, vars: seq<Var>, v: Var)
    requires TypedExpr(e, vars) && !Mentions(e, v.name)
    ensures TypedExpr(e, vars + [v])
    decreases e, 0
  {
    hide Lookup;
    match e
    case Identifier(x, _) => LookupPushed(vars, v, x);
    case Call(_, args, _) =>
      forall i | 0 <= i < |args| ensures TypedExpr(args[i], vars + [v]) {
        TypedMore(args[i], vars, v);
      }
    case Unary(_, operand, _) => TypedMore(operand, vars, v);
    case Binary(_, l, r, _) => TypedMore(l, vars, v); TypedMore(r, vars, v);
    case Number(_, _) =>
  }

  lemma {:induction false} IfErrors(s: Stmt, g: Gen, vars: seq<Var>)
    requires s.If? && TypedStmt(s, vars) && Names(g, vars)
    ensures NamesAfter(g, LowerStmt(s, g), vars)
    decreases s, 0
  {
    hide Lookup, LowerExpr, TypedExpr, LowerStmt;
    IfParts(s, g, vars);
    ExprErrors(s.cond, g, vars);
    var (g1, v) := LowerExpr(s.cond, g);
    var l := g1.labels;
    if v != 0 && g1.errors == g.errors {
      if s.els.Some? {
        var ga := Emit(g1.(labels := l + 2), Jz(v, l));
        StmtErrors(s.thn, ga, vars);
        var g3 := LowerStmt(s.thn, ga);
        var g4 := Emit(Emit(g3, Jmp(l + 1)), Label(l));
        if g3.errors == g.errors {
          StmtErrors(s.els.value, g4, vars);
        }
      } else {
        StmtErrors(s.thn, Emit(g1.(labels := l + 1), Jz(v, l)), vars);
      }
    }
  }

  lemma {:induction false} IfParts(s: Stmt, g: Gen, vars: seq<Var>)
    requires s.If? && TypedStmt(s, vars)
    ensures vars + [] == vars && TypedExpr(s.cond, vars) && TypedStmt(s.thn, vars) && Declared(s.thn) == []
    ensures s.els.Some? ==> TypedStmt(s.els.value, vars) && Declared(s.els.value) == []
    ensures LowerStmt(s, g) ==
            if s.els.Some? then LowerIfElse(s.cond, s.thn, s.els.value, g) else LowerIf(s.cond, s.thn, g)
  {
    hide TypedExpr, LowerIf, LowerIfElse;
  }

  lemma {:induction false} WhileErrors(s: Stmt, g: Gen, vars: seq<Var>)
    requires s.While? && TypedStmt(s, vars) && Names(g, vars)
    ensures NamesAfter(g, LowerStmt(s, g), vars)
    decreases s, 0
  {
    hide Lookup, LowerExpr, TypedExpr;
    assert vars + [] == vars;
    var l := g.labels;
    var g0 := Emit(g.(labels := l + 2), Label(l));
    ExprErrors(s.cond, g0, vars);
    var (g1, v) := LowerExpr(s.cond, g0);
    if v != 0 && g1.errors == g.errors {
      StmtErrors(s.body, Emit(g1, Jz(v, l + 1)), vars);
    }
  }

  lemma {:induction false} AllErrors(ss: seq<Stmt>, g: Gen, vars: seq<Var>)
    requires TypedStmts(ss, vars) && Names(g, vars)
    ensures OnlyRegisters(g, LowerStmts(ss, g))
    decreases ss, 0
  {
    hide Names, LowerStmt, TypedStmt;
    if ss != [] {
      StmtErrors(ss[0], g, vars);
      var g1 := LowerStmt(ss[0], g);
      if g1.errors == g.errors {
        AllErrors(ss[1..], g1, vars + Declared(ss[0]));
      }
    }
  }

  lemma {:induction false} ParamErrors(ps: seq<Param>, g: Gen, vars: seq<Var>)
    requires Names(g, vars)
    ensures NamesAfter(g, LowerParams(ps, g), vars + ParamVars(ps))
    decreases |ps|
  {
    hide Lookup;
    if ps == [] {
      assert vars + ParamVars(ps) == vars;
    } else {
      var (g1, d) := NewVreg(g);
      var g2 := g1.(env := g1.env[ps[0].name := Symbol(d, false)]);
      var v := Var(ps[0].name, ps[0].ty, false);
      DefineErrors(g, Ret(1));
      if d != 0 {
        forall x ensures x in g2.env <==> Lookup(vars + [v], x).Some? {
          LookupPushed(vars, v, x);
        }
        ParamErrors(ps[1..], g2, vars + [v]);
        assert vars + ParamVars(ps) == vars + [v] + ParamVars(ps[1..]);
      }
    }
  }

  /** The generator reports no undefined variable in an accepted function: only its registers can run out. */
  lemma {:induction false} AcceptedLowers(f: Func)
    requires TypedFunc(f)
    ensures LowerFunc(f).Some? || LowerBody(f).vregs >= MAX_VREGS || |LowerBody(f).code| >= MAX_IR_INSTRUCTIONS
  {
    hide LowerParams, LowerStmts, TypedStmts, ParamVars;
    assert Names(Start, []);
    ParamErrors(f.params, Start, []);
    assert [] + ParamVars(f.params) == ParamVars(f.params);
    var gp := LowerParams(f.params, Start);
    assert Grows(gp, LowerStmts(f.body, gp));
    if gp.errors == 0 {
      AllErrors(f.body, gp, ParamVars(f.params));
    }
  }
}
