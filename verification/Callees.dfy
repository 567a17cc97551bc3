/**
  Every call that stands in the source stands in the code that is generated for it, whether it
  is ever reached or not: the same calls in the order of evaluation, each directly after as
  many ARGs as it has arguments.
 */
module Callees {
  import opened Words
  import opened Ast
  import opened Ir
  import opened Lowering
  import opened IrShape
  import opened Resolvers

  /** A call, by the name of the function and the number of arguments. */
  datatype CallShape = CallShape(fn: string, count: nat)

  // --- The calls of the source, those in arguments first ------------------------------------------

  function CallsIn(e: Expr): seq<CallShape> {
    match e
    case Number(_, _) => []
    case Identifier(_, _) => []
    case Call(fn, args, _) => CallsInAll(args) + [CallShape(fn, |args|)]
    case Unary(_, operand, _) => CallsIn(operand)
    case Binary(_, l, r, _) => CallsIn(l) + CallsIn(r)
    case Assign(_, rhs, _) => CallsIn(rhs)
  }

  function CallsInAll(es: seq<Expr>): seq<CallShape> {
    if es == [] then [] else CallsIn(es[0]) + CallsInAll(es[1..])
  }

  function CallsInStmt(s: Stmt): seq<CallShape>
    decreases s, 0
  {
    match s
    case VarDecl(_, _, init) => if init.Some? then CallsIn(init.value) else []
    case ExprStmt(e) => CallsIn(e)
    case Return(result) => if result.Some? then CallsIn(result.value) else []
    case If(c, thn, els) => CallsIn(c) + CallsInStmt(thn) + if els.Some? then CallsInStmt(els.value) else []
    case While(c, body) => CallsIn(c) + CallsInStmt(body)
    case Block(ss) => CallsInBody(ss)
  }

  function CallsInBody(ss: seq<Stmt>): seq<CallShape>
    decreases ss, 0
  {
    if ss == [] then [] else CallsInStmt(ss[0]) + CallsInBody(ss[1..])
  }

  function NamesOf(calls: seq<CallShape>): set<string> {
    set c | c in calls :: c.fn
  }

  // --- The calls of the code ------------------------------------------------------------------------

  /** How many ARGs stand at the end of the code. */
  function ArgsAtEnd(code: seq<Instr>): nat {
    if code == [] || !code[|code| - 1].Arg? then 0 else 1 + ArgsAtEnd(code[..|code| - 1])
  }

  /** The CALL instructions in order, each with the number of ARGs directly before it. */
  function CallsMade(code: seq<Instr>): seq<CallShape> {
    if code == [] then []
    else
      var front, i := code[..|code| - 1], code[|code| - 1];
      CallsMade(front) + if i.CallFn? then [CallShape(i.fn, ArgsAtEnd(front))] else []
  }

  /** The names in the CALL instructions of the code. */
  function CalledBy(code: seq<Instr>): set<string> {
    set i | i in code && i.CallFn? :: i.fn
  }

  lemma {:induction false} MadeMore(g: Gen, i: Instr)
    requires Healthy(Emit(g, i))
    ensures CallsMade(Emit(g, i).code) ==
            CallsMade(g.code) + if i.CallFn? then [CallShape(i.fn, ArgsAtEnd(g.code))] else []
    ensures ArgsAtEnd(Emit(g, i).code) == if i.Arg? then ArgsAtEnd(g.code) + 1 else 0
  {
    assert (g.code + [i])[..|g.code|] == g.code;
  }

  /** `g1` has the calls `calls` more than `g`, and does not end in an ARG. */
  ghost predicate MakesCalls(g: Gen, g1: Gen, calls: seq<CallShape>) {
    CallsMade(g1.code) == CallsMade(g.code) + calls && ArgsAtEnd(g1.code) == 0
  }

  lemma {:induction false} MakesNone(g: Gen)
    requires ArgsAtEnd(g.code) == 0
    ensures MakesCalls(g, g, [])
  {
  }

  /** An instruction that is neither an ARG nor a CALL. */
  lemma {:induction false} MakesPlain(g0: Gen, g: Gen, i: Instr, calls: seq<CallShape>)
    requires MakesCalls(g0, g, calls) && Healthy(Emit(g, i)) && !i.Arg? && !i.CallFn?
    ensures MakesCalls(g0, Emit(g, i), calls)
  {
    hide CallsMade, ArgsAtEnd;
    MadeMore(g, i);
    assert CallsMade(g.code) + [] == CallsMade(g.code);
  }

  lemma {:induction false} MakesBoth(g0: Gen, g1: Gen, g2: Gen, a: seq<CallShape>, b: seq<CallShape>)
    requires MakesCalls(g0, g1, a) && MakesCalls(g1, g2, b)
    ensures MakesCalls(g0, g2, a + b)
  {
    hide CallsMade, ArgsAtEnd;
    assert CallsMade(g0.code) + a + b == CallsMade(g0.code) + (a + b);
  }

  lemma {:induction false} ArgsEmitted(regs: seq<nat>, from: nat, g: Gen)
    requires Healthy(EmitArgs(regs, from, g))
    ensures CallsMade(EmitArgs(regs, from, g).code) == CallsMade(g.code)
    ensures ArgsAtEnd(EmitArgs(regs, from, g).code) == ArgsAtEnd(g.code) + |regs|
    decreases |regs|
  {
    hide CallsMade, ArgsAtEnd, Emit;
    if regs != [] {
      ArgsEmitted(regs[1..], from + 1, Emit(g, Arg(regs[0], from)));
      MadeMore(g, Arg(regs[0], from));
      assert CallsMade(g.code) + [] == CallsMade(g.code);
    }
  }

  // --- Lowering keeps them ------------------------------------------------------------------------

  lemma {:induction false} ExprCalls(e: Expr, g: Gen)
    requires Positive(g) && Healthy(LowerExpr(e, g).0) && ArgsAtEnd(g.code) == 0
    ensures MakesCalls(g, LowerExpr(e, g).0, CallsIn(e))
    decreases e, 1
  {
    hide CallsMade, ArgsAtEnd, Touched, OnStack, Uses;
    MakesNone(g);
    match e
    case Number(text, _) => MakesPlain(g, NewVreg(g).0, Const(NewVreg(g).1, NumberValue(text)), []);
    case Identifier(x, ty) =>
      ExprTouches(e, g);
      if g.env[x].isStack {
        MakesPlain(g, NewVreg(g).0, Load(NewVreg(g).1, g.env[x].index, ty), []);
      }
    case Unary(op, operand, _) =>
      ExprTouches(operand, g);
      ExprCalls(operand, g);
      var (g1, s) := LowerExpr(operand, g);
      MakesPlain(g, NewVreg(g1).0, Un(UnaryOpcode(op), NewVreg(g1).1, s), CallsIn(e));
    case Binary(_, _, _, _) => BinaryCalls(e, g);
    case Call(_, _, _) => CallCalls(e, g);
    case Assign(_, _, _) =>
  }

  lemma {:induction false} BinaryCalls(e: Expr, g: Gen)
    requires e.Binary? && Positive(g) && Healthy(LowerExpr(e, g).0) && ArgsAtEnd(g.code) == 0
    ensures MakesCalls(g, LowerExpr(e, g).0, CallsIn(e))
    decreases e, 0
  {
    hide CallsMade, ArgsAtEnd, Touched, OnStack, Uses;
    var (g1, s1) := LowerExpr(e.left, g);
    ExprTouches(e.left, g);
    var (g2, s2) := LowerExpr(e.right, g1);
    ExprTouches(e.right, g1);
    ExprCalls(e.left, g);
    ExprCalls(e.right, g1);
    MakesBoth(g, g1, g2, CallsIn(e.left), CallsIn(e.right));
    MakesPlain(g, NewVreg(g2).0, Bin(BinaryOpcode(e.bop, e.left.ty), NewVreg(g2).1, s1, s2), CallsIn(e));
  }

  lemma {:induction false} CallCalls(e: Expr, g: Gen)
    requires e.Call? && Positive(g) && Healthy(LowerExpr(e, g).0) && ArgsAtEnd(g.code) == 0
    ensures MakesCalls(g, LowerExpr(e, g).0, CallsIn(e))
    decreases e, 0
  {
    hide CallsMade, ArgsAtEnd, Touched, OnStack, Uses, CallsInAll, LowerArgs, EmitArgs;
    var (g1, regs) := LowerArgs(e.args, g);
    var g2 := EmitArgs(regs, 0, g1);
    ArgsTouch(e.args, g);
    ArgsCalls(e.args, g);
    ArgsEmitted(regs, 0, g1);
    MadeMore(NewVreg(g2).0, CallFn(NewVreg(g2).1, e.fn));
    var own := [CallShape(e.fn, |e.args|)];
    assert CallsMade(g.code) + CallsInAll(e.args) + own == CallsMade(g.code) + (CallsInAll(e.args) + own);
  }

  lemma {:induction false} ArgsCalls(es: seq<Expr>, g: Gen)
    requires Positive(g) && Healthy(LowerArgs(es, g).0) && ArgsAtEnd(g.code) == 0
    ensures MakesCalls(g, LowerArgs(es, g).0, CallsInAll(es))
    decreases es, 0
  {
    hide CallsMade, ArgsAtEnd, Touched, OnStack, LowerExpr, CallsIn, Uses;
    if es == [] {
      MakesNone(g);
    } else {
      ExprTouches(es[0], g);
      var g1 := LowerExpr(es[0], g).0;
      ExprCalls(es[0], g);
      ArgsCalls(es[1..], g1);
      MakesBoth(g, g1, LowerArgs(es, g).0, CallsIn(es[0]), CallsInAll(es[1..]));
    }
  }

  /** What is needed to go on after an expression. */
  lemma {:induction false} PartCalls(e: Expr, g: Gen, g1: Gen)
    requires Positive(g) && Healthy(g1) && Grows(LowerExpr(e, g).0, g1) && ArgsAtEnd(g.code) == 0
    ensures MakesCalls(g, LowerExpr(e, g).0, CallsIn(e)) && Healthy(LowerExpr(e, g).0) && LowerExpr(e, g).1 > 0
  {
    hide CallsMade, ArgsAtEnd, LowerExpr, CallsIn, Touched, OnStack, Uses, MakesCalls;
    ExprTouches(e, g);
    ExprCalls(e, g);
  }

  lemma {:induction false} StmtCalls(s: Stmt, g: Gen)
    requires Positive(g) && Healthy(LowerStmt(s, g)) && ArgsAtEnd(g.code) == 0
    ensures MakesCalls(g, LowerStmt(s, g), CallsInStmt(s)) && Positive(LowerStmt(s, g))
    decreases s, 1
  {
    hide CallsMade, ArgsAtEnd, Touched, OnStack, LowerExpr, CallsIn, Uses, MakesCalls, ResolveStmt;
    StmtTouches(s, g);
    match s
    case VarDecl(_, _, _) => DeclareCalls(s, g);
    case ExprStmt(e) =>
      if e.Assign? {
        AssignCalls(s, g);
      } else {
        PartCalls(e, g, LowerStmt(s, g));
      }
    case Return(result) =>
      if result.Some? {
        PartCalls(result.value, g, LowerStmt(s, g));
        var (g1, v) := LowerExpr(result.value, g);
        MakesPlain(g, g1, Ret(v), CallsInStmt(s));
      } else {
        MakesNone(g);
      }
    case If(_, _, els) =>
      if els.Some? {
        IfElseCalls(s, g);
      } else {
        IfCalls(s, g);
      }
    case While(_, _) => WhileCalls(s, g);
    case Block(ss) =>
      BodyCalls(ss, g);
      SameCode(g, LowerStmts(ss, g), LowerStmt(s, g), CallsInBody(ss));
  }

  lemma {:induction false} SameCode(g: Gen, g1: Gen, g2: Gen, calls: seq<CallShape>)
    requires MakesCalls(g, g1, calls) && g2.code == g1.code
    ensures MakesCalls(g, g2, calls)
  {
  }

  lemma {:induction false} SameStart(g: Gen, g1: Gen, g2: Gen, calls: seq<CallShape>)
    requires MakesCalls(g1, g2, calls) && g.code == g1.code
    ensures MakesCalls(g, g2, calls)
  {
  }

  lemma {:induction false} AtEndIs(g: Gen, g1: Gen, calls: seq<CallShape>)
    requires MakesCalls(g, g1, calls)
    ensures ArgsAtEnd(g1.code) == 0
  {
  }

  lemma {:induction false} DeclareCalls(s: Stmt, g: Gen)
    requires s.VarDecl? && Positive(g) && Healthy(LowerStmt(s, g)) && ArgsAtEnd(g.code) == 0
    ensures MakesCalls(g, LowerStmt(s, g), CallsInStmt(s))
  {
    hide CallsMade, ArgsAtEnd, LowerExpr, CallsIn, MakesCalls;
    var g1 := g.(slots := g.slots + 1, env := g.env[s.name := Symbol(g.slots, true)]);
    var (g2, v) := if s.init.Some? then LowerExpr(s.init.value, g1) else ZeroInit(g1);
    MakesNone(g1);
    if s.init.Some? {
      PartCalls(s.init.value, g1, LowerStmt(s, g));
    } else {
      SameCode(g1, g1, NewVreg(g1).0, []);
      MakesPlain(g1, NewVreg(g1).0, Const(NewVreg(g1).1, 0), []);
    }
    MakesPlain(g1, g2, Store(g.slots, v, s.varType), CallsInStmt(s));
    SameStart(g, g1, LowerStmt(s, g), CallsInStmt(s));
  }

  lemma {:induction false} AssignCalls(s: Stmt, g: Gen)
    requires s.ExprStmt? && s.e.Assign? && Positive(g) && Healthy(LowerStmt(s, g)) && ArgsAtEnd(g.code) == 0
    ensures MakesCalls(g, LowerStmt(s, g), CallsInStmt(s))
  {
    hide CallsMade, ArgsAtEnd, LowerExpr, MakesCalls;
    var e := s.e;
    PartCalls(e.rhs, g, LowerStmt(s, g));
    var (g1, v) := LowerExpr(e.rhs, g);
    var sym := g.env[e.target];
    MakesPlain(g, g1, if sym.isStack then Store(sym.index, v, e.ty) else Mov(sym.index, v), CallsIn(e.rhs));
  }

  /** A branch or body, from its conditional jump to the instruction after it. */
  lemma {:induction false} GuardedCalls(g: Gen, g1: Gen, jump: Instr, s: Stmt, after: Instr, calls: seq<CallShape>)
    requires MakesCalls(g, g1, calls) && Positive(g1) && (jump.Jz? || jump.Jmp? || jump.Label?)
    requires after.Jmp? || after.Label?
    requires Healthy(Emit(LowerStmt(s, Emit(g1, jump)), after))
    ensures var g2 := Emit(LowerStmt(s, Emit(g1, jump)), after);
            MakesCalls(g, g2, calls + CallsInStmt(s)) && Positive(g2)
    decreases s, 2
  {
    hide CallsMade, ArgsAtEnd, LowerStmt, CallsInStmt, MakesCalls;
    var ga := Emit(g1, jump);
    var gb := LowerStmt(s, ga);
    MakesPlain(g, g1, jump, calls);
    AtEndIs(g, ga, calls);
    StmtCalls(s, ga);
    MakesBoth(g, ga, gb, calls, CallsInStmt(s));
    MakesPlain(g, gb, after, calls + CallsInStmt(s));
  }

  lemma {:induction false} IfElseCalls(s: Stmt, g: Gen)
    requires s.If? && s.els.Some? && Positive(g) && Healthy(LowerStmt(s, g)) && ArgsAtEnd(g.code) == 0
    ensures MakesCalls(g, LowerStmt(s, g), CallsInStmt(s))
    decreases s, 0
  {
    hide CallsMade, ArgsAtEnd, LowerExpr, CallsIn, Emit, LowerStmt, MakesCalls;
    IfElseUnfold(s, g);
    var (g1, v) := LowerExpr(s.cond, g);
    var l := g1.labels;
    var g2 := g1.(labels := l + 2);
    PartCalls(s.cond, g, g1);
    SameCode(g, g1, g2, CallsIn(s.cond));
    GuardedCalls(g, g2, Jz(v, l), s.thn, Jmp(l + 1), CallsIn(s.cond));
    var gb := Emit(LowerStmt(s.thn, Emit(g2, Jz(v, l))), Jmp(l + 1));
    GuardedCalls(g, gb, Label(l), s.els.value, Label(l + 1), CallsIn(s.cond) + CallsInStmt(s.thn));
  }

  lemma {:induction false} IfCalls(s: Stmt, g: Gen)
    requires s.If? && s.els.None? && Positive(g) && Healthy(LowerStmt(s, g)) && ArgsAtEnd(g.code) == 0
    ensures MakesCalls(g, LowerStmt(s, g), CallsInStmt(s))
    decreases s, 0
  {
    hide CallsMade, ArgsAtEnd, LowerExpr, CallsIn, MakesCalls;
    var (g1, v) := LowerExpr(s.cond, g);
    var l := g1.labels;
    var g2 := g1.(labels := l + 1);
    PartCalls(s.cond, g, LowerStmt(s, g));
    SameCode(g, g1, g2, CallsIn(s.cond));
    GuardedCalls(g, g2, Jz(v, l), s.thn, Label(l), CallsIn(s.cond));
    assert CallsIn(s.cond) + CallsInStmt(s.thn) + [] == CallsIn(s.cond) + CallsInStmt(s.thn);
  }

  lemma {:induction false} WhileCalls(s: Stmt, g: Gen)
    requires s.While? && Positive(g) && Healthy(LowerStmt(s, g)) && ArgsAtEnd(g.code) == 0
    ensures MakesCalls(g, LowerStmt(s, g), CallsInStmt(s))
    decreases s, 0
  {
    hide CallsMade, ArgsAtEnd, LowerExpr, CallsIn, Emit, LowerStmt, MakesCalls;
    WhileUnfold(s, g);
    var l := g.labels;
    var gl := g.(labels := l + 2);
    var g0 := Emit(gl, Label(l));
    MakesNone(gl);
    MakesPlain(gl, gl, Label(l), []);
    AtEndIs(gl, g0, []);
    var (g1, v) := LowerExpr(s.cond, g0);
    PartCalls(s.cond, g0, g1);
    MakesBoth(gl, g0, g1, [], CallsIn(s.cond));
    assert [] + CallsIn(s.cond) == CallsIn(s.cond);
    GuardedCalls(gl, g1, Jz(v, l + 1), s.body, Jmp(l), CallsIn(s.cond));
    var gb := Emit(LowerStmt(s.body, Emit(g1, Jz(v, l + 1))), Jmp(l));
    MakesPlain(gl, gb, Label(l + 1), CallsInStmt(s));
    SameStart(g, gl, LowerStmt(s, g), CallsInStmt(s));
  }

  lemma {:induction false} BodyCalls(ss: seq<Stmt>, g: Gen)
    requires Positive(g) && Healthy(LowerStmts(ss, g)) && ArgsAtEnd(g.code) == 0
    ensures MakesCalls(g, LowerStmts(ss, g), CallsInBody(ss))
    decreases ss, 0
  {
    hide CallsMade, ArgsAtEnd, LowerStmt, CallsInStmt, MakesCalls;
    if ss == [] {
      MakesNone(g);
    } else {
      var g1 := LowerStmt(ss[0], g);
      StmtCalls(ss[0], g);
      AtEndIs(g, g1, CallsInStmt(ss[0]));
      BodyCalls(ss[1..], g1);
      MakesBoth(g, g1, LowerStmts(ss, g), CallsInStmt(ss[0]), CallsInBody(ss[1..]));
    }
  }

  /**
    The code of a function makes exactly the calls of its source, in the order of evaluation,
    reached or not: each CALL has directly before it as many ARGs as the call has arguments.
   */
  lemma {:induction false} CallsAreKept(f: Func)
    requires LowerFunc(f).Some?
    ensures CallsMade(LowerFunc(f).value.code) == CallsInBody(f.body)
  {
    hide LowerStmts, CallsInBody;
    var gp := LowerParams(f.params, Start);
    assert LowerStmts(f.body, gp).errors >= gp.errors;
    ParamsResolved(f.params, Start);
    BodyCalls(f.body, gp);
    assert [] + CallsInBody(f.body) == CallsInBody(f.body);
  }

  lemma {:induction false} CalledAreMade(code: seq<Instr>)
    ensures CalledBy(code) == NamesOf(CallsMade(code))
    decreases |code|
  {
    hide ArgsAtEnd;
    if code != [] {
      var front, i := code[..|code| - 1], code[|code| - 1];
      CalledAreMade(front);
      assert code == front + [i];
      assert forall j :: j in code <==> j in front || j == i;
      var own := if i.CallFn? then [CallShape(i.fn, ArgsAtEnd(front))] else [];
      NamesOfBoth(CallsMade(front), own);
      assert NamesOf(own) == if i.CallFn? then {i.fn} else {} by { NamesOfOne(own); }
    }
  }

  lemma {:induction false} NamesOfOne(calls: seq<CallShape>)
    requires |calls| <= 1
    ensures NamesOf(calls) == if calls == [] then {} else {calls[0].fn}
  {
    assert forall c :: c in calls <==> |calls| == 1 && c == calls[0];
  }

  lemma {:induction false} NamesOfBoth(a: seq<CallShape>, b: seq<CallShape>)
    ensures NamesOf(a + b) == NamesOf(a) + NamesOf(b)
  {
    assert forall c :: c in a + b <==> c in a || c in b;
  }

  /** The functions that are called in the source are those that are called in the code. */
  lemma {:induction false} LoweredCalls(f: Func)
    requires LowerFunc(f).Some?
    ensures CalledBy(LowerFunc(f).value.code) == NamesOf(CallsInBody(f.body))
  {
    hide LowerFunc, CalledBy, CallsInBody, CallsMade;
    CallsAreKept(f);
    CalledAreMade(LowerFunc(f).value.code);
  }
}
