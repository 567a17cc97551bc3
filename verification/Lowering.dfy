/**
  Lowering of a function to IR, as a function of the generator's state. `IrBuilder`
  computes it step by step; the theorems about lowering are about these functions.
 */
module Lowering {
  import opened Limits
  import opened Words
  import opened Ast
  import opened Ir

  /** Where the value of a variable lives: a stack slot or a virtual register. */
  datatype Symbol = Symbol(index: nat, isStack: bool)

  /** `vregs`, `slots` and `labels` are the next free numbers. */
  datatype Gen = Gen(
    code: seq<Instr>, vregs: nat, slots: nat, labels: nat, env: map<string, Symbol>, errors: nat)

  /** `g1` comes from `g` by appending code and taking fresh numbers. */
  ghost predicate Grows(g: Gen, g1: Gen) {
    && g.code <= g1.code
    && g.vregs <= g1.vregs && g.slots <= g1.slots && g.labels <= g1.labels
    && g.errors <= g1.errors
  }

  /** Expressions touch neither slots, labels nor scopes. */
  ghost predicate GrowsQuietly(g: Gen, g1: Gen) {
    Grows(g, g1) && g1.slots == g.slots && g1.labels == g.labels && g1.env == g.env
  }

  /** No error so far, and no instruction dropped. */
  predicate Healthy(g: Gen) {
    g.errors == 0 && |g.code| < MAX_IR_INSTRUCTIONS
  }

  /** Over the cap an instruction is dropped in silence. */
  function Emit(g: Gen, i: Instr): (g1: Gen)
    ensures GrowsQuietly(g, g1) && g1.vregs == g.vregs && g1.errors == g.errors
    ensures Healthy(g1) ==> g1.code == g.code + [i]
  {
    if |g.code| >= MAX_IR_INSTRUCTIONS then g else g.(code := g.code + [i])
  }

  function Fail(g: Gen): Gen {
    g.(errors := g.errors + 1)
  }

  /** A fresh virtual register, or 0 and an error. */
  function NewVreg(g: Gen): (r: (Gen, nat))
    ensures GrowsQuietly(g, r.0) && r.0.code == g.code
    ensures r.0.errors == g.errors ==> r.1 == g.vregs && r.0.vregs == g.vregs + 1 <= MAX_VREGS
    ensures g.vregs > 0 && r.0.errors > g.errors ==> r.1 == 0
  {
    if g.vregs >= MAX_VREGS then (Fail(g), 0) else (g.(vregs := g.vregs + 1), g.vregs)
  }

  function UnaryOpcode(op: UnaryOp): UnOp {
    match op
    case Negate => IrNeg
    case Not => IrNot
    case Invert => IrBnot
  }

  function BinaryOpcode(op: BinaryOp, leftType: DataType): AluOp {
    match op
    case Add => IrAdd
    case Sub => IrSub
    case Mul => IrMul
    case Div => IrDiv
    case Equal => IrEq
    case NotEqual => IrNeq
    case Less => IrLt
    case LessEqual => IrLe
    case Greater => IrGt
    case GreaterEqual => IrGe
    case LeftShift => IrShl
    case RightShift => if IsUnsigned(leftType) then IrShr else IrSar
    case And => IrAnd
    case Or => IrOr
    case Xor => IrXor
  }

  /** The new state and the register of the value; register 0 means failure. */
  function LowerExpr(e: Expr, g: Gen): (r: (Gen, nat))
    ensures GrowsQuietly(g, r.0)
    decreases e, 0
  {
    match e
    case Number(text, _) =>
      var (g1, d) := NewVreg(g);
      if d == 0 then (g1, 0) else (Emit(g1, Const(d, NumberValue(text))), d)
    case Identifier(x, ty) =>
      if x !in g.env then (Fail(g), 0)
      else if g.env[x].isStack then
        var (g1, d) := NewVreg(g);
        if d == 0 then (g1, 0) else (Emit(g1, Load(d, g.env[x].index, ty)), d)
      else (g, g.env[x].index)
    case Call(fn, args, _) =>
      var (g1, regs) := LowerArgs(args, g);
      if |regs| < |args| then (g1, 0)
      else
        var g2 := EmitArgs(regs, 0, g1);
        var (g3, d) := NewVreg(g2);
        if d == 0 then (g3, 0) else (Emit(g3, CallFn(d, fn)), d)
    case Unary(op, operand, _) =>
      var (g1, s) := LowerExpr(operand, g);
      if s == 0 then (g1, 0)
      else
        var (g2, d) := NewVreg(g1);
        if d == 0 then (g2, 0) else (Emit(g2, Un(UnaryOpcode(op), d, s)), d)
    case Binary(op, l, r, _) =>
      var (g1, s1) := LowerExpr(l, g);
      if s1 == 0 then (g1, 0)
      else
        var (g2, s2) := LowerExpr(r, g1);
        if s2 == 0 then (g2, 0)
        else
          var (g3, d) := NewVreg(g2);
          if d == 0 then (g3, 0) else (Emit(g3, Bin(BinaryOpcode(op, l.ty), d, s1, s2)), d)
    case Assign(_, _, _) => (Fail(g), 0)
  }

  /** Stops at the first argument that fails. */
  function LowerArgs(es: seq<Expr>, g: Gen): (r: (Gen, seq<nat>))
    ensures GrowsQuietly(g, r.0) && |r.1| <= |es|
    decreases es, 0
  {
    if es == [] then (g, [])
    else
      var (g1, s) := LowerExpr(es[0], g);
      if s == 0 then (g1, [])
      else
        var (g2, rest) := LowerArgs(es[1..], g1);
        (g2, [s] + rest)
  }

  /** One ARG for each register, numbered from `from`. */
  function EmitArgs(regs: seq<nat>, from: nat, g: Gen): (g1: Gen)
    ensures GrowsQuietly(g, g1) && g1.vregs == g.vregs && g1.errors == g.errors
    decreases |regs|
  {
    if regs == [] then g else EmitArgs(regs[1..], from + 1, Emit(g, Arg(regs[0], from)))
  }

  function LowerStmt(s: Stmt, g: Gen): (g1: Gen)
    ensures Grows(g, g1)
    decreases s, 1
  {
    match s
    case VarDecl(x, ty, init) =>
      var k := g.slots;
      var g1 := g.(slots := k + 1, env := g.env[x := Symbol(k, true)]);
      var (g2, v) := if init.Some? then LowerExpr(init.value, g1) else ZeroInit(g1);
      if v == 0 then g2 else Emit(g2, Store(k, v, ty))
    case ExprStmt(e) =>
      if e.Assign? then
        if e.target !in g.env then Fail(g)
        else
          var (g1, v) := LowerExpr(e.rhs, g);
          if v == 0 then g1
          else
            var sym := g.env[e.target];
            Emit(g1, if sym.isStack then Store(sym.index, v, e.ty) else Mov(sym.index, v))
      else LowerExpr(e, g).0
    case Return(result) =>
      if result.None? then g
      else
        var (g1, v) := LowerExpr(result.value, g);
        if v == 0 then g1 else Emit(g1, Ret(v))
    case If(c, thn, Some(els)) => LowerIfElse(c, thn, els, g)
    case If(c, thn, None) => LowerIf(c, thn, g)
    case While(c, body) => LowerWhile(c, body, g)
    case Block(ss) => LowerStmts(ss, g).(env := g.env)
  }

  function LowerIfElse(c: Expr, thn: Stmt, els: Stmt, g: Gen): (r: Gen)
    ensures Grows(g, r)
    decreases If(c, thn, Some(els)), 0
  {
    var (g1, v) := LowerExpr(c, g);
    var l := g1.labels;
    var g2 := g1.(labels := l + 2);
    if v == 0 then g2
    else
      var g3 := LowerStmt(thn, Emit(g2, Jz(v, l)));
      var g4 := Emit(Emit(g3, Jmp(l + 1)), Label(l));
      Emit(LowerStmt(els, g4), Label(l + 1))
  }

  function LowerIf(c: Expr, thn: Stmt, g: Gen): (r: Gen)
    ensures Grows(g, r)
    decreases If(c, thn, None), 0
  {
    var (g1, v) := LowerExpr(c, g);
    var l := g1.labels;
    var g2 := g1.(labels := l + 1);
    if v == 0 then g2 else Emit(LowerStmt(thn, Emit(g2, Jz(v, l))), Label(l))
  }

  function LowerWhile(c: Expr, body: Stmt, g: Gen): (r: Gen)
    ensures Grows(g, r)
    decreases While(c, body), 0
  {
    var l := g.labels;
    var (g1, v) := LowerExpr(c, Emit(g.(labels := l + 2), Label(l)));
    if v == 0 then g1
    else
      var g2 := LowerStmt(body, Emit(g1, Jz(v, l + 1)));
      Emit(Emit(g2, Jmp(l)), Label(l + 1))
  }

  function ZeroInit(g: Gen): (r: (Gen, nat))
    ensures GrowsQuietly(g, r.0)
  {
    var (g1, d) := NewVreg(g);
    if d == 0 then (g1, 0) else (Emit(g1, Const(d, 0)), d)
  }

  function LowerStmts(ss: seq<Stmt>, g: Gen): (g1: Gen)
    ensures Grows(g, g1)
    decreases ss, 0
  {
    if ss == [] then g else LowerStmts(ss[1..], LowerStmt(ss[0], g))
  }

  const Start: Gen := Gen([], 1, 0, 0, map[], 0)

  /** Parameters take the first virtual registers. */
  function LowerParams(ps: seq<Param>, g: Gen): (g1: Gen)
    ensures Grows(g, g1) && g1.code == g.code && g1.slots == g.slots && g1.labels == g.labels
    decreases |ps|
  {
    if ps == [] then g
    else
      var (g1, v) := NewVreg(g);
      if v == 0 then g1 else LowerParams(ps[1..], g1.(env := g1.env[ps[0].name := Symbol(v, false)]))
  }

  function LowerBody(f: Func): Gen {
    LowerStmts(f.body, LowerParams(f.params, Start))
  }

  /** The result of lowering, unless an error was recorded or the instruction cap was reached. */
  function LowerFunc(f: Func): Option<IrFunc> {
    var g := LowerBody(f);
    if Healthy(g) then Some(IrFunc(g.code, |f.params|, g.vregs, g.slots, g.labels)) else None
  }
}
