/**
  The shape of generated IR, on which the machine code relies: every temporary has one
  definition, used before the next label or jump; labels are placed once; the arguments of
  a call stand directly before it.
 */
module IrShape {
  import opened Limits
  import opened Words
  import opened Ast
  import opened Ir
  import opened Lowering

  /** The register an instruction defines, or 0. */
  function DefinedReg(i: Instr): nat {
    match i
    case Bin(_, d, _, _) => d
    case Un(_, d, _) => d
    case Mov(d, _) => d
    case Const(d, _) => d
    case Load(d, _, _) => d
    case CallFn(d, _) => d
    case _ => 0
  }

  function UsedRegs(i: Instr): seq<nat> {
    match i
    case Bin(_, _, a, b) => [a, b]
    case Un(_, _, a) => [a]
    case Mov(_, a) => [a]
    case Store(_, a, _) => [a]
    case Arg(a, _) => [a]
    case Ret(a) => [a]
    case Jz(a, _) => [a]
    case Jnz(a, _) => [a]
    case _ => []
  }

  predicate Straight(i: Instr) {
    !i.Label? && !i.Jmp? && !i.Jz? && !i.Jnz?
  }

  /** No label is placed twice. */
  ghost predicate UniqueLabels(code: seq<Instr>) {
    forall i, j :: 0 <= i < j < |code| && code[i].Label? && code[j].Label? ==> code[i].id != code[j].id
  }

  ghost predicate StraightFrom(code: seq<Instr>, from: nat, to: nat)
    requires to <= |code|
  {
    forall j :: from <= j < to ==> Straight(code[j])
  }

  /** `v` is defined before position `at` with no label or jump in between. */
  ghost predicate DefinedNear(code: seq<Instr>, at: nat, v: nat)
    requires at <= |code|
  {
    exists d :: 0 <= d < at && DefinedReg(code[d]) == v && !code[d].Mov? && StraightFrom(code, d + 1, at)
  }

  /** At position `at`, `v` is a parameter or has just been defined. */
  ghost predicate Available(code: seq<Instr>, at: nat, params: nat, v: nat)
    requires at <= |code|
  {
    0 < v && (v <= params || DefinedNear(code, at, v))
  }

  ghost predicate Fits(code: seq<Instr>, at: nat, params: nat, vregs: nat, slots: nat, labels: nat)
    requires at < |code|
  {
    var i := code[at];
    && (forall v :: v in UsedRegs(i) ==> v < vregs && Available(code, at, params, v))
    && (i.Mov? ==> 0 < i.dest <= params)
    && (!i.Mov? && DefinedReg(i) != 0 ==> params < DefinedReg(i) < vregs)
    && (i.Bin? || i.Un? || i.Const? || i.Load? || i.CallFn? ==> DefinedReg(i) != 0)
    && (i.Load? || i.Store? ==> i.slot < slots)
    && (i.Label? || i.Jmp? || i.Jz? || i.Jnz? ==> i.id < labels)
  }

  /** Temporaries are defined in increasing order: each of them once. */
  ghost predicate Increasing(code: seq<Instr>) {
    forall i, j :: 0 <= i < j < |code| && Temp(code[i]) && Temp(code[j]) ==> DefinedReg(code[i]) < DefinedReg(code[j])
  }

  predicate Temp(i: Instr) {
    !i.Mov? && DefinedReg(i) != 0
  }

  predicate AfterArg(i: Instr) {
    i.Arg? || i.CallFn?
  }

  /** The number that an ARG after this code must have: one more than an ARG just before it, or 0. */
  function NextIndex(code: seq<Instr>): nat {
    if code != [] && code[|code| - 1].Arg? then code[|code| - 1].index + 1 else 0
  }

  /** After an ARG comes another or the call, and ARGs are numbered from 0 on. */
  ghost predicate ArgsLeadToCalls(code: seq<Instr>) {
    && (forall i :: 0 < i < |code| && code[i - 1].Arg? ==> AfterArg(code[i]))
    && (forall i :: 0 <= i < |code| && code[i].Arg? ==>
          code[i].index == if i > 0 && code[i - 1].Arg? then code[i - 1].index + 1 else 0)
  }

  ghost predicate ShapedCode(code: seq<Instr>, params: nat, vregs: nat, slots: nat, labels: nat) {
    && (forall i :: 0 <= i < |code| ==> Fits(code, i, params, vregs, slots, labels))
    && Increasing(code) && UniqueLabels(code) && ArgsLeadToCalls(code)
  }

  /** The invariant of the generator's state. */
  ghost predicate Shape(g: Gen, params: nat) {
    && params < g.vregs <= MAX_VREGS
    && ShapedCode(g.code, params, g.vregs, g.slots, g.labels)
    && (forall x :: x in g.env ==> if g.env[x].isStack then g.env[x].index < g.slots else 0 < g.env[x].index <= params)
  }

  /** Not in the middle of an argument list. */
  predicate Complete(g: Gen) {
    |g.code| > 0 ==> !g.code[|g.code| - 1].Arg?
  }

  lemma {:induction false} FitsLater(code: seq<Instr>, i: Instr, at: nat, params: nat, v0: nat, s0: nat, l0: nat,
                                     v1: nat, s1: nat, l1: nat)
    requires at < |code| && Fits(code, at, params, v0, s0, l0)
    requires v0 <= v1 && s0 <= s1 && l0 <= l1
    ensures Fits(code + [i], at, params, v1, s1, l1)
    ensures Fits(code, at, params, v1, s1, l1)
  {
    forall v | v in UsedRegs(code[at]) ensures Available(code + [i], at, params, v) {
      assert Available(code, at, params, v);
      if v > params {
        var d :| 0 <= d < at && DefinedReg(code[d]) == v && !code[d].Mov? && StraightFrom(code, d + 1, at);
        assert (code + [i])[d] == code[d] && StraightFrom(code + [i], d + 1, at);
      }
    }
  }

  lemma {:induction false} AvailableAcross(code: seq<Instr>, code1: seq<Instr>, params: nat, v: nat)
    requires Available(code, |code|, params, v) && code <= code1 && StraightFrom(code1, |code|, |code1|)
    ensures Available(code1, |code1|, params, v)
  {
    if v > params {
      var d :| 0 <= d < |code| && DefinedReg(code[d]) == v && !code[d].Mov? && StraightFrom(code, d + 1, |code|);
      assert code1[d] == code[d] && StraightFrom(code1, d + 1, |code1|);
    }
  }

  lemma {:induction false} AvailableHere(code: seq<Instr>, i: Instr, params: nat, v: nat)
    requires Available(code, |code|, params, v)
    ensures Available(code + [i], |code|, params, v)
  {
    if v > params {
      var d :| 0 <= d < |code| && DefinedReg(code[d]) == v && !code[d].Mov? && StraightFrom(code, d + 1, |code|);
      assert (code + [i])[d] == code[d] && StraightFrom(code + [i], d + 1, |code|);
    }
  }

  /** More numbers taken: the shape remains. */
  lemma {:induction false} Raise(g: Gen, g1: Gen, params: nat)
    requires Shape(g, params) && g1.code == g.code && g1.env == g.env
    requires g.vregs <= g1.vregs <= MAX_VREGS && g.slots <= g1.slots && g.labels <= g1.labels
    ensures Shape(g1, params)
  {
    forall i | 0 <= i < |g.code| ensures Fits(g.code, i, params, g1.vregs, g1.slots, g1.labels) {
      FitsLater(g.code, Ret(1), i, params, g.vregs, g.slots, g.labels, g1.vregs, g1.slots, g1.labels);
    }
  }

  /** Appending one fitting instruction keeps the shape. */
  lemma {:induction false} Append(g: Gen, i: Instr, params: nat)
    requires Shape(g, params) && (Complete(g) || AfterArg(i)) && (i.Arg? ==> i.index == NextIndex(g.code))
    requires forall v :: v in UsedRegs(i) ==> v < g.vregs && Available(g.code, |g.code|, params, v)
    requires i.Mov? ==> 0 < i.dest <= params
    requires i.Bin? || i.Un? || i.Const? || i.Load? || i.CallFn? ==> DefinedReg(i) != 0
    requires Temp(i) ==> params < DefinedReg(i) < g.vregs && forall j :: 0 <= j < |g.code| && Temp(g.code[j]) ==>
             DefinedReg(g.code[j]) < DefinedReg(i)
    requires i.Load? || i.Store? ==> i.slot < g.slots
    requires i.Label? || i.Jmp? || i.Jz? || i.Jnz? ==> i.id < g.labels
    requires i.Label? ==> forall j :: 0 <= j < |g.code| && g.code[j].Label? ==> g.code[j].id != i.id
    ensures Shape(Emit(g, i), params)
    ensures i.Arg? || Complete(Emit(g, i)) || !Healthy(Emit(g, i))
  {
    hide ArgsLeadToCalls, NextIndex;
    ArgsMore(g, i);
    var code := g.code + [i];
    forall j | 0 <= j < |code| ensures Fits(code, j, params, g.vregs, g.slots, g.labels) {
      if j < |g.code| {
        FitsLater(g.code, i, j, params, g.vregs, g.slots, g.labels, g.vregs, g.slots, g.labels);
      } else {
        forall v | v in UsedRegs(i) ensures Available(code, |g.code|, params, v) {
          AvailableHere(g.code, i, params, v);
        }
      }
    }
  }

  lemma {:induction false} ArgsMore(g: Gen, i: Instr)
    requires ArgsLeadToCalls(g.code) && (Complete(g) || AfterArg(i)) && (i.Arg? ==> i.index == NextIndex(g.code))
    ensures ArgsLeadToCalls(g.code + [i])
  {
  }

  /** Defining a fresh register makes it available. */
  lemma {:induction false} DefineShape(g: Gen, d: nat, i: Instr, params: nat)
    requires Shape(g, params) && (Complete(g) || i.CallFn?)
    requires NewVreg(g).1 == d != 0 && Healthy(Emit(NewVreg(g).0, i))
    requires Temp(i) && DefinedReg(i) == d && (i.Load? ==> i.slot < g.slots)
    requires forall v :: v in UsedRegs(i) ==> v < g.vregs && Available(g.code, |g.code|, params, v)
    ensures var g1 := Emit(NewVreg(g).0, i);
            Shape(g1, params) && Complete(g1) && d < g1.vregs && Available(g1.code, |g1.code|, params, d)
  {
    var g0 := NewVreg(g).0;
    forall j | 0 <= j < |g.code| && Temp(g.code[j]) ensures DefinedReg(g.code[j]) < d {
      assert Fits(g.code, j, params, g.vregs, g.slots, g.labels);
    }
    Raise(g, g0, params);
    Append(g0, i, params);
    var code := Emit(g0, i).code;
    assert DefinedReg(code[|g.code|]) == d && StraightFrom(code, |g.code| + 1, |code|);
  }

  ghost predicate WellShaped(g: Gen, g1: Gen, params: nat) {
    Shape(g1, params) && Complete(g1) && StraightFrom(g1.code, |g.code|, |g1.code|)
  }

  lemma {:induction false} BinaryShape(e: Expr, g: Gen, params: nat)
    requires e.Binary? && Shape(g, params) && Complete(g) && Healthy(LowerExpr(e, g).0)
    ensures var (g1, r) := LowerExpr(e, g);
            WellShaped(g, g1, params) && 0 < r < g1.vregs && Available(g1.code, |g1.code|, params, r)
    decreases e, 0
  {
    hide ShapedCode, Available, Complete;
    var (g1, s1) := LowerExpr(e.left, g);
    ExprShape(e.left, g, params);
    var (g2, s2) := LowerExpr(e.right, g1);
    ExprShape(e.right, g1, params);
    AvailableAcross(g1.code, g2.code, params, s1);
    DefineShape(g2, g2.vregs, Bin(BinaryOpcode(e.bop, e.left.ty), g2.vregs, s1, s2), params);
  }

  lemma {:induction false} CallShape(e: Expr, g: Gen, params: nat)
    requires e.Call? && Shape(g, params) && Complete(g) && Healthy(LowerExpr(e, g).0)
    ensures var (g1, r) := LowerExpr(e, g);
            WellShaped(g, g1, params) && 0 < r < g1.vregs && Available(g1.code, |g1.code|, params, r)
    decreases e, 0
  {
    hide ShapedCode, Available, Complete;
    var (g1, regs) := LowerArgs(e.args, g);
    ArgsShape(e.args, g, params);
    var g2 := EmitArgs(regs, 0, g1);
    CompleteIndex(g1);
    EmitArgsShape(regs, 0, g1, params);
    DefineShape(g2, g2.vregs, CallFn(g2.vregs, e.fn), params);
  }

  lemma {:induction false} ExprShape(e: Expr, g: Gen, params: nat)
    requires Shape(g, params) && Complete(g) && Healthy(LowerExpr(e, g).0)
    ensures var (g1, r) := LowerExpr(e, g);
            WellShaped(g, g1, params) && 0 < r < g1.vregs && Available(g1.code, |g1.code|, params, r)
    decreases e, 1
  {
    hide ShapedCode, Available, Complete;
    match e
    case Number(text, _) => DefineShape(g, g.vregs, Const(g.vregs, NumberValue(text)), params);
    case Identifier(x, ty) => IdentifierShape(x, ty, g, params);
    case Unary(op, operand, _) =>
      var (g1, s) := LowerExpr(operand, g);
      ExprShape(operand, g, params);
      DefineShape(g1, g1.vregs, Un(UnaryOpcode(op), g1.vregs, s), params);
    case Binary(_, _, _, _) => BinaryShape(e, g, params);
    case Call(_, _, _) => CallShape(e, g, params);
    case Assign(_, _, _) =>
  }

  lemma {:induction false} IdentifierShape(x: string, ty: DataType, g: Gen, params: nat)
    requires Shape(g, params) && Complete(g) && Healthy(LowerExpr(Identifier(x, ty), g).0)
    ensures var (g1, r) := LowerExpr(Identifier(x, ty), g);
            WellShaped(g, g1, params) && 0 < r < g1.vregs && Available(g1.code, |g1.code|, params, r)
  {
    if g.env[x].isStack {
      DefineShape(g, g.vregs, Load(g.vregs, g.env[x].index, ty), params);
    }
  }

  ghost predicate AllAvailable(regs: seq<nat>, g: Gen, params: nat) {
    forall i :: 0 <= i < |regs| ==> 0 < regs[i] < g.vregs && Available(g.code, |g.code|, params, regs[i])
  }

  lemma {:induction false} ArgsShape(es: seq<Expr>, g: Gen, params: nat)
    requires Shape(g, params) && Complete(g) && Healthy(LowerArgs(es, g).0)
    ensures var (g1, regs) := LowerArgs(es, g);
            WellShaped(g, g1, params) && |regs| == |es| && AllAvailable(regs, g1, params)
    decreases es, 0
  {
    hide ShapedCode, Available, Complete;
    if es != [] {
      var (g1, s) := LowerExpr(es[0], g);
      ExprShape(es[0], g, params);
      var (g2, rest) := LowerArgs(es[1..], g1);
      ArgsShape(es[1..], g1, params);
      AvailableAcross(g1.code, g2.code, params, s);
    }
  }

  lemma {:induction false} CompleteIndex(g: Gen)
    requires Complete(g)
    ensures NextIndex(g.code) == 0
  {
  }

  lemma {:induction false} EmitArgsShape(regs: seq<nat>, from: nat, g: Gen, params: nat)
    requires Shape(g, params) && AllAvailable(regs, g, params)
    requires Healthy(EmitArgs(regs, from, g)) && from == NextIndex(g.code)
    ensures var g1 := EmitArgs(regs, from, g);
            Shape(g1, params) && StraightFrom(g1.code, |g.code|, |g1.code|)
    decreases |regs|
  {
    hide ShapedCode, Available;
    if regs != [] {
      var i := Arg(regs[0], from);
      var g1 := Emit(g, i);
      Append(g, i, params);
      forall k | 1 <= k < |regs| ensures Available(g1.code, |g1.code|, params, regs[k]) {
        AvailableAcross(g.code, g1.code, params, regs[k]);
      }
      EmitArgsShape(regs[1..], from + 1, g1, params);
    }
  }

  // --- Statements ------------------------------------------------------------------

  predicate Placed(code: seq<Instr>, from: nat, id: nat) {
    exists j :: from <= j < |code| && code[j] == Label(id)
  }

  /**
    What lowering adds to `g`: a store for each slot, and fresh labels, all of them placed
    but those in `open`, which stand nowhere yet.
   */
  ghost predicate Adds(g: Gen, g1: Gen, open: set<nat>) {
    && g.code <= g1.code && g.labels <= g1.labels && g.slots <= g1.slots
    && (forall j :: |g.code| <= j < |g1.code| && g1.code[j].Label? ==> g.labels <= g1.code[j].id)
    && (forall l :: g.labels <= l < g1.labels && l !in open ==> Placed(g1.code, |g.code|, l))
    && (forall l :: l in open ==> g.labels <= l < g1.labels && !Placed(g1.code, 0, l))
    && g1.slots - g.slots <= |g1.code| - |g.code|
  }

  ghost predicate Added(g: Gen, g1: Gen) {
    Adds(g, g1, {})
  }

  lemma {:induction false} AddsMore(g0: Gen, g1: Gen, g2: Gen, open: set<nat>)
    requires Adds(g0, g1, open) && Added(g1, g2)
    ensures Adds(g0, g2, open)
  {
    forall l | g0.labels <= l < g2.labels && l !in open ensures Placed(g2.code, |g0.code|, l) {
      if l < g1.labels {
        var j :| |g0.code| <= j < |g1.code| && g1.code[j] == Label(l);
        assert g2.code[j] == Label(l);
      } else {
        assert Placed(g2.code, |g1.code|, l);
      }
    }
    forall l | l in open ensures !Placed(g2.code, 0, l) {
      forall j | 0 <= j < |g2.code| ensures g2.code[j] != Label(l) {
        assert j < |g1.code| ==> g1.code[j] == g2.code[j];
      }
    }
  }

  lemma {:induction false} AddedTwice(g0: Gen, g1: Gen, g2: Gen)
    requires Added(g0, g1) && Added(g1, g2)
    ensures Added(g0, g2)
  {
    AddsMore(g0, g1, g2, {});
  }

  /** The next label number is free: no code uses it yet. */
  lemma {:induction false} TakeLabel(g0: Gen, g: Gen, open: set<nat>, params: nat)
    requires Shape(g, params) && Adds(g0, g, open)
    ensures var g1 := g.(labels := g.labels + 1); Shape(g1, params) && Adds(g0, g1, open + {g.labels})
  {
    var g1 := g.(labels := g.labels + 1);
    Raise(g, g1, params);
    forall j | 0 <= j < |g.code| ensures g.code[j] != Label(g.labels) {
      assert Fits(g.code, j, params, g.vregs, g.slots, g.labels);
    }
    forall l | l in open ensures !Placed(g1.code, 0, l) {
    }
  }

  /** Placing an open label. */
  lemma {:induction false} PlaceLabel(g0: Gen, g: Gen, open: set<nat>, l: nat, params: nat)
    requires Shape(g, params) && Complete(g) && Adds(g0, g, open) && l in open
    requires Healthy(Emit(g, Label(l)))
    ensures var g1 := Emit(g, Label(l)); Shape(g1, params) && Complete(g1) && Adds(g0, g1, open - {l})
  {
    var g1 := Emit(g, Label(l));
    Append(g, Label(l), params);
    forall k | g0.labels <= k < g1.labels && k !in open - {l} ensures Placed(g1.code, |g0.code|, k) {
      if k == l {
        assert g1.code[|g.code|] == Label(k);
      } else {
        var j :| |g0.code| <= j < |g.code| && g.code[j] == Label(k);
        assert g1.code[j] == Label(k);
      }
    }
    forall k | k in open - {l} ensures !Placed(g1.code, 0, k) {
      forall j | 0 <= j < |g1.code| ensures g1.code[j] != Label(k) {
        assert j < |g.code| ==> g.code[j] == g1.code[j];
      }
    }
  }

  lemma {:induction false} QuietlyAdded(g: Gen, g1: Gen)
    requires GrowsQuietly(g, g1) && StraightFrom(g1.code, |g.code|, |g1.code|)
    ensures Added(g, g1)
  {
  }

  /** Appending an instruction that is neither a definition of a temporary nor a label. */
  lemma {:induction false} AppendPlain(g: Gen, i: Instr, params: nat)
    requires Shape(g, params) && Complete(g)
    requires i.Mov? || i.Store? || i.Ret? || i.Jmp? || i.Jz? || i.Jnz?
    requires forall v :: v in UsedRegs(i) ==> v < g.vregs && Available(g.code, |g.code|, params, v)
    requires (i.Mov? ==> 0 < i.dest <= params) && (i.Store? ==> i.slot < g.slots)
    requires i.Jmp? || i.Jz? || i.Jnz? ==> i.id < g.labels
    requires Healthy(Emit(g, i))
    ensures Shape(Emit(g, i), params) && Complete(Emit(g, i)) && Added(g, Emit(g, i))
  {
    Append(g, i, params);
  }

  lemma {:induction false} StmtShape(s: Stmt, g: Gen, params: nat)
    requires Shape(g, params) && Complete(g) && Healthy(LowerStmt(s, g))
    ensures var g1 := LowerStmt(s, g); Shape(g1, params) && Complete(g1) && Added(g, g1)
    decreases s, 1
  {
    hide ShapedCode, Available, Complete, LowerExpr;
    match s
    case VarDecl(_, _, _) => VarDeclShape(s, g, params);
    case ExprStmt(e) =>
      if !e.Assign? {
        ExprShape(e, g, params);
        QuietlyAdded(g, LowerStmt(s, g));
      } else {
        var (g1, v) := LowerExpr(e.rhs, g);
        var sym := g.env[e.target];
        ExprShape(e.rhs, g, params);
        QuietlyAdded(g, g1);
        AppendPlain(g1, if sym.isStack then Store(sym.index, v, e.ty) else Mov(sym.index, v), params);
        AddedTwice(g, g1, LowerStmt(s, g));
      }
    case Return(result) =>
      if result.Some? {
        var (g1, v) := LowerExpr(result.value, g);
        ExprShape(result.value, g, params);
        QuietlyAdded(g, g1);
        AppendPlain(g1, Ret(v), params);
        AddedTwice(g, g1, LowerStmt(s, g));
      }
    case If(_, _, Some(_)) => IfElseShape(s, g, params);
    case If(_, _, None) => IfOnlyShape(s, g, params);
    case While(_, _) => WhileShape(s, g, params);
    case Block(ss) =>
      StmtsShape(ss, g, params);
      LeaveShape(LowerStmts(ss, g), g, params);
  }

  lemma {:induction false} LeaveShape(g1: Gen, g: Gen, params: nat)
    requires Shape(g1, params) && Shape(g, params) && Complete(g1) && Added(g, g1)
    ensures var g2 := g1.(env := g.env); Shape(g2, params) && Complete(g2) && Added(g, g2)
  {
    hide ShapedCode;
  }

  lemma {:induction false} StmtsShape(ss: seq<Stmt>, g: Gen, params: nat)
    requires Shape(g, params) && Complete(g) && Healthy(LowerStmts(ss, g))
    ensures var g1 := LowerStmts(ss, g); Shape(g1, params) && Complete(g1) && Added(g, g1)
    decreases ss, 0
  {
    hide Shape, LowerStmt, Complete;
    if ss != [] {
      var g1 := LowerStmt(ss[0], g);
      StmtShape(ss[0], g, params);
      StmtsShape(ss[1..], g1, params);
      AddedTwice(g, g1, LowerStmts(ss, g));
    }
  }

  lemma {:induction false} VarDeclShape(s: Stmt, g: Gen, params: nat)
    requires Shape(g, params) && Complete(g) && Healthy(LowerStmt(s, g)) && s.VarDecl?
    ensures var g1 := LowerStmt(s, g); Shape(g1, params) && Complete(g1) && Added(g, g1)
  {
    hide Shape, Available, LowerExpr, Adds;
    var g1 := g.(slots := g.slots + 1, env := g.env[s.name := Symbol(g.slots, true)]);
    var (g2, v) := if s.init.Some? then LowerExpr(s.init.value, g1) else ZeroInit(g1);
    DeclaredShape(g, s.name, params);
    if s.init.Some? {
      ExprShape(s.init.value, g1, params);
    } else {
      DefineShape(g1, g1.vregs, Const(g1.vregs, 0), params);
    }
    AppendPlain(g2, Store(g.slots, v, s.varType), params);
    SlotStored(g, g2, Store(g.slots, v, s.varType));
  }

  lemma {:induction false} DeclaredShape(g: Gen, x: string, params: nat)
    requires Shape(g, params)
    ensures Shape(g.(slots := g.slots + 1, env := g.env[x := Symbol(g.slots, true)]), params) && g.vregs > 0
  {
    hide ShapedCode;
    Raise(g, g.(slots := g.slots + 1), params);
  }

  lemma {:induction false} SlotStored(g: Gen, g2: Gen, i: Instr)
    requires g.code <= g2.code && g2.labels == g.labels && g2.slots == g.slots + 1
    requires StraightFrom(g2.code, |g.code|, |g2.code|) && Straight(i) && Healthy(Emit(g2, i))
    ensures Added(g, Emit(g2, i))
  {
  }

  /** The stages of lowering an if-else: nothing is dropped on the way to a healthy result. */
  lemma {:induction false} IfElseUnfold(s: Stmt, g: Gen)
    requires s.If? && s.els.Some? && Healthy(LowerStmt(s, g))
    ensures var (g1, v) := LowerExpr(s.cond, g);
            var l := g1.labels;
            var g2 := g1.(labels := l + 2);
            var ga := Emit(g2, Jz(v, l));
            var g3 := LowerStmt(s.thn, ga);
            var gb := Emit(g3, Jmp(l + 1));
            var g4 := Emit(gb, Label(l));
            var g5 := LowerStmt(s.els.value, g4);
            && Healthy(g1)
            && (v > 0 ==> LowerStmt(s, g) == Emit(g5, Label(l + 1)))
            && (v > 0 ==> Healthy(ga) && Healthy(g3) && Healthy(gb) && Healthy(g4) && Healthy(g5))
  {
    hide LowerExpr;
  }

  lemma {:induction false} WhileUnfold(s: Stmt, g: Gen)
    requires s.While? && Healthy(LowerStmt(s, g))
    ensures var l := g.labels;
            var g0 := Emit(g.(labels := l + 2), Label(l));
            var (g1, v) := LowerExpr(s.cond, g0);
            var ga := Emit(g1, Jz(v, l + 1));
            var g2 := LowerStmt(s.body, ga);
            var gb := Emit(g2, Jmp(l));
            && Healthy(g0) && Healthy(g1)
            && (v > 0 ==> LowerStmt(s, g) == Emit(gb, Label(l + 1)) && Healthy(ga) && Healthy(g2) && Healthy(gb))
  {
    hide LowerExpr;
  }

  lemma {:induction false} IfElseShape(s: Stmt, g: Gen, params: nat)
    requires Shape(g, params) && Complete(g) && Healthy(LowerStmt(s, g)) && s.If? && s.els.Some?
    ensures var g1 := LowerStmt(s, g); Shape(g1, params) && Complete(g1) && Added(g, g1)
    decreases s, 0
  {
    hide Shape, Available, LowerExpr, LowerStmt, Adds, Grows, Emit, Healthy, Straight;
    IfElseUnfold(s, g);
    var (g1, v) := LowerExpr(s.cond, g);
    var l := g1.labels;
    var g2 := g1.(labels := l + 2);
    var ga := Emit(g2, Jz(v, l));
    var g3 := LowerStmt(s.thn, ga);
    var gb := Emit(g3, Jmp(l + 1));
    var g4 := Emit(gb, Label(l));
    var g5 := LowerStmt(s.els.value, g4);
    ExprShape(s.cond, g, params);
    QuietlyAdded(g, g1);
    TakeLabel(g, g1, {}, params);
    TakeLabel(g, g1.(labels := l + 1), {l}, params);
    AppendPlain(g2, Jz(v, l), params);
    AddsMore(g, g2, ga, {l, l + 1});
    StmtShape(s.thn, ga, params);
    AddsMore(g, ga, g3, {l, l + 1});
    AppendPlain(g3, Jmp(l + 1), params);
    AddsMore(g, g3, gb, {l, l + 1});
    PlaceLabel(g, gb, {l, l + 1}, l, params);
    assert {l, l + 1} - {l} == {l + 1};
    StmtShape(s.els.value, g4, params);
    AddsMore(g, g4, g5, {l + 1});
    PlaceLabel(g, g5, {l + 1}, l + 1, params);
    assert {l + 1} - {l + 1} == {};
  }

  lemma {:induction false} IfOnlyShape(s: Stmt, g: Gen, params: nat)
    requires Shape(g, params) && Complete(g) && Healthy(LowerStmt(s, g)) && s.If? && s.els.None?
    ensures var g1 := LowerStmt(s, g); Shape(g1, params) && Complete(g1) && Added(g, g1)
    decreases s, 0
  {
    hide Shape, Available, LowerExpr, Adds, Placed;
    var (g1, v) := LowerExpr(s.cond, g);
    var l := g1.labels;
    var g2 := g1.(labels := l + 1);
    var ga := Emit(g2, Jz(v, l));
    var g3 := LowerStmt(s.thn, ga);
    ExprShape(s.cond, g, params);
    QuietlyAdded(g, g1);
    TakeLabel(g, g1, {}, params);
    AppendPlain(g2, Jz(v, l), params);
    AddsMore(g, g2, ga, {l});
    StmtShape(s.thn, ga, params);
    AddsMore(g, ga, g3, {l});
    PlaceLabel(g, g3, {l}, l, params);
    assert {l} - {l} == {};
  }

  lemma {:induction false} WhileShape(s: Stmt, g: Gen, params: nat)
    requires Shape(g, params) && Complete(g) && Healthy(LowerStmt(s, g)) && s.While?
    ensures var g1 := LowerStmt(s, g); Shape(g1, params) && Complete(g1) && Added(g, g1)
    decreases s, 0
  {
    hide Shape, Available, LowerExpr, LowerStmt, Adds, Grows, Emit;
    WhileUnfold(s, g);
    var l := g.labels;
    var gl := g.(labels := l + 2);
    var g0 := Emit(gl, Label(l));
    var (g1, v) := LowerExpr(s.cond, g0);
    var ga := Emit(g1, Jz(v, l + 1));
    var g2 := LowerStmt(s.body, ga);
    var gb := Emit(g2, Jmp(l));
    NothingAdded(g);
    TakeLabel(g, g, {}, params);
    TakeLabel(g, g.(labels := l + 1), {l}, params);
    PlaceLabel(g, gl, {l, l + 1}, l, params);
    assert {l, l + 1} - {l} == {l + 1};
    ExprShape(s.cond, g0, params);
    QuietlyAdded(g0, g1);
    AddsMore(g, g0, g1, {l + 1});
    AppendPlain(g1, Jz(v, l + 1), params);
    AddsMore(g, g1, ga, {l + 1});
    StmtShape(s.body, ga, params);
    AddsMore(g, ga, g2, {l + 1});
    AppendPlain(g2, Jmp(l), params);
    AddsMore(g, g2, gb, {l + 1});
    PlaceLabel(g, gb, {l + 1}, l + 1, params);
    assert {l + 1} - {l + 1} == {};
  }

  lemma {:induction false} NothingAdded(g: Gen)
    ensures Added(g, g)
  {
  }

  // --- Functions -------------------------------------------------------------------

  ghost predicate WellFormed(f: IrFunc) {
    && f.params < f.vregCount <= MAX_VREGS
    && ShapedCode(f.code, f.params, f.vregCount, f.stackCount, f.labelCount)
    && (forall l :: 0 <= l < f.labelCount ==> Placed(f.code, 0, l))
    && (|f.code| > 0 ==> !f.code[|f.code| - 1].Arg?)
    && f.stackCount <= |f.code| < MAX_IR_INSTRUCTIONS
  }

  ghost predicate ParamsOnly(g: Gen) {
    forall x :: x in g.env ==> !g.env[x].isStack && 0 < g.env[x].index < g.vregs
  }

  lemma {:induction false} ParamsShape(ps: seq<Param>, g: Gen)
    requires LowerParams(ps, g).errors == g.errors && 0 < g.vregs <= MAX_VREGS && ParamsOnly(g)
    ensures var g1 := LowerParams(ps, g);
            g1.vregs == g.vregs + |ps| <= MAX_VREGS && ParamsOnly(g1)
    decreases |ps|
  {
    if ps != [] {
      var (g1, v) := NewVreg(g);
      var g2 := g1.(env := g1.env[ps[0].name := Symbol(v, false)]);
      assert LowerParams(ps[1..], g2).errors >= g2.errors;
      ParamsShape(ps[1..], g2);
    }
  }

  /** Every function that lowering accepts has the shape the back end relies on. */
  lemma {:induction false} LoweredIsWellFormed(f: Func)
    requires LowerFunc(f).Some?
    ensures WellFormed(LowerFunc(f).value)
  {
    hide LowerStmts, LowerParams;
    var gp := LowerParams(f.params, Start);
    ParamsShape(f.params, Start);
    var g := LowerStmts(f.body, gp);
    assert Shape(gp, |f.params|);
    StmtsShape(f.body, gp, |f.params|);
  }
}
