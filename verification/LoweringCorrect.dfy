/**
  Lowering preserves meaning: every settled run of a typed program is reproduced by the
  IR that `Lowering` generates, with the same value and the same calls.
 */
module LoweringCorrect {
  import opened Words
  import opened Ast
  import opened Source
  import opened Typing
  import opened Ir
  import opened Lowering
  import opened IrShape

  /** `q` holds the code of every function of `p`. */
  ghost predicate Compiled(p: Program, q: IrProgram) {
    forall fn :: fn in p ==> fn in q && TypedFunc(p[fn]) && LowerFunc(p[fn]) == Some(q[fn])
  }

  /** The code generated so far is part of the function being run. */
  ghost predicate Inside(g: Gen, f: IrFunc) {
    Healthy(g) && g.code <= f.code && UniqueLabels(f.code)
  }

  /** Variable `i` is kept in the slot or register `home[i]`, and the generator knows it. */
  ghost predicate Placed(g: Gen, vars: seq<Var>, home: seq<nat>) {
    && |home| == |vars|
    && (forall i :: 0 <= i < |vars| ==> if vars[i].isLocal then home[i] < g.slots else 0 < home[i] < g.vregs)
    && (forall i, j :: 0 <= i < j < |vars| && vars[i].isLocal == vars[j].isLocal ==> home[i] != home[j])
    && (forall x :: x in g.env <==> Find(vars, x) >= 0)
    && (forall x :: x in g.env ==> g.env[x] == Symbol(home[Find(vars, x)], vars[Find(vars, x)].isLocal))
  }

  ghost predicate HeldIn(c: Conf, v: Var, home: nat, w: Word) {
    if v.isLocal then home in c.slots && c.slots[home] == Slot(Width(v.ty), w)
    else home in c.vregs && c.vregs[home] == w
  }

  ghost predicate Held(c: Conf, env: Env, home: seq<nat>) {
    |home| == |env.vars| && forall i :: 0 <= i < |home| ==> HeldIn(c, env.vars[i], home[i], env.values[i])
  }

  /** The IR run stands where `g` left off, with the variables of `env` in place. */
  ghost predicate At(g: Gen, env: Env, home: seq<nat>, c: Conf, tr: Trace) {
    Placed(g, env.vars, home) && Held(c, env, home) && c.pc == |g.code| && c.args == [] && c.trace == tr
  }

  /** From `c` the run reaches the end of `g1`'s code with `w` in register `r`, disturbing only fresh registers. */
  ghost predicate Yields(g: Gen, g1: Gen, c: Conf, c1: Conf, r: nat, w: Word, tr: Trace) {
    && c1 == Conf(|g1.code|, c1.vregs, c.slots, [], tr)
    && 0 < r < g1.vregs && r in c1.vregs && c1.vregs[r] == w
    && Preserved(c, c1, g.vregs)
  }

  ghost predicate Preserved(c: Conf, c1: Conf, below: nat) {
    forall v :: v in c.vregs && v < below ==> v in c1.vregs && c1.vregs[v] == c.vregs[v]
  }

  lemma {:induction false} StillAt(g: Gen, g1: Gen, env: Env, home: seq<nat>, c: Conf, c1: Conf, tr: Trace, tr1: Trace)
    requires At(g, env, home, c, tr) && GrowsQuietly(g, g1)
    requires Preserved(c, c1, g.vregs) && c1 == Conf(|g1.code|, c1.vregs, c.slots, [], tr1)
    ensures At(g1, env, home, c1, tr1)
  {
  }

  lemma {:induction false} StepLeads(q: IrProgram, f: IrFunc, c: Conf, c1: Conf)
    requires c.pc < |f.code| && !f.code[c.pc].CallFn? && Next(f, c) == Go(c1)
    ensures Leads(q, f, c, c1, 1, 0)
  {
  }

  lemma {:induction false} StepEnds(q: IrProgram, f: IrFunc, c: Conf, o: Outcome)
    requires c.pc < |f.code| && !f.code[c.pc].CallFn? && Next(f, c) == End(o)
    ensures !o.OutOfFuel? && forall fuel: nat :: Ends(q, f, c, o, 1, fuel)
  {
  }

  lemma {:induction false} InsideEarlier(g: Gen, g1: Gen, f: IrFunc)
    requires Grows(g, g1) && Inside(g1, f)
    ensures Inside(g, f)
  {
    hide UniqueLabels;
  }

  /** An instruction defining the fresh register `d` after the code of `g`. */
  lemma {:induction false} DefineStep(q: IrProgram, f: IrFunc, g0: Gen, g: Gen, d: nat, i: Instr, c0: Conf, c: Conf,
                                      w: Word)
    returns (c1: Conf)
    requires Inside(Emit(NewVreg(g).0, i), f) && c.pc == |g.code| && !i.CallFn? && c.args == []
    requires d == g.vregs && NewVreg(g).1 == d && 0 < g0.vregs <= d
    requires f.code[c.pc] == i ==> Next(f, c) == Define(c, d, w)
    requires Preserved(c0, c, g0.vregs) && c.slots == c0.slots
    ensures Leads(q, f, c, c1, 1, 0) && Yields(g0, Emit(NewVreg(g).0, i), c0, c1, d, w, c.trace)
  {
    hide UniqueLabels;
    c1 := c.(pc := c.pc + 1, vregs := c.vregs[d := w]);
    assert f.code[c.pc] == i;
    StepLeads(q, f, c, c1);
  }

  lemma {:induction false} OpcodeMeaning(op: BinaryOp, ty: DataType, a: Word, b: Word)
    ensures AluMeaning(BinaryOpcode(op, ty), a, b) == BinaryMeaning(op, ty, a, b)
  {
  }

  /** The IR run from `c` reproduces the outcome `o` of the expression `e`. */
  ghost predicate Reproduces(q: IrProgram, f: IrFunc, e: Expr, g: Gen, c: Conf, o: Outcome, c1: Conf, n: nat, m: nat,
                             fuel: nat) {
    var g1 := LowerExpr(e, g);
    if o.Returned? then Leads(q, f, c, c1, n, m) && Yields(g, g1.0, c, c1, g1.1, o.value, o.trace)
    else Ends(q, f, c, o, m, fuel)
  }

  lemma {:induction false} ExprCorrect(p: Program, q: IrProgram, f: IrFunc, e: Expr, g: Gen, env: Env, home: seq<nat>,
                                       c: Conf, tr: Trace, fuel: nat)
    returns (c1: Conf, n: nat, m: nat)
    requires Compiled(p, q) && Inside(LowerExpr(e, g).0, f)
    requires TypedExpr(e, env.vars) && At(g, env, home, c, tr) && g.vregs > 0
    requires !Eval(p, e, env, tr, fuel).Stuck?
    ensures Reproduces(q, f, e, g, c, Eval(p, e, env, tr, fuel), c1, n, m, fuel)
    decreases fuel, e, 1
  {
    hide Compiled, Leads, Ends;
    match e
    case Number(_, _) => c1, n, m := LeafCorrect(p, q, f, e, g, env, home, c, tr, fuel);
    case Identifier(_, _) => c1, n, m := LeafCorrect(p, q, f, e, g, env, home, c, tr, fuel);
    case Unary(_, _, _) => c1, n, m := UnaryCorrect(p, q, f, e, g, env, home, c, tr, fuel);
    case Binary(_, _, _, _) => c1, n, m := BinaryCorrect(p, q, f, e, g, env, home, c, tr, fuel);
    case Call(_, _, _) => c1, n, m := CallCorrect(p, q, f, e, g, env, home, c, tr, fuel);
    case Assign(_, _, _) => assert false;
  }

  lemma {:induction false} LeafCorrect(p: Program, q: IrProgram, f: IrFunc, e: Expr, g: Gen, env: Env, home: seq<nat>,
                                       c: Conf, tr: Trace, fuel: nat)
    returns (c1: Conf, n: nat, m: nat)
    requires Inside(LowerExpr(e, g).0, f) && (e.Number? || e.Identifier?)
    requires TypedExpr(e, env.vars) && At(g, env, home, c, tr) && g.vregs > 0
    ensures Reproduces(q, f, e, g, c, Eval(p, e, env, tr, fuel), c1, n, m, fuel)
  {
    n, m, c1 := 1, 0, c;
    match e
    case Number(text, _) =>
      c1 := DefineStep(q, f, g, g, g.vregs, Const(g.vregs, NumberValue(text)), c, c, NumberValue(text));
    case Identifier(x, ty) =>
      var i := Find(env.vars, x);
      assert HeldIn(c, env.vars[i], home[i], env.values[i]);
      if env.vars[i].isLocal {
        c1 := DefineStep(q, f, g, g, g.vregs, Load(g.vregs, home[i], ty), c, c, env.values[i]);
      } else {
        n := 0;
      }
  }

  lemma {:induction false} UnaryCorrect(p: Program, q: IrProgram, f: IrFunc, e: Expr, g: Gen, env: Env,
                                        home: seq<nat>, c: Conf, tr: Trace, fuel: nat)
    returns (c1: Conf, n: nat, m: nat)
    requires Compiled(p, q) && Inside(LowerExpr(e, g).0, f) && e.Unary?
    requires TypedExpr(e, env.vars) && At(g, env, home, c, tr) && g.vregs > 0
    requires !Eval(p, e, env, tr, fuel).Stuck?
    ensures Reproduces(q, f, e, g, c, Eval(p, e, env, tr, fuel), c1, n, m, fuel)
    decreases fuel, e, 0
  {
    hide Compiled, At, Leads, Ends, UniqueLabels;
    var (g1, s) := LowerExpr(e.operand, g);
    InsideEarlier(g1, LowerExpr(e, g).0, f);
    c1, n, m := ExprCorrect(p, q, f, e.operand, g, env, home, c, tr, fuel);
    var o := Eval(p, e.operand, env, tr, fuel);
    if o.Returned? {
      var c2 := DefineStep(q, f, g, g1, g1.vregs, Un(UnaryOpcode(e.uop), g1.vregs, s), c, c1,
                UnaryMeaning(e.uop, o.value));
      LeadsAgain(q, f, c, c1, c2, n, m, 1, 0);
      c1, n := c2, n + 1;
    }
  }

  lemma {:induction false} BinaryCorrect(p: Program, q: IrProgram, f: IrFunc, e: Expr, g: Gen, env: Env,
                                         home: seq<nat>, c: Conf, tr: Trace, fuel: nat)
    returns (c1: Conf, n: nat, m: nat)
    requires Compiled(p, q) && Inside(LowerExpr(e, g).0, f) && e.Binary?
    requires TypedExpr(e, env.vars) && At(g, env, home, c, tr) && g.vregs > 0
    requires !Eval(p, e, env, tr, fuel).Stuck?
    ensures Reproduces(q, f, e, g, c, Eval(p, e, env, tr, fuel), c1, n, m, fuel)
    decreases fuel, e, 0
  {
    hide Eval, LowerExpr, TypedExpr, Compiled, At, Leads, Ends, Inside, Preserved, Grows, Operate;
    var (g1, s1) := LowerExpr(e.left, g);
    var (g2, s2) := LowerExpr(e.right, g1);
    BinaryCode(e, g, f);
    BinaryValue(p, e, env, tr, fuel);
    c1, n, m := ExprCorrect(p, q, f, e.left, g, env, home, c, tr, fuel);
    var o1 := Eval(p, e.left, env, tr, fuel);
    if o1.Returned? {
      StillAt(g, g1, env, home, c, c1, tr, o1.trace);
      var c2, n2, m2 := ExprCorrect(p, q, f, e.right, g1, env, home, c1, o1.trace, fuel);
      var o2 := Eval(p, e.right, env, o1.trace, fuel);
      if o2.Returned? {
        LeadsAgain(q, f, c, c1, c2, n, m, n2, m2);
        PreservedThrough(c, c1, c2, g.vregs, g1.vregs, s1);
        c1, n, m := OperateCorrect(q, f, e, g, c, c2, n + n2, m + m2, o1.value, o2.value, o2.trace, fuel);
      } else {
        LeadsEnds(q, f, c, c1, n, m, o2, m2, fuel, fuel);
        m := m + m2 + n;
      }
    }
  }

  lemma {:induction false} BinaryCode(e: Expr, g: Gen, f: IrFunc)
    requires e.Binary? && Inside(LowerExpr(e, g).0, f) && g.vregs > 0
    ensures var (g1, s1) := LowerExpr(e.left, g); var (g2, s2) := LowerExpr(e.right, g1);
            0 < g.vregs <= g1.vregs <= g2.vregs && Inside(g1, f) && (s1 > 0 ==> Inside(g2, f))
  {
    hide UniqueLabels;
  }

  lemma {:induction false} BinaryValue(p: Program, e: Expr, env: Env, tr: Trace, fuel: nat)
    requires e.Binary? && TypedExpr(e, env.vars)
    ensures TypedExpr(e.left, env.vars) && TypedExpr(e.right, env.vars)
    ensures var o1 := Eval(p, e.left, env, tr, fuel);
            Eval(p, e, env, tr, fuel) ==
            if !o1.Returned? then o1
            else var o2 := Eval(p, e.right, env, o1.trace, fuel);
                 if !o2.Returned? then o2 else Operate(e.bop, e.left.ty, o1.value, o2.value, o2.trace)
  {
    hide Operate;
  }

  lemma {:induction false} PreservedThrough(c: Conf, c1: Conf, c2: Conf, below: nat, below1: nat, r: nat)
    requires Preserved(c, c1, below) && Preserved(c1, c2, below1) && below <= below1
    requires r in c1.vregs && r < below1
    ensures Preserved(c, c2, below) && r in c2.vregs && c2.vregs[r] == c1.vregs[r]
  {
  }

  /** The operation itself, once both operands are in their registers. */
  lemma {:induction false} OperateCorrect(q: IrProgram, f: IrFunc, e: Expr, g: Gen, c: Conf, c2: Conf, n: nat, m: nat,
                                          a: Word, b: Word, tr: Trace, fuel: nat)
    returns (c1: Conf, n1: nat, m1: nat)
    requires Inside(LowerExpr(e, g).0, f) && e.Binary? && g.vregs > 0
    requires Leads(q, f, c, c2, n, m)
    requires var (g1, s1) := LowerExpr(e.left, g); var (g2, s2) := LowerExpr(e.right, g1);
             && Preserved(c, c2, g.vregs) && c2 == Conf(|g2.code|, c2.vregs, c.slots, [], tr)
             && s1 > 0 && s1 in c2.vregs && c2.vregs[s1] == a && s2 > 0 && s2 in c2.vregs && c2.vregs[s2] == b
    ensures Reproduces(q, f, e, g, c, Operate(e.bop, e.left.ty, a, b, tr), c1, n1, m1, fuel)
  {
    hide Leads, Ends, UniqueLabels, BinaryMeaning, AluMeaning, BinaryOpcode;
    var (g1, s1) := LowerExpr(e.left, g);
    var (g2, s2) := LowerExpr(e.right, g1);
    var op := BinaryOpcode(e.bop, e.left.ty);
    OpcodeMeaning(e.bop, e.left.ty, a, b);
    var i := Bin(op, g2.vregs, s1, s2);
    assert f.code[c2.pc] == i;
    match AluMeaning(op, a, b)
    case Some(w) =>
      c1 := DefineStep(q, f, g, g2, g2.vregs, i, c, c2, w);
      LeadsAgain(q, f, c, c2, c1, n, m, 1, 0);
      n1, m1 := n + 1, m;
    case None =>
      StepEnds(q, f, c2, Trapped(tr));
      LeadsEnds(q, f, c, c2, n, m, Trapped(tr), 1, fuel, fuel);
      c1, n1, m1 := c, 0, m + 1 + n;
  }

  // --- Calls -----------------------------------------------------------------------

  /** The registers `regs` hold the values `vs`. */
  ghost predicate ArgsLoaded(c: Conf, regs: seq<nat>, vs: seq<Word>, below: nat) {
    |regs| == |vs| && forall i :: 0 <= i < |regs| ==> regs[i] in c.vregs && regs[i] < below && c.vregs[regs[i]] == vs[i]
  }

  ghost predicate ReproducesArgs(q: IrProgram, f: IrFunc, es: seq<Expr>, g: Gen, c: Conf, r: ArgsResult, c1: Conf,
                                 n: nat, m: nat, fuel: nat) {
    var (g1, regs) := LowerArgs(es, g);
    match r
    case Values(vs, tr1) =>
      && Leads(q, f, c, c1, n, m) && c1 == Conf(|g1.code|, c1.vregs, c.slots, [], tr1)
      && Preserved(c, c1, g.vregs) && ArgsLoaded(c1, regs, vs, g1.vregs)
    case Abandoned(o) => Ends(q, f, c, o, m, fuel)
  }

  ghost predicate TypedArgs(es: seq<Expr>, vars: seq<Var>) {
    forall i :: 0 <= i < |es| ==> TypedExpr(es[i], vars)
  }

  predicate GoodArgs(r: ArgsResult) {
    r.Values? || !r.outcome.Stuck?
  }

  lemma {:induction false} ArgsCorrect(p: Program, q: IrProgram, f: IrFunc, es: seq<Expr>, g: Gen, env: Env,
                                       home: seq<nat>, c: Conf, tr: Trace, fuel: nat)
    returns (c1: Conf, n: nat, m: nat)
    requires Compiled(p, q) && Inside(LowerArgs(es, g).0, f)
    requires TypedArgs(es, env.vars) && At(g, env, home, c, tr) && g.vregs > 0
    requires GoodArgs(EvalArgs(p, es, env, tr, fuel))
    ensures ReproducesArgs(q, f, es, g, c, EvalArgs(p, es, env, tr, fuel), c1, n, m, fuel)
    decreases fuel, es, 0
  {
    hide Eval, LowerExpr, TypedExpr, Compiled, Leads, Ends, Inside, At, Preserved, Grows, UniqueLabels;
    if es == [] {
      c1, n, m := NothingToDo(q, f, g, env, home, c, tr);
    } else {
      ArgsCode(es, g, f);
      var (g1, s) := LowerExpr(es[0], g);
      c1, n, m := ExprCorrect(p, q, f, es[0], g, env, home, c, tr, fuel);
      var o := Eval(p, es[0], env, tr, fuel);
      if o.Returned? {
        StillAt(g, g1, env, home, c, c1, tr, o.trace);
        var rest := LowerArgs(es[1..], g1).1;
        var c2, n2, m2 := ArgsCorrect(p, q, f, es[1..], g1, env, home, c1, o.trace, fuel);
        match EvalArgs(p, es[1..], env, o.trace, fuel)
        case Values(vs, tr2) =>
          LeadsAgain(q, f, c, c1, c2, n, m, n2, m2);
          PreservedThrough(c, c1, c2, g.vregs, g1.vregs, s);
          c1, n, m := c2, n + n2, m + m2;
        case Abandoned(o2) =>
          LeadsEnds(q, f, c, c1, n, m, o2, m2, fuel, fuel);
          m := m + m2 + n;
      }
    }
  }

  lemma {:induction false} NothingToDo(q: IrProgram, f: IrFunc, g: Gen, env: Env, home: seq<nat>, c: Conf, tr: Trace)
    returns (c1: Conf, n: nat, m: nat)
    requires At(g, env, home, c, tr)
    ensures c1 == c == Conf(|g.code|, c.vregs, c.slots, [], tr) && Leads(q, f, c, c1, n, m) && Preserved(c, c1, g.vregs)
  {
    c1, n, m := c, 0, 0;
  }

  lemma {:induction false} ArgsCode(es: seq<Expr>, g: Gen, f: IrFunc)
    requires es != [] && Inside(LowerArgs(es, g).0, f) && g.vregs > 0
    ensures var (g1, s1) := LowerExpr(es[0], g);
            && 0 < g.vregs <= g1.vregs && Inside(g1, f)
            && (s1 > 0 ==> var g2 := LowerArgs(es[1..], g1).0; Inside(g2, f) && g1.vregs <= g2.vregs)
  {
    hide UniqueLabels;
  }

  /** Running the ARG instructions appends the argument values. */
  lemma {:induction false} PushArgs(q: IrProgram, f: IrFunc, regs: seq<nat>, from: nat, g: Gen, c: Conf,
                                    vs: seq<Word>, below: nat)
    requires Inside(EmitArgs(regs, from, g), f) && c.pc == |g.code| && ArgsLoaded(c, regs, vs, below)
    ensures Leads(q, f, c, c.(pc := |EmitArgs(regs, from, g).code|, args := c.args + vs), |regs|, 0)
    decreases |regs|
  {
    hide UniqueLabels;
    if regs == [] {
      assert c.args + vs == c.args;
    } else {
      var g1 := Emit(g, Arg(regs[0], from));
      assert Inside(g1, f);
      assert f.code[c.pc] == Arg(regs[0], from);
      var c1 := c.(pc := c.pc + 1, args := c.args + [vs[0]]);
      StepLeads(q, f, c, c1);
      PushArgs(q, f, regs[1..], from + 1, g1, c1, vs[1..], below);
      var c2 := c1.(pc := |EmitArgs(regs, from, g).code|, args := c1.args + vs[1..]);
      assert c.args + vs == c1.args + vs[1..];
      LeadsAgain(q, f, c, c1, c2, 1, 0, |regs| - 1, 0);
    }
  }

  lemma {:induction false} NoFuel(q: IrProgram, f: IrFunc, c: Conf)
    ensures forall m: nat :: Ends(q, f, c, OutOfFuel, m, 0)
  {
  }

  /** The callee decides how the CALL instruction ends. */
  lemma {:induction false} CallStep(q: IrProgram, f: IrFunc, c: Conf, d: nat, fn: string, o: Outcome, m: nat,
                                    fuel: nat)
    requires c.pc < |f.code| && f.code[c.pc] == CallFn(d, fn)
    requires CallEnds(q, fn, c.args, c.trace + [Event(fn, c.args)], o, m, fuel)
    ensures o.Returned? ==> Leads(q, f, c, AfterCall(c, d, o.value, o.trace), 1, m)
    ensures !o.Returned? ==> Ends(q, f, c, o, m + 1, fuel + 1)
  {
    hide AfterCall;
    if o.Returned? {
      ReturnLeads(q, f, c, d, fn, o, m);
    } else if !o.OutOfFuel? {
      forall k: nat | k >= m + 1 ensures Run(q, f, c, k) == o {
        assert RunFunc(q, fn, c.args, c.trace + [Event(fn, c.args)], k - 1) == o;
      }
    }
  }

  lemma {:induction false} ReturnLeads(q: IrProgram, f: IrFunc, c: Conf, d: nat, fn: string, o: Outcome, m: nat)
    requires c.pc < |f.code| && f.code[c.pc] == CallFn(d, fn) && o.Returned?
    requires forall k: nat :: k >= m ==> RunFunc(q, fn, c.args, c.trace + [Event(fn, c.args)], k) == o
    ensures Leads(q, f, c, AfterCall(c, d, o.value, o.trace), 1, m)
  {
    hide AfterCall, RunFunc;
    var tr := c.trace + [Event(fn, c.args)];
    var c1 := AfterCall(c, d, o.value, o.trace);
    forall k: nat | Run(q, f, c1, k) == OutOfFuel ensures Run(q, f, c, k + 1) == OutOfFuel {
      if RunFunc(q, fn, c.args, tr, k) != OutOfFuel {
        RunFuncMonotone(q, fn, c.args, tr, k, k + m);
        assert RunFunc(q, fn, c.args, tr, k + m) == o;
      }
    }
    forall k: nat | k >= m ensures Run(q, f, c, k + 1) == Run(q, f, c1, k) {
      assert RunFunc(q, fn, c.args, tr, k) == o;
    }
  }

  lemma {:induction false} CallCorrect(p: Program, q: IrProgram, f: IrFunc, e: Expr, g: Gen, env: Env, home: seq<nat>,
                                       c: Conf, tr: Trace, fuel: nat)
    returns (c1: Conf, n: nat, m: nat)
    requires Compiled(p, q) && Inside(LowerExpr(e, g).0, f) && e.Call?
    requires TypedExpr(e, env.vars) && At(g, env, home, c, tr) && g.vregs > 0
    requires !Eval(p, e, env, tr, fuel).Stuck?
    ensures Reproduces(q, f, e, g, c, Eval(p, e, env, tr, fuel), c1, n, m, fuel)
    decreases fuel, e, 0
  {
    hide LowerArgs, EmitArgs, EvalArgs, Compiled, Leads, Ends, Inside, At, Preserved, Grows, UniqueLabels, ArgsLoaded,
      Invoke;
    CallCode(e, g, f);
    var (g1, regs) := LowerArgs(e.args, g);
    var g2 := EmitArgs(regs, 0, g1);
    c1, n, m := ArgsCorrect(p, q, f, e.args, g, env, home, c, tr, fuel);
    match EvalArgs(p, e.args, env, tr, fuel)
    case Abandoned(_) =>
    case Values(vs, tr1) => if fuel == 0 {
      NoFuel(q, f, c);
    } else {
      ArgsLoadedLength(c1, regs, vs, g1.vregs);
      PushArgs(q, f, regs, 0, g1, c1, vs, g1.vregs);
      var c2 := c1.(pc := |g2.code|, args := c1.args + vs);
      assert c1.args + vs == vs;
      LeadsAgain(q, f, c, c1, c2, n, m, |regs|, 0);
      var tr2 := tr1 + [Event(e.fn, vs)];
      var m2 := InvokeCorrect(p, q, e.fn, vs, tr2, fuel - 1);
      var o := Invoke(p, e.fn, vs, tr2, fuel - 1);
      DefinedFresh(c, c1, g.vregs, g2.vregs, if o.Returned? then o.value else 0);
      CallStep(q, f, c2, g2.vregs, e.fn, o, m2, fuel - 1);
      if o.Returned? {
        c1 := AfterCall(c2, g2.vregs, o.value, o.trace);
        LeadsAgain(q, f, c, c2, c1, n + |regs|, m, 1, m2);
        n, m := n + |regs| + 1, m + m2;
      } else {
        LeadsEnds(q, f, c, c2, n + |regs|, m, o, m2 + 1, fuel, fuel);
        m := m + m2 + 1 + n + |regs|;
      }
    }
  }

  lemma {:induction false} ArgsLoadedLength(c: Conf, regs: seq<nat>, vs: seq<Word>, below: nat)
    requires ArgsLoaded(c, regs, vs, below)
    ensures |regs| == |vs|
  {
  }

  lemma {:induction false} DefinedFresh(c: Conf, c1: Conf, below: nat, d: nat, w: Word)
    requires Preserved(c, c1, below) && below <= d
    ensures forall c2: Conf :: c2.vregs == c1.vregs[d := w] ==> Preserved(c, c2, below)
  {
  }

  lemma {:induction false} CallCode(e: Expr, g: Gen, f: IrFunc)
    requires e.Call? && Inside(LowerExpr(e, g).0, f) && g.vregs > 0
    ensures var (g1, regs) := LowerArgs(e.args, g);
            && 0 < g.vregs <= g1.vregs && Inside(g1, f)
            && (|regs| == |e.args| ==>
                var g2 := EmitArgs(regs, 0, g1);
                && g2.vregs == g1.vregs && Inside(g2, f) && |g2.code| < |f.code|
                && f.code[|g2.code|] == CallFn(g2.vregs, e.fn)
                && LowerExpr(e, g).1 == g2.vregs && LowerExpr(e, g).0.vregs == g2.vregs + 1
                && |LowerExpr(e, g).0.code| == |g2.code| + 1)
  {
    hide UniqueLabels, LowerArgs, EmitArgs;
  }

  // --- Statements ------------------------------------------------------------------

  ghost predicate ReproducesFlow(q: IrProgram, f: IrFunc, g1: Gen, c: Conf, home: seq<nat>, d: Flow, c1: Conf,
                                 home1: seq<nat>, n: nat, m: nat, fuel: nat) {
    match d
    case Normal(env1, tr1) => Leads(q, f, c, c1, n, m) && At(g1, env1, home1, c1, tr1) && home <= home1
    case Done(o) => Ends(q, f, c, o, m, fuel)
  }

  predicate GoodFlow(d: Flow) {
    d.Normal? || !d.outcome.Stuck?
  }

  lemma {:induction false} FindPush(vars: seq<Var>, v: Var, x: string)
    ensures Find(vars + [v], x) == if v.name == x then |vars| else Find(vars, x)
  {
    assert (vars + [v])[..|vars|] == vars;
  }

  /** Scopes extend only by declarations. */
  lemma {:induction false} ExecScope(p: Program, s: Stmt, env: Env, tr: Trace, fuel: nat)
    requires TypedStmt(s, env.vars) && Exec(p, s, env, tr, fuel).Normal?
    ensures Exec(p, s, env, tr, fuel).env.vars == env.vars + Declared(s)
    decreases fuel, s
  {
    hide Eval, TypedExpr, Find, ExecAll;
    match s
    case VarDecl(_, _, _) =>
    case ExprStmt(_) => 
    case Return(_) =>
    case If(c, thn, els) =>
      var tr1 := Eval(p, c, env, tr, fuel).trace;
      if Eval(p, c, env, tr, fuel).value != 0 {
        ExecScope(p, thn, env, tr1, fuel);
      } else if els.Some? {
        ExecScope(p, els.value, env, tr1, fuel);
      }
    case While(c, body) =>
      var tr1 := Eval(p, c, env, tr, fuel).trace;
      if Eval(p, c, env, tr, fuel).value != 0 {
        ExecScope(p, body, env, tr1, fuel);
        var d := Exec(p, body, env, tr1, fuel);
        assert env.vars + [] == env.vars;
        ExecScope(p, s, d.env, d.trace, fuel - 1);
      }
    case Block(_) =>
  }

  /** Only a declaration changes the generator's scope. */
  lemma {:induction false} EnvKept(s: Stmt, vars: seq<Var>, g: Gen)
    requires TypedStmt(s, vars) && !s.VarDecl?
    ensures LowerStmt(s, g).env == g.env
    decreases s
  {
    hide LowerExpr, TypedExpr, LowerStmts, Find, Grows;
    match s
    case ExprStmt(_) =>
    case Return(_) =>
    case If(c, thn, Some(els)) =>
      var (g1, v) := LowerExpr(c, g);
      var g2 := Emit(g1.(labels := g1.labels + 2), Jz(v, g1.labels));
      EnvKept(thn, vars, g2);
      EnvKept(els, vars, Emit(Emit(LowerStmt(thn, g2), Jmp(g1.labels + 1)), Label(g1.labels)));
    case If(c, thn, None) =>
      var (g1, v) := LowerExpr(c, g);
      EnvKept(thn, vars, Emit(g1.(labels := g1.labels + 1), Jz(v, g1.labels)));
    case While(c, body) =>
      var (g1, v) := LowerExpr(c, Emit(g.(labels := g.labels + 2), Label(g.labels)));
      EnvKept(body, vars, Emit(g1, Jz(v, g.labels + 1)));
    case Block(_) =>
  }

  /** An expression that does not mention `x` is lowered the same whatever `x` stands for. */
  lemma {:induction false} EnvIrrelevant(e: Expr, x: string, sym: Symbol, g: Gen)
    requires !Mentions(e, x)
    ensures var (g1, r1) := LowerExpr(e, g);
            LowerExpr(e, g.(env := g.env[x := sym])) == (g1.(env := g.env[x := sym]), r1)
    decreases e, 2
  {
    hide Grows, BinaryOpcode, UnaryOpcode, NumberValue, LowerArgs, EmitArgs;
    match e
    case Number(_, _) =>
    case Identifier(_, _) =>
    case Unary(_, operand, _) => EnvIrrelevant(operand, x, sym, g);
    case Binary(_, _, _, _) => EnvIrrelevantBinary(e, x, sym, g);
    case Call(_, _, _) => EnvIrrelevantCall(e, x, sym, g);
    case Assign(_, _, _) =>
  }

  lemma {:induction false} EnvIrrelevantBinary(e: Expr, x: string, sym: Symbol, g: Gen)
    requires e.Binary? && !Mentions(e, x)
    ensures var (g1, r1) := LowerExpr(e, g);
            LowerExpr(e, g.(env := g.env[x := sym])) == (g1.(env := g.env[x := sym]), r1)
    decreases e, 1
  {
    hide Grows, BinaryOpcode;
    EnvIrrelevant(e.left, x, sym, g);
    EnvIrrelevant(e.right, x, sym, LowerExpr(e.left, g).0);
  }

  lemma {:induction false} EnvIrrelevantCall(e: Expr, x: string, sym: Symbol, g: Gen)
    requires e.Call? && !Mentions(e, x)
    ensures var (g1, r1) := LowerExpr(e, g);
            LowerExpr(e, g.(env := g.env[x := sym])) == (g1.(env := g.env[x := sym]), r1)
    decreases e, 1
  {
    hide Grows, LowerArgs, EmitArgs;
    EnvIrrelevantArgs(e.args, x, sym, g);
    var (g1, regs) := LowerArgs(e.args, g);
    EnvIrrelevantEmit(regs, 0, x, sym, g1);
  }

  lemma {:induction false} EnvIrrelevantArgs(es: seq<Expr>, x: string, sym: Symbol, g: Gen)
    requires forall i :: 0 <= i < |es| ==> !Mentions(es[i], x)
    ensures var (g1, rs) := LowerArgs(es, g);
            LowerArgs(es, g.(env := g.env[x := sym])) == (g1.(env := g.env[x := sym]), rs)
    decreases es, 0
  {
    hide Grows, LowerExpr;
    if es != [] {
      EnvIrrelevant(es[0], x, sym, g);
      EnvIrrelevantArgs(es[1..], x, sym, LowerExpr(es[0], g).0);
    }
  }

  lemma {:induction false} EnvIrrelevantEmit(regs: seq<nat>, from: nat, x: string, sym: Symbol, g: Gen)
    ensures EmitArgs(regs, from, g.(env := g.env[x := sym])) == EmitArgs(regs, from, g).(env := g.env[x := sym])
    decreases |regs|
  {
    hide Grows;
    if regs != [] {
      EnvIrrelevantEmit(regs[1..], from + 1, x, sym, Emit(g, Arg(regs[0], from)));
    }
  }

  /** Going on to a later generator state with the same scope. */
  lemma {:induction false} Moved(g: Gen, g1: Gen, env: Env, home: seq<nat>, c: Conf, c1: Conf, tr: Trace)
    requires At(g, env, home, c, tr) && Grows(g, g1) && g1.env == g.env
    requires c1 == c.(pc := |g1.code|)
    ensures At(g1, env, home, c1, tr)
  {
  }

  lemma {:induction false} LabelFound(f: IrFunc, i: nat)
    requires UniqueLabels(f.code) && i < |f.code| && f.code[i].Label?
    ensures FindLabel(f.code, f.code[i].id, 0) == i
  {
  }

  /** A step to `pc` that changes nothing else. */
  lemma {:induction false} Passes(q: IrProgram, f: IrFunc, c: Conf, pc: nat)
    requires c.pc < |f.code| && !f.code[c.pc].CallFn? && Next(f, c) == Go(c.(pc := pc))
    ensures Leads(q, f, c, c.(pc := pc), 1, 0)
  {
  }

  /** A jump to a label and the step over it. */
  lemma {:induction false} JumpsPast(q: IrProgram, f: IrFunc, c: Conf, i: nat)
    requires UniqueLabels(f.code) && i < |f.code| && f.code[i].Label?
    requires c.pc < |f.code| && !f.code[c.pc].CallFn? && Next(f, c) == Jump(f, c, f.code[i].id)
    ensures Leads(q, f, c, c.(pc := i + 1), 2, 0)
  {
    hide UniqueLabels;
    LabelFound(f, i);
    Passes(q, f, c, i);
    Passes(q, f, c.(pc := i), i + 1);
    LeadsAgain(q, f, c, c.(pc := i), c.(pc := i + 1), 1, 0, 1, 0);
  }

  /** Falling through a JZ whose condition holds. */
  lemma {:induction false} FallThrough(q: IrProgram, f: IrFunc, g1: Gen, ga: Gen, v: nat, l: nat, env: Env,
                                       home: seq<nat>, c: Conf, c1: Conf, tr: Trace, n: nat, m: nat) returns (c2: Conf)
    requires Leads(q, f, c, c1, n, m) && At(g1, env, home, c1, tr)
    requires |g1.code| < |f.code| && f.code[|g1.code|] == Jz(v, l) && v in c1.vregs && c1.vregs[v] != 0
    requires Grows(g1, ga) && ga.env == g1.env && |ga.code| == |g1.code| + 1
    ensures Leads(q, f, c, c2, n + 1, m) && At(ga, env, home, c2, tr)
  {
    hide Leads, At, Grows;
    AtPc(g1, env, home, c1, tr);
    c2 := c1.(pc := |ga.code|);
    Passes(q, f, c1, |ga.code|);
    LeadsAgain(q, f, c, c1, c2, n, m, 1, 0);
    Moved(g1, ga, env, home, c1, c2, tr);
  }

  /** Taking a JZ whose condition is 0, past its label. */
  lemma {:induction false} TakeBranch(q: IrProgram, f: IrFunc, g1: Gen, gb: Gen, v: nat, l: nat, env: Env,
                                      home: seq<nat>, c: Conf, c1: Conf, tr: Trace, n: nat, m: nat) returns (c2: Conf)
    requires Leads(q, f, c, c1, n, m) && At(g1, env, home, c1, tr) && UniqueLabels(f.code)
    requires |g1.code| < |f.code| && f.code[|g1.code|] == Jz(v, l) && v in c1.vregs && c1.vregs[v] == 0
    requires Grows(g1, gb) && gb.env == g1.env && 0 < |gb.code| <= |f.code| && f.code[|gb.code| - 1] == Label(l)
    ensures Leads(q, f, c, c2, n + 2, m) && At(gb, env, home, c2, tr)
  {
    hide Leads, At, Grows, UniqueLabels;
    AtPc(g1, env, home, c1, tr);
    c2 := c1.(pc := |gb.code|);
    JumpsPast(q, f, c1, |gb.code| - 1);
    LeadsAgain(q, f, c, c1, c2, n, m, 2, 0);
    Moved(g1, gb, env, home, c1, c2, tr);
  }

  lemma {:induction false} StmtCorrect(p: Program, q: IrProgram, f: IrFunc, s: Stmt, g: Gen, env: Env, home: seq<nat>,
                                       c: Conf, tr: Trace, fuel: nat)
    returns (c1: Conf, home1: seq<nat>, n: nat, m: nat)
    requires Compiled(p, q) && Inside(LowerStmt(s, g), f)
    requires TypedStmt(s, env.vars) && At(g, env, home, c, tr) && g.vregs > 0
    requires GoodFlow(Exec(p, s, env, tr, fuel))
    ensures ReproducesFlow(q, f, LowerStmt(s, g), c, home, Exec(p, s, env, tr, fuel), c1, home1, n, m, fuel)
    decreases fuel, s, 3
  {
    hide *;
    match s
    case VarDecl(_, _, _) => c1, home1, n, m := VarDeclCorrect(p, q, f, s, g, env, home, c, tr, fuel);
    case ExprStmt(_) => c1, home1, n, m := ExprStmtCorrect(p, q, f, s, g, env, home, c, tr, fuel);
    case Return(_) => c1, home1, n, m := ReturnCorrect(p, q, f, s, g, env, home, c, tr, fuel);
    case If(_, _, _) => c1, home1, n, m := IfCorrect(p, q, f, s, g, env, home, c, tr, fuel);
    case While(_, _) => c1, home1, n, m := WhileCorrect(p, q, f, s, g, env, home, c, tr, fuel);
    case Block(_) => c1, home1, n, m := BlockCorrect(p, q, f, s, g, env, home, c, tr, fuel);
  }

  /** A declaration without initialiser is lowered as one initialised with 0. */
  lemma {:induction false} ZeroAsNumber(g: Gen)
    ensures LowerExpr(Number("0", Int), g) == ZeroInit(g)
  {
    assert Digits("0") == 0;
  }

  lemma {:induction false} ZeroValue(p: Program, env: Env, tr: Trace, fuel: nat)
    ensures Eval(p, Number("0", Int), env, tr, fuel) == Returned(0, tr)
    ensures TypedExpr(Number("0", Int), env.vars) && forall x :: !Mentions(Number("0", Int), x)
  {
    assert Digits("0") == 0;
  }

  /** A new local is in scope under its name, in a slot of its own. */
  lemma {:induction false} DeclarePlaced(g: Gen, g1: Gen, vars: seq<Var>, home: seq<nat>, x: Var)
    requires Placed(g, vars, home) && x.isLocal && g1.slots == g.slots + 1 && g.vregs <= g1.vregs
    requires g1.env == g.env[x.name := Symbol(g.slots, true)]
    ensures Placed(g1, vars + [x], home + [g.slots])
  {
    forall y ensures Find(vars + [x], y) == if x.name == y then |home| else Find(vars, y) {
      FindPush(vars, x, y);
    }
  }

  lemma {:induction false} DeclareHeld(g: Gen, c: Conf, c2: Conf, env: Env, home: seq<nat>, x: Var, w: Word)
    requires Placed(g, env.vars, home) && Held(c, env, home) && x.isLocal
    requires c2.slots == c.slots[g.slots := Slot(Width(x.ty), Narrow(w, Width(x.ty)))] && Preserved(c, c2, g.vregs)
    ensures Held(c2, Push(env, x, w), home + [g.slots])
  {
    hide Width, Narrow;
    var env1 := Push(env, x, w);
    var home1 := home + [g.slots];
    forall j | 0 <= j < |home1| ensures HeldIn(c2, env1.vars[j], home1[j], env1.values[j]) {
      if j < |home| {
        assert HeldIn(c, env.vars[j], home[j], env.values[j]);
      }
    }
  }

  lemma {:induction false} DeclareStep(q: IrProgram, f: IrFunc, s: Stmt, g: Gen, g2: Gen, v: nat, env: Env,
                                       home: seq<nat>, c: Conf, c1: Conf, tr: Trace, w: Word, tr1: Trace)
    returns (c2: Conf)
    requires s.VarDecl? && At(g, env, home, c, tr) && g2.slots == g.slots + 1 && g.vregs <= g2.vregs
    requires g2.env == g.env[s.name := Symbol(g.slots, true)]
    requires Inside(Emit(g2, Store(g.slots, v, s.varType)), f)
    requires c1 == Conf(|g2.code|, c1.vregs, c.slots, [], tr1) && Preserved(c, c1, g.vregs)
    requires v in c1.vregs && c1.vregs[v] == w
    ensures Leads(q, f, c1, c2, 1, 0)
    ensures At(Emit(g2, Store(g.slots, v, s.varType)), Push(env, Var(s.name, s.varType, true), w), home + [g.slots],
            c2, tr1)
  {
    hide UniqueLabels, Narrow, Width, Leads, Placed, Held;
    var x := Var(s.name, s.varType, true);
    var i := Store(g.slots, v, s.varType);
    assert f.code[c1.pc] == i;
    c2 := c1.(pc := c1.pc + 1, slots := c1.slots[g.slots := Slot(Width(x.ty), Narrow(w, Width(x.ty)))]);
    StepLeads(q, f, c1, c2);
    DeclarePlaced(g, Emit(g2, i), env.vars, home, x);
    DeclareHeld(g, c, c2, env, home, x, w);
  }

  lemma {:induction false} VarDeclCorrect(p: Program, q: IrProgram, f: IrFunc, s: Stmt, g: Gen, env: Env,
                                          home: seq<nat>, c: Conf, tr: Trace, fuel: nat)
    returns (c1: Conf, home1: seq<nat>, n: nat, m: nat)
    requires Compiled(p, q) && Inside(LowerStmt(s, g), f) && s.VarDecl?
    requires TypedStmt(s, env.vars) && At(g, env, home, c, tr) && g.vregs > 0
    requires GoodFlow(Exec(p, s, env, tr, fuel))
    ensures ReproducesFlow(q, f, LowerStmt(s, g), c, home, Exec(p, s, env, tr, fuel), c1, home1, n, m, fuel)
    decreases fuel, s, 1
  {
    hide Compiled, Leads, Ends, Placed, Held, UniqueLabels, Preserved, LowerExpr, Eval, TypedExpr, Mentions, Narrow;
    ZeroValue(p, env, tr, fuel);
    var k := g.slots;
    var sym := Symbol(k, true);
    var g0 := g.(slots := k + 1);
    var g1 := g0.(env := g.env[s.name := sym]);
    var (g2, v) := if s.init.Some? then LowerExpr(s.init.value, g1) else ZeroInit(g1);
    InsideEarlier(g2, LowerStmt(s, g), f);
    Moved(g, g0, env, home, c, c, tr);
    home1 := home + [k];
    var e := if s.init.Some? then s.init.value else Number("0", Int);
    ZeroAsNumber(g1);
    EnvIrrelevant(e, s.name, sym, g0);
    var gq := LowerExpr(e, g0).0;
    assert g2 == gq.(env := g1.env);
    if s.init.Some? {
      c1, n, m := ExprCorrect(p, q, f, e, g0, env, home, c, tr, fuel);
    } else {
      c1, n, m := LeafCorrect(p, q, f, e, g0, env, home, c, tr, fuel);
    }
    var o := Eval(p, e, env, tr, fuel);
    if o.Returned? {
      var c2 := DeclareStep(q, f, s, g, g2, v, env, home, c, c1, tr, o.value, o.trace);
      LeadsAgain(q, f, c, c1, c2, n, m, 1, 0);
      c1, n := c2, n + 1;
    }
  }

  lemma {:induction false} TargetKnown(x: string, g: Gen, env: Env, home: seq<nat>, c: Conf, tr: Trace)
    requires At(g, env, home, c, tr) && Find(env.vars, x) >= 0
    ensures x in g.env
  {
  }

  /** Assigning to variable `i` changes the slot or register that is its home, and no other. */
  lemma {:induction false} AssignHeld(c1: Conf, c2: Conf, env: Env, home: seq<nat>, g1: Gen, i: nat, w: Word)
    requires Held(c1, env, home) && Placed(g1, env.vars, home) && i < |home|
    requires var x := env.vars[i];
             c2 == if x.isLocal then c1.(pc := c1.pc + 1,
               slots := c1.slots[home[i] := Slot(Width(x.ty), Narrow(w, Width(x.ty)))])
                   else c1.(pc := c1.pc + 1, vregs := c1.vregs[home[i] := w])
    ensures Held(c2, Update(env, i, w), home)
  {
    hide Width, Narrow;
    var env1 := Update(env, i, w);
    forall j | 0 <= j < |home| ensures HeldIn(c2, env1.vars[j], home[j], env1.values[j]) {
      assert HeldIn(c1, env.vars[j], home[j], env.values[j]);
      assert env.vars[j].isLocal == env.vars[i].isLocal && j != i ==> home[i] != home[j];
    }
  }

  /** What an assignment is lowered to. */
  lemma {:induction false} AssignCode(s: Stmt, g: Gen, g1: Gen, v: nat, f: IrFunc)
    requires s.ExprStmt? && s.e.Assign? && s.e.target in g.env && Inside(LowerStmt(s, g), f)
    requires g1 == LowerExpr(s.e.rhs, g).0 && v != 0 && v == LowerExpr(s.e.rhs, g).1
    ensures var sym := g.env[s.e.target];
            var i := if sym.isStack then Store(sym.index, v, s.e.ty) else Mov(sym.index, v);
            LowerStmt(s, g) == Emit(g1, i) && |g1.code| < |f.code| && f.code[|g1.code|] == i
    ensures LowerStmt(s, g).code == g1.code + [LowerStmt(s, g).code[|g1.code|]]
    ensures GrowsQuietly(g, g1)
  {
    hide UniqueLabels, LowerExpr;
  }

  lemma {:induction false} AssignStep(q: IrProgram, f: IrFunc, s: Stmt, g: Gen, g1: Gen, v: nat, env: Env,
                                      home: seq<nat>, c: Conf, c1: Conf, tr: Trace, w: Word, tr1: Trace)
    returns (c2: Conf)
    requires s.ExprStmt? && s.e.Assign? && TypedStmt(s, env.vars) && At(g, env, home, c, tr)
    requires g1 == LowerExpr(s.e.rhs, g).0 && v != 0 && v == LowerExpr(s.e.rhs, g).1
    requires Inside(LowerStmt(s, g), f) && s.e.target in g.env
    requires c1 == Conf(|g1.code|, c1.vregs, c.slots, [], tr1) && Preserved(c, c1, g.vregs)
    requires v in c1.vregs && c1.vregs[v] == w
    ensures Leads(q, f, c1, c2, 1, 0)
    ensures At(LowerStmt(s, g), Update(env, Find(env.vars, s.e.target), w), home, c2, tr1)
  {
    hide UniqueLabels, Leads, LowerExpr, TypedExpr, Narrow, Width, LowerStmt, Held, Inside, Emit;
    var i := Find(env.vars, s.e.target);
    AssignCode(s, g, g1, v, f);
    StillAt(g, g1, env, home, c, c1, tr, tr1);
    var kept := Slot(Width(s.e.ty), Narrow(w, Width(s.e.ty)));
    c2 := if env.vars[i].isLocal then c1.(pc := c1.pc + 1, slots := c1.slots[home[i] := kept])
          else c1.(pc := c1.pc + 1, vregs := c1.vregs[home[i] := w]);
    StepLeads(q, f, c1, c2);
    AssignHeld(c1, c2, env, home, g1, i, w);
  }

  lemma {:induction false} ExprStmtCorrect(p: Program, q: IrProgram, f: IrFunc, s: Stmt, g: Gen, env: Env,
                                           home: seq<nat>, c: Conf, tr: Trace, fuel: nat)
    returns (c1: Conf, home1: seq<nat>, n: nat, m: nat)
    requires Compiled(p, q) && Inside(LowerStmt(s, g), f) && s.ExprStmt?
    requires TypedStmt(s, env.vars) && At(g, env, home, c, tr) && g.vregs > 0
    requires GoodFlow(Exec(p, s, env, tr, fuel))
    ensures ReproducesFlow(q, f, LowerStmt(s, g), c, home, Exec(p, s, env, tr, fuel), c1, home1, n, m, fuel)
    decreases fuel, s, 1
  {
    hide Compiled, Leads, Ends, At, UniqueLabels, Preserved, LowerExpr, Eval, TypedExpr, Narrow;
    home1 := home;
    if !s.e.Assign? {
      c1, n, m := ExprCorrect(p, q, f, s.e, g, env, home, c, tr, fuel);
      var o := Eval(p, s.e, env, tr, fuel);
      if o.Returned? {
        StillAt(g, LowerExpr(s.e, g).0, env, home, c, c1, tr, o.trace);
      }
    } else {
      var (g1, v) := LowerExpr(s.e.rhs, g);
      TargetKnown(s.e.target, g, env, home, c, tr);
      InsideEarlier(g1, LowerStmt(s, g), f);
      c1, n, m := ExprCorrect(p, q, f, s.e.rhs, g, env, home, c, tr, fuel);
      var o := Eval(p, s.e.rhs, env, tr, fuel);
      if o.Returned? {
        var c2 := AssignStep(q, f, s, g, g1, v, env, home, c, c1, tr, o.value, o.trace);
        LeadsAgain(q, f, c, c1, c2, n, m, 1, 0);
        c1, n := c2, n + 1;
      }
    }
  }

  lemma {:induction false} ReturnCorrect(p: Program, q: IrProgram, f: IrFunc, s: Stmt, g: Gen, env: Env,
                                         home: seq<nat>, c: Conf, tr: Trace, fuel: nat)
    returns (c1: Conf, home1: seq<nat>, n: nat, m: nat)
    requires Compiled(p, q) && Inside(LowerStmt(s, g), f) && s.Return?
    requires TypedStmt(s, env.vars) && At(g, env, home, c, tr) && g.vregs > 0
    requires GoodFlow(Exec(p, s, env, tr, fuel))
    ensures ReproducesFlow(q, f, LowerStmt(s, g), c, home, Exec(p, s, env, tr, fuel), c1, home1, n, m, fuel)
    decreases fuel, s, 1
  {
    hide Compiled, Leads, Ends, At, Placed, Held, UniqueLabels, Preserved, LowerExpr, Eval, TypedExpr;
    var e := s.result.value;
    var (g1, v) := LowerExpr(e, g);
    InsideEarlier(g1, LowerStmt(s, g), f);
    c1, n, m := ExprCorrect(p, q, f, e, g, env, home, c, tr, fuel);
    home1 := home;
    var o := Eval(p, e, env, tr, fuel);
    if o.Returned? {
      StepEnds(q, f, c1, o);
      LeadsEnds(q, f, c, c1, n, m, o, 1, fuel, fuel);
      m := m + 1 + n;
    }
  }

  lemma {:induction false} IfCorrect(p: Program, q: IrProgram, f: IrFunc, s: Stmt, g: Gen, env: Env, home: seq<nat>,
                                     c: Conf, tr: Trace, fuel: nat)
    returns (c1: Conf, home1: seq<nat>, n: nat, m: nat)
    requires Compiled(p, q) && Inside(LowerStmt(s, g), f) && s.If?
    requires TypedStmt(s, env.vars) && At(g, env, home, c, tr) && g.vregs > 0
    requires GoodFlow(Exec(p, s, env, tr, fuel))
    ensures ReproducesFlow(q, f, LowerStmt(s, g), c, home, Exec(p, s, env, tr, fuel), c1, home1, n, m, fuel)
    decreases fuel, s, 2
  {
    hide Compiled, Leads, Ends, At, UniqueLabels, Preserved, LowerExpr, Eval, TypedExpr;
    if s.els.Some? {
      c1, home1, n, m := IfElseCorrect(p, q, f, s, g, env, home, c, tr, fuel);
    } else {
      c1, home1, n, m := IfOnlyCorrect(p, q, f, s, g, env, home, c, tr, fuel);
    }
  }

  /** The run of a then-branch, from its first instruction on. */
  lemma {:induction false} ThenCorrect(p: Program, q: IrProgram, f: IrFunc, s: Stmt, g: Gen, env: Env, home: seq<nat>,
                                       c: Conf, c2: Conf, tr: Trace, n: nat, m: nat, fuel: nat)
    returns (c1: Conf, home1: seq<nat>, n1: nat, m1: nat)
    requires Compiled(p, q) && Inside(LowerStmt(s, g), f) && s.If? && s.els.Some? && g.vregs > 0
    requires TypedStmt(s, env.vars) && GoodFlow(Exec(p, s.thn, env, tr, fuel)) && Leads(q, f, c, c2, n, m)
    requires var (g1, v) := LowerExpr(s.cond, g);
             v > 0 && At(Emit(g1.(labels := g1.labels + 2), Jz(v, g1.labels)), env, home, c2, tr)
    ensures ReproducesFlow(q, f, LowerStmt(s, g), c, home, Exec(p, s.thn, env, tr, fuel), c1, home1, n1, m1, fuel)
    decreases fuel, s, 0
  {
    hide Compiled, Leads, Ends, At, UniqueLabels, LowerExpr, Exec, LowerStmt;
    IfElseCode(s, g, f);
    var (g1, v) := LowerExpr(s.cond, g);
    var ga := Emit(g1.(labels := g1.labels + 2), Jz(v, g1.labels));
    var c3, n3, m3;
    c3, home1, n3, m3 := StmtCorrect(p, q, f, s.thn, ga, env, home, c2, tr, fuel);
    c1, n1, m1 := AfterThen(q, f, s, g, env, home, c, c2, c3, home1, Exec(p, s.thn, env, tr, fuel), n, m, n3, m3,
      fuel);
  }

  lemma {:induction false} ElseCorrect(p: Program, q: IrProgram, f: IrFunc, s: Stmt, g: Gen, env: Env, home: seq<nat>,
                                       c: Conf, c2: Conf, tr: Trace, n: nat, m: nat, fuel: nat)
    returns (c1: Conf, home1: seq<nat>, n1: nat, m1: nat)
    requires Compiled(p, q) && Inside(LowerStmt(s, g), f) && s.If? && s.els.Some? && g.vregs > 0
    requires TypedStmt(s, env.vars) && GoodFlow(Exec(p, s.els.value, env, tr, fuel)) && Leads(q, f, c, c2, n, m)
    requires var (g1, v) := LowerExpr(s.cond, g);
             var l := g1.labels;
             var g3 := LowerStmt(s.thn, Emit(g1.(labels := l + 2), Jz(v, l)));
             v > 0 && At(Emit(Emit(g3, Jmp(l + 1)), Label(l)), env, home, c2, tr)
    ensures ReproducesFlow(q, f, LowerStmt(s, g), c, home, Exec(p, s.els.value, env, tr, fuel), c1, home1, n1, m1, fuel)
    decreases fuel, s, 0
  {
    hide Compiled, Leads, Ends, At, UniqueLabels, LowerExpr, Exec, LowerStmt;
    IfElseCode(s, g, f);
    var (g1, v) := LowerExpr(s.cond, g);
    var l := g1.labels;
    var g3 := LowerStmt(s.thn, Emit(g1.(labels := l + 2), Jz(v, l)));
    var c3, n3, m3;
    c3, home1, n3, m3 := StmtCorrect(p, q, f, s.els.value, Emit(Emit(g3, Jmp(l + 1)), Label(l)), env, home, c2, tr,
      fuel);
    c1, n1, m1 := AfterElse(q, f, s, g, home, c, c2, c3, home1, Exec(p, s.els.value, env, tr, fuel), n, m, n3, m3,
      fuel);
  }

  lemma {:induction false} IfElseCorrect(p: Program, q: IrProgram, f: IrFunc, s: Stmt, g: Gen, env: Env,
                                         home: seq<nat>, c: Conf, tr: Trace, fuel: nat)
    returns (c1: Conf, home1: seq<nat>, n: nat, m: nat)
    requires Compiled(p, q) && Inside(LowerStmt(s, g), f) && s.If? && s.els.Some?
    requires TypedStmt(s, env.vars) && At(g, env, home, c, tr) && g.vregs > 0
    requires GoodFlow(Exec(p, s, env, tr, fuel))
    ensures ReproducesFlow(q, f, LowerStmt(s, g), c, home, Exec(p, s, env, tr, fuel), c1, home1, n, m, fuel)
    decreases fuel, s, 1
  {
    hide Emit, Healthy, Compiled, Leads, Ends, At, UniqueLabels, Preserved, LowerExpr, Eval, TypedExpr, Exec,
      LowerStmt, TypedStmt;
    IfElseValue(p, s, env, tr, fuel);
    IfElseCode(s, g, f);
    var (g1, v) := LowerExpr(s.cond, g);
    var l := g1.labels;
    var ga := Emit(g1.(labels := l + 2), Jz(v, l));
    var g3 := LowerStmt(s.thn, ga);
    var g4 := Emit(Emit(g3, Jmp(l + 1)), Label(l));
    c1, n, m := ExprCorrect(p, q, f, s.cond, g, env, home, c, tr, fuel);
    home1 := home;
    var o := Eval(p, s.cond, env, tr, fuel);
    if o.Returned? {
      StillAt(g, g1, env, home, c, c1, tr, o.trace);
      EnvKept(s.thn, env.vars, ga);
      if o.value != 0 {
        var c2 := FallThrough(q, f, g1, ga, v, l, env, home, c, c1, o.trace, n, m);
        c1, home1, n, m := ThenCorrect(p, q, f, s, g, env, home, c, c2, o.trace, n + 1, m, fuel);
      } else {
        var c2 := TakeBranch(q, f, g1, g4, v, l, env, home, c, c1, o.trace, n, m);
        c1, home1, n, m := ElseCorrect(p, q, f, s, g, env, home, c, c2, o.trace, n + 2, m, fuel);
      }
    }
  }

  /** The then-branch is followed by a jump over the else-branch. */
  lemma {:induction false} AfterThen(q: IrProgram, f: IrFunc, s: Stmt, g: Gen, env: Env, home: seq<nat>, c: Conf,
                                     c2: Conf, c3: Conf, home1: seq<nat>, d: Flow, n: nat, m: nat, n3: nat, m3: nat,
                                     fuel: nat)
    returns (c1: Conf, n1: nat, m1: nat)
    requires s.If? && s.els.Some? && Inside(LowerStmt(s, g), f) && g.vregs > 0 && TypedStmt(s, env.vars)
    requires Leads(q, f, c, c2, n, m)
    requires var (g1, v) := LowerExpr(s.cond, g);
             && v > 0
             && ReproducesFlow(q, f, LowerStmt(s.thn, Emit(g1.(labels := g1.labels + 2), Jz(v, g1.labels))), c2, home,
               d, c3, home1, n3, m3, fuel)
    ensures ReproducesFlow(q, f, LowerStmt(s, g), c, home, d, c1, home1, n1, m1, fuel)
  {
    hide Healthy, Leads, Ends, At, UniqueLabels, LowerExpr, TypedExpr, LowerStmt, Emit, Find;
    IfElseCode(s, g, f);
    var (g1, v) := LowerExpr(s.cond, g);
    var l := g1.labels;
    var g3 := LowerStmt(s.thn, Emit(g1.(labels := l + 2), Jz(v, l)));
    var g4 := Emit(Emit(g3, Jmp(l + 1)), Label(l));
    var g5 := LowerStmt(s.els.value, g4);
    c1, n1, m1 := c, n, m;
    match d
    case Normal(env1, tr1) =>
      EnvKept(s.els.value, env.vars, g4);
      LeadsAgain(q, f, c, c2, c3, n, m, n3, m3);
      AtPc(g3, env1, home1, c3, tr1);
      JumpsPast(q, f, c3, |g5.code|);
      c1 := c3.(pc := |g5.code| + 1);
      LeadsAgain(q, f, c, c3, c1, n + n3, m + m3, 2, 0);
      Moved(g3, LowerStmt(s, g), env1, home1, c3, c1, tr1);
      n1, m1 := n + n3 + 2, m + m3;
    case Done(o1) =>
      LeadsEnds(q, f, c, c2, n, m, o1, m3, fuel, fuel);
      m1 := m + m3 + n;
  }

  lemma {:induction false} AfterElse(q: IrProgram, f: IrFunc, s: Stmt, g: Gen, home: seq<nat>, c: Conf, c2: Conf,
                                     c3: Conf, home1: seq<nat>, d: Flow, n: nat, m: nat, n3: nat, m3: nat,
                                     fuel: nat)
    returns (c1: Conf, n1: nat, m1: nat)
    requires s.If? && s.els.Some? && Inside(LowerStmt(s, g), f) && g.vregs > 0
    requires Leads(q, f, c, c2, n, m)
    requires var (g1, v) := LowerExpr(s.cond, g);
             var l := g1.labels;
             var g3 := LowerStmt(s.thn, Emit(g1.(labels := l + 2), Jz(v, l)));
             && v > 0
             && ReproducesFlow(q, f, LowerStmt(s.els.value, Emit(Emit(g3, Jmp(l + 1)), Label(l))), c2, home, d, c3,
               home1, n3, m3, fuel)
    ensures ReproducesFlow(q, f, LowerStmt(s, g), c, home, d, c1, home1, n1, m1, fuel)
  {
    hide Leads, Ends, At, UniqueLabels, LowerExpr, LowerStmt;
    IfElseCode(s, g, f);
    var (g1, v) := LowerExpr(s.cond, g);
    var l := g1.labels;
    var g3 := LowerStmt(s.thn, Emit(g1.(labels := l + 2), Jz(v, l)));
    var g5 := LowerStmt(s.els.value, Emit(Emit(g3, Jmp(l + 1)), Label(l)));
    c1, n1, m1 := c, n, m;
    match d
    case Normal(env1, tr1) =>
      LeadsAgain(q, f, c, c2, c3, n, m, n3, m3);
      AtPc(g5, env1, home1, c3, tr1);
      c1 := c3.(pc := |g5.code| + 1);
      Passes(q, f, c3, |g5.code| + 1);
      LeadsAgain(q, f, c, c3, c1, n + n3, m + m3, 1, 0);
      Moved(g5, LowerStmt(s, g), env1, home1, c3, c1, tr1);
      n1, m1 := n + n3 + 1, m + m3;
    case Done(o1) =>
      LeadsEnds(q, f, c, c2, n, m, o1, m3, fuel, fuel);
      m1 := m + m3 + n;
  }

  lemma {:induction false} AtPc(g: Gen, env: Env, home: seq<nat>, c: Conf, tr: Trace)
    requires At(g, env, home, c, tr)
    ensures c.pc == |g.code|
  {
  }

  lemma {:induction false} IfElseValue(p: Program, s: Stmt, env: Env, tr: Trace, fuel: nat)
    requires s.If? && s.els.Some? && TypedStmt(s, env.vars)
    ensures TypedExpr(s.cond, env.vars) && TypedStmt(s.thn, env.vars) && TypedStmt(s.els.value, env.vars)
    ensures !s.thn.VarDecl? && !s.els.value.VarDecl?
    ensures var o := Eval(p, s.cond, env, tr, fuel);
            Exec(p, s, env, tr, fuel) ==
            if !o.Returned? then Done(o)
            else Exec(p, if o.value != 0 then s.thn else s.els.value, env, o.trace, fuel)
  {
    hide Eval, TypedExpr;
  }

  lemma {:induction false} IfElseLowered(s: Stmt, g: Gen)
    requires s.If? && s.els.Some?
    ensures LowerStmt(s, g) == LowerIfElse(s.cond, s.thn, s.els.value, g)
  {
    hide LowerIfElse;
  }

  /** Where the pieces of an if-else stand in the function. */
  lemma {:induction false} IfElseCode(s: Stmt, g: Gen, f: IrFunc)
    requires s.If? && s.els.Some? && Inside(LowerStmt(s, g), f) && g.vregs > 0
    ensures var (g1, v) := LowerExpr(s.cond, g); var l := g1.labels;
            && 0 < g.vregs <= g1.vregs && Inside(g1, f)
            && (v > 0 ==>
                var ga := Emit(g1.(labels := l + 2), Jz(v, l));
                var g3 := LowerStmt(s.thn, ga);
                var gb := Emit(g3, Jmp(l + 1));
                var g4 := Emit(gb, Label(l));
                var g5 := LowerStmt(s.els.value, g4);
                var g6 := Emit(g5, Label(l + 1));
                && LowerStmt(s, g) == g6
                && Inside(g3, f) && Inside(g5, f) && Grows(g1, ga) && Grows(g1, g4) && Grows(g3, g6) && Grows(g5, g6)
                && ga.env == g1.env && gb.env == g3.env && g4.env == gb.env && g6.env == g5.env
                && g1.vregs == ga.vregs && g3.vregs == g4.vregs >= g1.vregs
                && |f.code| >= |g6.code| == |g5.code| + 1 && |g4.code| == |gb.code| + 1 == |g3.code| + 2
                && |ga.code| == |g1.code| + 1
                && f.code[|g1.code|] == Jz(v, l) && f.code[|g3.code|] == Jmp(l + 1)
                && f.code[|gb.code|] == Label(l) && f.code[|g5.code|] == Label(l + 1))
  {
    hide UniqueLabels, LowerExpr, LowerStmt;
    IfElseLowered(s, g);
  }

  lemma {:induction false} IfOnlyCorrect(p: Program, q: IrProgram, f: IrFunc, s: Stmt, g: Gen, env: Env,
                                         home: seq<nat>, c: Conf, tr: Trace, fuel: nat)
    returns (c1: Conf, home1: seq<nat>, n: nat, m: nat)
    requires Compiled(p, q) && Inside(LowerStmt(s, g), f) && s.If? && s.els.None?
    requires TypedStmt(s, env.vars) && At(g, env, home, c, tr) && g.vregs > 0
    requires GoodFlow(Exec(p, s, env, tr, fuel))
    ensures ReproducesFlow(q, f, LowerStmt(s, g), c, home, Exec(p, s, env, tr, fuel), c1, home1, n, m, fuel)
    decreases fuel, s, 0
  {
    hide Compiled, Leads, Ends, At, UniqueLabels, Preserved, LowerExpr, Eval, TypedExpr, Exec, LowerStmt, TypedStmt;
    IfOnlyValue(p, s, env, tr, fuel);
    var (g1, v) := LowerExpr(s.cond, g);
    var l := g1.labels;
    var ga := Emit(g1.(labels := l + 1), Jz(v, l));
    var g3 := LowerStmt(s.thn, ga);
    var g4 := Emit(g3, Label(l));
    IfOnlyCode(s, g, f);
    c1, n, m := ExprCorrect(p, q, f, s.cond, g, env, home, c, tr, fuel);
    home1 := home;
    var o := Eval(p, s.cond, env, tr, fuel);
    if o.Returned? {
      StillAt(g, g1, env, home, c, c1, tr, o.trace);
      EnvKept(s.thn, env.vars, ga);
      if o.value != 0 {
        var c2 := FallThrough(q, f, g1, ga, v, l, env, home, c, c1, o.trace, n, m);
        var c3, n3, m3;
        c3, home1, n3, m3 := StmtCorrect(p, q, f, s.thn, ga, env, home, c2, o.trace, fuel);
        match Exec(p, s.thn, env, o.trace, fuel)
        case Normal(env1, tr1) =>
          LeadsAgain(q, f, c, c2, c3, n + 1, m, n3, m3);
          AtPc(g3, env1, home1, c3, tr1);
          Passes(q, f, c3, |g4.code|);
          c1 := c3.(pc := |g4.code|);
          LeadsAgain(q, f, c, c3, c1, n + 1 + n3, m + m3, 1, 0);
          Moved(g3, g4, env1, home1, c3, c1, tr1);
          n, m := n + 1 + n3 + 1, m + m3;
        case Done(o1) =>
          LeadsEnds(q, f, c, c2, n + 1, m, o1, m3, fuel, fuel);
          m := m + m3 + n + 1;
      } else {
        c1 := TakeBranch(q, f, g1, g4, v, l, env, home, c, c1, o.trace, n, m);
        n := n + 2;
      }
    }
  }

  lemma {:induction false} IfOnlyValue(p: Program, s: Stmt, env: Env, tr: Trace, fuel: nat)
    requires s.If? && s.els.None? && TypedStmt(s, env.vars)
    ensures TypedExpr(s.cond, env.vars) && TypedStmt(s.thn, env.vars) && !s.thn.VarDecl?
    ensures var o := Eval(p, s.cond, env, tr, fuel);
            Exec(p, s, env, tr, fuel) ==
            if !o.Returned? then Done(o)
            else if o.value != 0 then Exec(p, s.thn, env, o.trace, fuel) else Normal(env, o.trace)
  {
    hide Eval, TypedExpr;
  }

  lemma {:induction false} IfOnlyCode(s: Stmt, g: Gen, f: IrFunc)
    requires s.If? && s.els.None? && Inside(LowerStmt(s, g), f) && g.vregs > 0
    ensures var (g1, v) := LowerExpr(s.cond, g); var l := g1.labels;
            && 0 < g.vregs <= g1.vregs && Inside(g1, f)
            && (v > 0 ==>
                var ga := Emit(g1.(labels := l + 1), Jz(v, l));
                var g3 := LowerStmt(s.thn, ga);
                var g4 := Emit(g3, Label(l));
                && LowerStmt(s, g) == g4
                && Inside(g3, f) && Grows(g1, ga) && Grows(g1, g4) && Grows(g3, g4)
                && ga.env == g1.env && g4.env == g3.env && g1.vregs == ga.vregs
                && |f.code| >= |g4.code| == |g3.code| + 1 && |ga.code| == |g1.code| + 1
                && f.code[|g1.code|] == Jz(v, l) && f.code[|g3.code|] == Label(l))
  {
    hide UniqueLabels, LowerExpr;
  }

  /** When the condition is zero the loop is left by the jump to its end. */
  lemma {:induction false} LoopLeft(q: IrProgram, f: IrFunc, s: Stmt, g: Gen, env: Env, home: seq<nat>, c: Conf,
                                    c1: Conf, tr: Trace, n: nat, m: nat)
    returns (c2: Conf)
    requires Inside(LowerStmt(s, g), f) && s.While? && TypedStmt(s, env.vars) && g.vregs > 0
    requires var (g1, v) := LowerExpr(s.cond, Emit(g.(labels := g.labels + 2), Label(g.labels)));
             Leads(q, f, c, c1, n, m) && At(g1, env, home, c1, tr) && v > 0 && v in c1.vregs && c1.vregs[v] == 0
    ensures Leads(q, f, c, c2, n + 2, m) && At(LowerStmt(s, g), env, home, c2, tr)
  {
    hide Leads, At, UniqueLabels, LowerExpr, TypedExpr, LowerStmt;
    WhileCode(s, g, f);
    var l := g.labels;
    var (g1, v) := LowerExpr(s.cond, Emit(g.(labels := l + 2), Label(l)));
    EnvKept(s.body, env.vars, Emit(g1, Jz(v, l + 1)));
    c2 := TakeBranch(q, f, g1, LowerStmt(s, g), v, l + 1, env, home, c, c1, tr, n, m);
  }

  lemma {:induction false} WhileCorrect(p: Program, q: IrProgram, f: IrFunc, s: Stmt, g: Gen, env: Env,
                                        home: seq<nat>, c: Conf, tr: Trace, fuel: nat)
    returns (c1: Conf, home1: seq<nat>, n: nat, m: nat)
    requires Compiled(p, q) && Inside(LowerStmt(s, g), f) && s.While?
    requires TypedStmt(s, env.vars) && At(g, env, home, c, tr) && g.vregs > 0
    requires GoodFlow(Exec(p, s, env, tr, fuel))
    ensures ReproducesFlow(q, f, LowerStmt(s, g), c, home, Exec(p, s, env, tr, fuel), c1, home1, n, m, fuel)
    decreases fuel, s, 1
  {
    hide Compiled, Leads, Ends, At, UniqueLabels, Preserved, LowerExpr, Eval, TypedExpr, Exec, LowerStmt, TypedStmt;
    WhileValue(p, s, env, tr, fuel);
    WhileCode(s, g, f);
    var l := g.labels;
    var g0 := Emit(g.(labels := l + 2), Label(l));
    var (g1, v) := LowerExpr(s.cond, g0);
    AtPc(g, env, home, c, tr);
    var c0 := c.(pc := |g0.code|);
    Passes(q, f, c, |g0.code|);
    Moved(g, g0, env, home, c, c0, tr);
    c1, n, m := ExprCorrect(p, q, f, s.cond, g0, env, home, c0, tr, fuel);
    home1 := home;
    var o := Eval(p, s.cond, env, tr, fuel);
    if !o.Returned? {
      LeadsEnds(q, f, c, c0, 1, 0, o, m, fuel, fuel);
      m := m + 1;
    } else {
      LeadsAgain(q, f, c, c0, c1, 1, 0, n, m);
      StillAt(g0, g1, env, home, c0, c1, tr, o.trace);
      if o.value == 0 {
        c1 := LoopLeft(q, f, s, g, env, home, c, c1, o.trace, 1 + n, m);
        n := 1 + n + 2;
      } else {
        c1, home1, n, m := IterationCorrect(p, q, f, s, g, env, home, c, c1, tr, o.trace, 1 + n, m, fuel);
      }
    }
  }

  /** One iteration of a loop, from its branch instruction, and then the loop again. */
  lemma {:induction false} IterationCorrect(p: Program, q: IrProgram, f: IrFunc, s: Stmt, g: Gen, env: Env,
                                            home: seq<nat>, c: Conf, c1: Conf, tr: Trace, tr1: Trace, n1: nat, m1: nat,
                                              fuel: nat)
    returns (c5: Conf, home1: seq<nat>, n: nat, m: nat)
    requires Compiled(p, q) && Inside(LowerStmt(s, g), f) && s.While?
    requires TypedStmt(s, env.vars) && At(g, env, home, c, tr) && g.vregs > 0 && Leads(q, f, c, c1, n1, m1)
    requires var (g1, v) := LowerExpr(s.cond, Emit(g.(labels := g.labels + 2), Label(g.labels)));
             v in c1.vregs && v != 0 && c1.vregs[v] != 0 && At(g1, env, home, c1, tr1)
    requires Eval(p, s.cond, env, tr, fuel).Returned? && Eval(p, s.cond, env, tr, fuel).value != 0
    requires tr1 == Eval(p, s.cond, env, tr, fuel).trace
    requires GoodFlow(Exec(p, s, env, tr, fuel))
    ensures ReproducesFlow(q, f, LowerStmt(s, g), c, home, Exec(p, s, env, tr, fuel), c5, home1, n, m, fuel)
    decreases fuel, s, 0
  {
    hide Compiled, Leads, Ends, At, UniqueLabels, Preserved, LowerExpr, Eval, TypedExpr, Exec, LowerStmt, TypedStmt;
    WhileValue(p, s, env, tr, fuel);
    WhileCode(s, g, f);
    var l := g.labels;
    var (g1, v) := LowerExpr(s.cond, Emit(g.(labels := l + 2), Label(l)));
    var ga := Emit(g1, Jz(v, l + 1));
    var c2 := FallThrough(q, f, g1, ga, v, l + 1, env, home, c, c1, tr1, n1, m1);
    var c3, home3, n3, m3 := StmtCorrect(p, q, f, s.body, ga, env, home, c2, tr1, fuel);
    c5, home1 := c3, home3;
    match Exec(p, s.body, env, tr1, fuel)
    case Done(o1) =>
      LeadsEnds(q, f, c, c2, n1 + 1, m1, o1, m3, fuel, fuel);
      n, m := 0, m1 + m3 + n1 + 1;
    case Normal(env1, tr2) =>
      LeadsAgain(q, f, c, c2, c3, n1 + 1, m1, n3, m3);
      ExecScope(p, s.body, env, tr1, fuel);
      assert env.vars + [] == env.vars;
      var c4 := ToHead(q, f, s, g, env, env1, home, home3, c, c3, tr, tr2);
      LeadsAgain(q, f, c, c3, c4, n1 + 1 + n3, m1 + m3, 1, 0);
      if fuel == 0 {
        NoFuel(q, f, c);
        n, m := 0, 0;
        return;
      }
      c5, home1, n, m := StmtCorrect(p, q, f, s, g, env1, home, c4, tr2, fuel - 1);
      var n0, m0 := n1 + 1 + n3 + 1, m1 + m3;
      match Exec(p, s, env1, tr2, fuel - 1) {
        case Normal(_, _) =>
          LeadsAgain(q, f, c, c4, c5, n0, m0, n, m);
          n, m := n0 + n, m0 + m;
        case Done(o1) =>
          LeadsEnds(q, f, c, c4, n0, m0, o1, m, fuel - 1, fuel);
          m := m0 + m + n0;
      }
  }

  /** The jump from the end of a loop body to its head. */
  lemma {:induction false} ToHead(q: IrProgram, f: IrFunc, s: Stmt, g: Gen, env: Env, env1: Env, home: seq<nat>,
                                  home1: seq<nat>, c: Conf, c3: Conf, tr: Trace, tr1: Trace) returns (c4: Conf)
    requires s.While? && Inside(LowerStmt(s, g), f) && g.vregs > 0 && At(g, env, home, c, tr)
    requires var (g1, v) := LowerExpr(s.cond, Emit(g.(labels := g.labels + 2), Label(g.labels)));
             v != 0 && At(LowerStmt(s.body, Emit(g1, Jz(v, g.labels + 1))), env1, home1, c3, tr1)
    requires home <= home1 && env1.vars == env.vars + []
    ensures Leads(q, f, c3, c4, 1, 0) && At(g, env1, home, c4, tr1)
  {
    hide Leads, At, UniqueLabels, LowerExpr, LowerStmt;
    WhileCode(s, g, f);
    var (g1, v) := LowerExpr(s.cond, Emit(g.(labels := g.labels + 2), Label(g.labels)));
    var g2 := LowerStmt(s.body, Emit(g1, Jz(v, g.labels + 1)));
    AtPc(g2, env1, home1, c3, tr1);
    LabelFound(f, |g.code|);
    c4 := c3.(pc := |g.code|);
    Passes(q, f, c3, |g.code|);
    BackAgain(g, g2, env, env1, home, home1, c, c3, tr, tr1);
  }

  /** At the head of a loop again, after an iteration. */
  lemma {:induction false} BackAgain(g: Gen, g2: Gen, env: Env, env1: Env, home: seq<nat>, home1: seq<nat>, c: Conf,
                                     c1: Conf, tr: Trace, tr1: Trace)
    requires At(g, env, home, c, tr) && At(g2, env1, home1, c1, tr1)
    requires home <= home1 && env1.vars == env.vars + []
    ensures At(g, env1, home, c1.(pc := |g.code|), tr1)
  {
    assert env1.vars == env.vars && home1 == home;
  }

  lemma {:induction false} WhileValue(p: Program, s: Stmt, env: Env, tr: Trace, fuel: nat)
    requires s.While? && TypedStmt(s, env.vars)
    ensures TypedExpr(s.cond, env.vars) && TypedStmt(s.body, env.vars) && !s.body.VarDecl?
    ensures var o := Eval(p, s.cond, env, tr, fuel);
            if !o.Returned? then Exec(p, s, env, tr, fuel) == Done(o)
            else if o.value == 0 then Exec(p, s, env, tr, fuel) == Normal(env, o.trace)
            else var d := Exec(p, s.body, env, o.trace, fuel);
                 if d.Done? then Exec(p, s, env, tr, fuel) == d
                 else Exec(p, s, env, tr, fuel) == if fuel == 0 then Done(OutOfFuel)
                   else Exec(p, s, d.env, d.trace, fuel - 1)
  {
    hide Eval, TypedExpr;
  }

  lemma {:induction false} WhileCode(s: Stmt, g: Gen, f: IrFunc)
    requires s.While? && Inside(LowerStmt(s, g), f) && g.vregs > 0
    ensures var l := g.labels;
            var g0 := Emit(g.(labels := l + 2), Label(l));
            var (g1, v) := LowerExpr(s.cond, g0);
            && 0 < g0.vregs && Inside(g1, f) && Grows(g, g0) && g0.env == g.env
            && |g0.code| == |g.code| + 1 <= |f.code| && f.code[|g.code|] == Label(l)
            && (v > 0 ==>
                var ga := Emit(g1, Jz(v, l + 1));
                var g2 := LowerStmt(s.body, ga);
                var gb := Emit(g2, Jmp(l));
                var g3 := Emit(gb, Label(l + 1));
                && LowerStmt(s, g) == g3
                && Inside(g2, f) && Grows(g1, ga) && Grows(g1, g3) && ga.vregs > 0
                && ga.env == g1.env && g3.env == g2.env
                && |f.code| >= |g3.code| == |gb.code| + 1 == |g2.code| + 2 && |ga.code| == |g1.code| + 1
                && f.code[|g1.code|] == Jz(v, l + 1) && f.code[|g2.code|] == Jmp(l)
                && f.code[|gb.code|] == Label(l + 1))
  {
    hide UniqueLabels, LowerExpr;
  }

  lemma {:induction false} BlockCorrect(p: Program, q: IrProgram, f: IrFunc, s: Stmt, g: Gen, env: Env,
                                        home: seq<nat>, c: Conf, tr: Trace, fuel: nat)
    returns (c1: Conf, home1: seq<nat>, n: nat, m: nat)
    requires Compiled(p, q) && Inside(LowerStmt(s, g), f) && s.Block?
    requires TypedStmt(s, env.vars) && At(g, env, home, c, tr) && g.vregs > 0
    requires GoodFlow(Exec(p, s, env, tr, fuel))
    ensures ReproducesFlow(q, f, LowerStmt(s, g), c, home, Exec(p, s, env, tr, fuel), c1, home1, n, m, fuel)
    decreases fuel, s, 1
  {
    hide Compiled, Leads, Ends, UniqueLabels, Placed, Held, Eval, LowerExpr, LowerStmts, ExecAll, TypedStmts;
    var gs := LowerStmts(s.stmts, g);
    c1, home1, n, m := StmtsCorrect(p, q, f, s.stmts, g, env, home, c, tr, fuel);
    match ExecAll(p, s.stmts, env, tr, fuel)
    case Normal(env1, tr1) =>
      LeaveScope(g, gs, env, env1, home, home1, c, c1, tr, tr1);
      home1 := home;
    case Done(_) =>
  }

  /** Leaving a block: outer variables keep their homes and their values. */
  lemma {:induction false} LeaveScope(g: Gen, gs: Gen, env: Env, env1: Env, home: seq<nat>, home1: seq<nat>, c: Conf,
                                      c1: Conf, tr: Trace, tr1: Trace)
    requires At(g, env, home, c, tr) && At(gs, env1, home1, c1, tr1)
    requires Grows(g, gs) && home <= home1 && env.vars <= env1.vars
    ensures At(gs.(env := g.env), Pop(env1, |env.vars|), home, c1, tr1)
  {
    assert env1.vars[..|env.vars|] == env.vars;
    forall i | 0 <= i < |home| ensures HeldIn(c1, env.vars[i], home[i], env1.values[i]) {
      assert HeldIn(c1, env1.vars[i], home1[i], env1.values[i]);
    }
  }

  lemma {:induction false} StmtsCorrect(p: Program, q: IrProgram, f: IrFunc, ss: seq<Stmt>, g: Gen, env: Env,
                                        home: seq<nat>, c: Conf, tr: Trace, fuel: nat)
    returns (c1: Conf, home1: seq<nat>, n: nat, m: nat)
    requires Compiled(p, q) && Inside(LowerStmts(ss, g), f)
    requires TypedStmts(ss, env.vars) && At(g, env, home, c, tr) && g.vregs > 0
    requires GoodFlow(ExecAll(p, ss, env, tr, fuel))
    ensures ReproducesFlow(q, f, LowerStmts(ss, g), c, home, ExecAll(p, ss, env, tr, fuel), c1, home1, n, m, fuel)
    decreases fuel, ss, 0
  {
    hide Compiled, Leads, Ends, UniqueLabels, Placed, Held, At, Exec, LowerStmt, TypedStmt;
    if ss == [] {
      c1, home1, n, m := c, home, 0, 0;
      StayPut(q, f, g, env, home, c, tr);
    } else {
      var g1 := LowerStmt(ss[0], g);
      InsideEarlier(g1, LowerStmts(ss, g), f);
      c1, home1, n, m := StmtCorrect(p, q, f, ss[0], g, env, home, c, tr, fuel);
      match Exec(p, ss[0], env, tr, fuel)
      case Normal(env1, tr1) =>
        ExecScope(p, ss[0], env, tr, fuel);
        var c2, home2, n2, m2 := StmtsCorrect(p, q, f, ss[1..], g1, env1, home1, c1, tr1, fuel);
        match ExecAll(p, ss[1..], env1, tr1, fuel) {
          case Normal(_, _) =>
            LeadsAgain(q, f, c, c1, c2, n, m, n2, m2);
            c1, home1, n, m := c2, home2, n + n2, m + m2;
          case Done(o) =>
            LeadsEnds(q, f, c, c1, n, m, o, m2, fuel, fuel);
            m := m + m2 + n;
        }
      case Done(_) =>
    }
  }

  lemma {:induction false} StayPut(q: IrProgram, f: IrFunc, g: Gen, env: Env, home: seq<nat>, c: Conf, tr: Trace)
    requires At(g, env, home, c, tr)
    ensures forall fuel: nat :: ReproducesFlow(q, f, g, c, home, Normal(env, tr), c, home, 0, 0, fuel)
  {
  }

  /** Parameter `i` is placed in register `i + 1`. */
  ghost predicate ParamPlacement(g: Gen, vars: seq<Var>, home: seq<nat>) {
    Placed(g, vars, home) && g.vregs == |vars| + 1
    && forall i :: 0 <= i < |home| ==> home[i] == i + 1 && !vars[i].isLocal
  }

  lemma {:induction false} PlaceParam(g: Gen, vars: seq<Var>, home: seq<nat>, x: Param)
    requires ParamPlacement(g, vars, home) && NewVreg(g).1 == g.vregs
    ensures var g1 := NewVreg(g).0.(env := g.env[x.name := Symbol(g.vregs, false)]);
            ParamPlacement(g1, vars + [Var(x.name, x.ty, false)], home + [g.vregs])
  {
    var v := Var(x.name, x.ty, false);
    PlacedMore(g, NewVreg(g).0.(env := g.env[x.name := Symbol(g.vregs, false)]), vars, home, v);
  }

  lemma {:induction false} PlacedMore(g: Gen, g1: Gen, vars: seq<Var>, home: seq<nat>, v: Var)
    requires ParamPlacement(g, vars, home) && !v.isLocal && g1.vregs == g.vregs + 1 && g1.slots == g.slots
    requires g1.env == g.env[v.name := Symbol(g.vregs, false)]
    ensures ParamPlacement(g1, vars + [v], home + [g.vregs])
  {
    hide Find;
    forall y ensures Find(vars + [v], y) == if v.name == y then |vars| else Find(vars, y) {
      FindPush(vars, v, y);
    }
  }

  lemma {:induction false} ParamsPlaced(ps: seq<Param>, g: Gen, vars: seq<Var>, home: seq<nat>)
    returns (home1: seq<nat>)
    requires ParamPlacement(g, vars, home) && LowerParams(ps, g).errors == g.errors
    ensures ParamPlacement(LowerParams(ps, g), vars + ParamVars(ps), home1)
    decreases |ps|
  {
    hide ParamPlacement;
    home1 := home;
    if ps == [] {
      assert vars + ParamVars(ps) == vars;
    } else {
      var (g1, d) := NewVreg(g);
      var g2 := g1.(env := g1.env[ps[0].name := Symbol(d, false)]);
      assert d != 0 ==> LowerParams(ps[1..], g2).errors >= g2.errors;
      PlaceParam(g, vars, home, ps[0]);
      var v := Var(ps[0].name, ps[0].ty, false);
      home1 := ParamsPlaced(ps[1..], g2, vars + [v], home + [d]);
      assert vars + ParamVars(ps) == vars + [v] + ParamVars(ps[1..]);
    }
  }

  lemma {:induction false} FuncEnds(q: IrProgram, fn: string, vs: seq<Word>, tr: Trace, o: Outcome, m: nat, fuel: nat)
    requires fn in q && q[fn].params == |vs| && Ends(q, q[fn], Initial(vs, tr), o, m, fuel)
    ensures CallEnds(q, fn, vs, tr, o, m, fuel)
  {
    hide Initial;
    if !o.OutOfFuel? {
      forall k: nat | k >= m ensures RunFunc(q, fn, vs, tr, k) == o {
        assert Run(q, q[fn], Initial(vs, tr), k) == o;
      }
    }
  }

  /** Calling the IR of a function has the outcome of calling the function. */
  lemma {:induction false} InvokeCorrect(p: Program, q: IrProgram, fn: string, vs: seq<Word>, tr: Trace, fuel: nat)
    returns (m: nat)
    requires Compiled(p, q) && !Invoke(p, fn, vs, tr, fuel).Stuck?
    ensures CallEnds(q, fn, vs, tr, Invoke(p, fn, vs, tr, fuel), m, fuel)
    decreases fuel
  {
    hide UniqueLabels, Leads, CallEnds, LowerStmts, ExecAll, LowerParams, TypedStmts, Fits, ArgsLeadToCalls, Increasing;
    var fd, f := p[fn], q[fn];
    LoweredIsWellFormed(fd);
    var gp := LowerParams(fd.params, Start);
    var g := LowerStmts(fd.body, gp);
    ParamsShape(fd.params, Start);
    var env: Env := Bindings(ParamVars(fd.params), vs);
    var home := ParamHomes(fd.params, gp, vs, tr);
    var c := Initial(vs, tr);
    var c1, home1, n, m1 := StmtsCorrect(p, q, f, fd.body, gp, env, home, c, tr, fuel);
    m := m1;
    match ExecAll(p, fd.body, env, tr, fuel)
    case Normal(env1, tr1) =>
      var o := FellOff(tr1);
      AtPc(g, env1, home1, c1, tr1);
      assert Ends(q, f, c1, o, 1, fuel) by {
        assert forall k: nat :: k >= 1 ==> Run(q, f, c1, k) == FellOff(c1.trace);
      }
      LeadsEnds(q, f, c, c1, n, m1, o, 1, fuel, fuel);
      m := m1 + 1 + n;
      FuncEnds(q, fn, vs, tr, o, m, fuel);
    case Done(o) => FuncEnds(q, fn, vs, tr, o, m, fuel);
  }

  /** A function starts with its parameters in the first registers. */
  lemma {:induction false} ParamHomes(ps: seq<Param>, gp: Gen, vs: seq<Word>, tr: Trace) returns (home: seq<nat>)
    requires gp == LowerParams(ps, Start) && gp.errors == 0 && |vs| == |ps|
    ensures At(gp, Bindings(ParamVars(ps), vs), home, Initial(vs, tr), tr)
  {
    hide LowerParams, ParamVars, ParamVregs, ParamPlacement, Placed;
    NoParamsPlaced();
    home := ParamsPlaced(ps, Start, [], []);
    assert [] + ParamVars(ps) == ParamVars(ps);
    ParamsInPlace(gp, ParamVars(ps), home, vs, tr);
  }

  lemma {:induction false} NoParamsPlaced()
    ensures ParamPlacement(Start, [], [])
  {
  }

  lemma {:induction false} ParamsInPlace(g: Gen, vars: seq<Var>, home: seq<nat>, vs: seq<Word>, tr: Trace)
    requires ParamPlacement(g, vars, home) && |vars| == |vs| && g.code == []
    ensures At(g, Bindings(vars, vs), home, Initial(vs, tr), tr)
  {
    hide ParamVregs, Find;
    var c := Initial(vs, tr);
    forall i | 0 <= i < |home| ensures HeldIn(c, vars[i], home[i], vs[i]) {
      assert ParamVregs(vs)[i + 1] == vs[i];
    }
  }
}
