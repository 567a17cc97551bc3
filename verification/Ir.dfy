/** The linear intermediate representation and its interpreter. */
module Ir {
  import opened Words
  import opened Ast
  import opened Source

  datatype AluOp =
    | IrAdd | IrSub | IrMul | IrDiv
    | IrEq | IrNeq | IrLt | IrLe | IrGt | IrGe
    | IrShl | IrSar | IrShr
    | IrAnd | IrOr | IrXor

  datatype UnOp = IrNeg | IrNot | IrBnot

  datatype Instr =
    | Bin(op: AluOp, dest: nat, src1: nat, src2: nat)
    | Un(uop: UnOp, dest: nat, src1: nat)
    | Mov(dest: nat, src1: nat)
    | Const(dest: nat, imm: Word)
    | Load(dest: nat, slot: nat, ty: DataType)
    | Store(slot: nat, src1: nat, ty: DataType)
    | Arg(src1: nat, index: nat)
    | CallFn(dest: nat, fn: string)
    | Ret(src1: nat)
    | Label(id: nat)
    | Jmp(id: nat)
    | Jz(src1: nat, id: nat)
    | Jnz(src1: nat, id: nat)

  /** `vregCount` counts the unused virtual register 0. Registers 1..params are the parameters. */
  datatype IrFunc = IrFunc(code: seq<Instr>, params: nat, vregCount: nat, stackCount: nat, labelCount: nat)

  type IrProgram = map<string, IrFunc>

  function AluMeaning(op: AluOp, a: Word, b: Word): Option<Word> {
    match op
    case IrAdd => Some(Wrap(a + b))
    case IrSub => Some(Wrap(a - b))
    case IrMul => Some(Wrap(a * b))
    case IrDiv => Divide(a, b)
    case IrEq => Some(FromBool(a == b))
    case IrNeq => Some(FromBool(a != b))
    case IrLt => Some(FromBool(a < b))
    case IrLe => Some(FromBool(a <= b))
    case IrGt => Some(FromBool(a > b))
    case IrGe => Some(FromBool(a >= b))
    case IrShl => Some(ShiftLeft(a, b))
    case IrSar => Some(ShiftRightSigned(a, b))
    case IrShr => Some(ShiftRightUnsigned(a, b))
    case IrAnd => Some(Bitwise(BitAnd, a, b))
    case IrOr => Some(Bitwise(BitOr, a, b))
    case IrXor => Some(Bitwise(BitXor, a, b))
  }

  function UnMeaning(op: UnOp, a: Word): Word {
    match op
    case IrNeg => Wrap(0 - a)
    case IrNot => FromBool(a == 0)
    case IrBnot => Complement(a)
  }

  /** A stack slot remembers the width it was last stored with. */
  datatype Slot = Slot(width: nat, value: Word)

  datatype Conf = Conf(pc: nat, vregs: map<nat, Word>, slots: map<nat, Slot>, args: seq<Word>, trace: Trace)

  datatype Transition = Go(c: Conf) | End(outcome: Outcome)

  /** The place of the first `LABEL id` at or after position `from`, or the end of the code. */
  function FindLabel(code: seq<Instr>, id: nat, from: nat): (i: nat)
    requires from <= |code|
    ensures from <= i <= |code|
    ensures i < |code| ==> code[i] == Label(id)
    ensures forall j :: from <= j < i ==> code[j] != Label(id)
    decreases |code| - from
  {
    if from == |code| || code[from] == Label(id) then from else FindLabel(code, id, from + 1)
  }

  function Jump(f: IrFunc, c: Conf, id: nat): Transition {
    var t := FindLabel(f.code, id, 0);
    if t == |f.code| then End(Stuck) else Go(c.(pc := t))
  }

  function Define(c: Conf, v: nat, w: Word): Transition {
    Go(c.(pc := c.pc + 1, vregs := c.vregs[v := w]))
  }

  /** One step of any instruction but a call. */
  function Next(f: IrFunc, c: Conf): Transition
    requires c.pc < |f.code| && !f.code[c.pc].CallFn?
  {
    match f.code[c.pc]
    case Bin(op, d, s1, s2) =>
      if s1 !in c.vregs || s2 !in c.vregs then End(Stuck)
      else
        (match AluMeaning(op, c.vregs[s1], c.vregs[s2])
         case Some(w) => Define(c, d, w)
         case None => End(Trapped(c.trace)))
    case Un(op, d, s) => if s !in c.vregs then End(Stuck) else Define(c, d, UnMeaning(op, c.vregs[s]))
    case Mov(d, s) => if s !in c.vregs then End(Stuck) else Define(c, d, c.vregs[s])
    case Const(d, w) => Define(c, d, w)
    case Load(d, k, ty) =>
      if k !in c.slots || c.slots[k].width != Width(ty) then End(Stuck)
      else Define(c, d, c.slots[k].value)
    case Store(k, s, ty) =>
      if s !in c.vregs then End(Stuck)
      else
        var kept := Slot(Width(ty), Narrow(c.vregs[s], Width(ty)));
        Go(c.(pc := c.pc + 1, slots := c.slots[k := kept]))
    case Arg(s, _) =>
      if s !in c.vregs then End(Stuck) else Go(c.(pc := c.pc + 1, args := c.args + [c.vregs[s]]))
    case Ret(s) => if s !in c.vregs then End(Stuck) else End(Returned(c.vregs[s], c.trace))
    case Label(_) => Go(c.(pc := c.pc + 1))
    case Jmp(l) => Jump(f, c, l)
    case Jz(s, l) =>
      if s !in c.vregs then End(Stuck)
      else if c.vregs[s] == 0 then Jump(f, c, l) else Go(c.(pc := c.pc + 1))
    case Jnz(s, l) =>
      if s !in c.vregs then End(Stuck)
      else if c.vregs[s] != 0 then Jump(f, c, l) else Go(c.(pc := c.pc + 1))
  }

  /** Parameter number `i` arrives in virtual register `i + 1`. */
  function ParamVregs(args: seq<Word>): (m: map<nat, Word>)
    ensures forall v :: v in m <==> 1 <= v <= |args|
    ensures forall v :: v in m ==> m[v] == args[v - 1]
  {
    if args == [] then map[] else ParamVregs(args[..|args| - 1])[|args| := args[|args| - 1]]
  }

  function Initial(args: seq<Word>, tr: Trace): Conf {
    Conf(0, ParamVregs(args), map[], [], tr)
  }

  /** The state a call leaves in the caller once the callee has returned. */
  function AfterCall(c: Conf, dest: nat, v: Word, tr: Trace): Conf {
    c.(pc := c.pc + 1, vregs := c.vregs[dest := v], args := [], trace := tr)
  }

  function Run(p: IrProgram, f: IrFunc, c: Conf, fuel: nat): Outcome
    decreases fuel, 0
  {
    if fuel == 0 then OutOfFuel
    else if c.pc >= |f.code| then FellOff(c.trace)
    else if f.code[c.pc].CallFn? then
      var call := f.code[c.pc];
      match RunFunc(p, call.fn, c.args, c.trace + [Event(call.fn, c.args)], fuel - 1)
      case Returned(v, tr) => Run(p, f, AfterCall(c, call.dest, v, tr), fuel - 1)
      case o => o
    else
      match Next(f, c)
      case Go(c1) => Run(p, f, c1, fuel - 1)
      case End(o) => o
  }

  function RunFunc(p: IrProgram, fn: string, args: seq<Word>, tr: Trace, fuel: nat): Outcome
    decreases fuel, 1
  {
    if fn !in p || p[fn].params != |args| then Stuck else Run(p, p[fn], Initial(args, tr), fuel)
  }

  // --- Fuel ----------------------------------------------------------------------

  /** More fuel does not change an outcome. */
  lemma {:induction false} RunMonotone(p: IrProgram, f: IrFunc, c: Conf, k: nat, m: nat)
    requires k <= m && Run(p, f, c, k) != OutOfFuel
    ensures Run(p, f, c, m) == Run(p, f, c, k)
    decreases k, 0
  {
    hide Next, RunFunc, AfterCall;
    if c.pc < |f.code| {
      if f.code[c.pc].CallFn? {
        var call := f.code[c.pc];
        var tr := c.trace + [Event(call.fn, c.args)];
        RunFuncMonotone(p, call.fn, c.args, tr, k - 1, m - 1);
        match RunFunc(p, call.fn, c.args, tr, k - 1)
        case Returned(v, tr1) => RunMonotone(p, f, AfterCall(c, call.dest, v, tr1), k - 1, m - 1);
        case _ =>
      } else {
        match Next(f, c)
        case Go(c1) => RunMonotone(p, f, c1, k - 1, m - 1);
        case End(_) =>
      }
    }
  }

  lemma {:induction false} RunFuncMonotone(p: IrProgram, fn: string, args: seq<Word>, tr: Trace, k: nat, m: nat)
    requires k <= m && RunFunc(p, fn, args, tr, k) != OutOfFuel
    ensures RunFunc(p, fn, args, tr, m) == RunFunc(p, fn, args, tr, k)
    decreases k, 1
  {
    if fn in p && p[fn].params == |args| {
      RunMonotone(p, p[fn], Initial(args, tr), k, m);
    }
  }

  /**
    With `n` units of fuel to spare, running on from `c` is running on from `c1`, as soon as
    there is enough fuel to get there; and a run that is unsettled from `c1` is so from `c`.
   */
  ghost predicate Leads(p: IrProgram, f: IrFunc, c: Conf, c1: Conf, n: nat, least: nat) {
    && (forall k: nat :: k >= least ==> Run(p, f, c, k + n) == Run(p, f, c1, k))
    && (forall k: nat :: Run(p, f, c1, k) == OutOfFuel ==> Run(p, f, c, k + n) == OutOfFuel)
  }

  /** Given enough fuel, the run from `c` ends in `o`; where `o` is no outcome, `fuel` is not enough. */
  ghost predicate Ends(p: IrProgram, f: IrFunc, c: Conf, o: Outcome, least: nat, fuel: nat) {
    if o.OutOfFuel? then Run(p, f, c, fuel) == OutOfFuel else forall k: nat :: k >= least ==> Run(p, f, c, k) == o
  }

  /** The same for a call of `fn`. */
  ghost predicate CallEnds(p: IrProgram, fn: string, args: seq<Word>, tr: Trace, o: Outcome, least: nat, fuel: nat) {
    if o.OutOfFuel? then RunFunc(p, fn, args, tr, fuel) == OutOfFuel
    else forall k: nat :: k >= least ==> RunFunc(p, fn, args, tr, k) == o
  }

  lemma {:induction false} LeadsAgain(p: IrProgram, f: IrFunc, c0: Conf, c1: Conf, c2: Conf, n: nat, a: nat, m: nat,
                                      b: nat)
    requires Leads(p, f, c0, c1, n, a) && Leads(p, f, c1, c2, m, b)
    ensures Leads(p, f, c0, c2, n + m, a + b)
  {
    forall k: nat | k >= a + b
      ensures Run(p, f, c0, k + (n + m)) == Run(p, f, c2, k)
    {
      assert Run(p, f, c0, (k + m) + n) == Run(p, f, c1, k + m);
    }
    forall k: nat | Run(p, f, c2, k) == OutOfFuel
      ensures Run(p, f, c0, k + (n + m)) == OutOfFuel
    {
      assert Run(p, f, c0, (k + m) + n) == OutOfFuel;
    }
  }

  /** The `n` steps to `c1` may be counted towards the fuel. */
  lemma {:induction false} LeadsEnds(p: IrProgram, f: IrFunc, c0: Conf, c1: Conf, n: nat, a: nat, o: Outcome, b: nat,
                                     fuel1: nat, fuel: nat)
    requires Leads(p, f, c0, c1, n, a) && Ends(p, f, c1, o, b, fuel1) && fuel <= fuel1 + n
    ensures Ends(p, f, c0, o, a + b + n, fuel)
  {
    if o.OutOfFuel? {
      assert Run(p, f, c0, fuel1 + n) == OutOfFuel;
      if Run(p, f, c0, fuel) != OutOfFuel {
        RunMonotone(p, f, c0, fuel, fuel1 + n);
      }
    } else {
      forall k: nat | k >= a + b + n
        ensures Run(p, f, c0, k) == o
      {
        assert Run(p, f, c0, (k - n) + n) == Run(p, f, c1, k - n);
      }
    }
  }
}
