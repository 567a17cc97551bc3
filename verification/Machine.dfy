/**
  An x86-64 processor running a byte image: sixteen registers, the three flags that signed
  conditions read, and a stack of 8-byte cells addressed by their base. Addresses are
  unbounded integers. CALL insists on the 16-byte stack alignment of the System V AMD64 ABI
  (section 3.2.2); IDIV faults as the hardware does.
 */
module Machine {
  import opened Words
  import opened X86

  type Regs = r: seq<int> | |r| == 16 witness seq(16, _ => 0)

  type Memory = map<int, int>

  datatype Cpu = Cpu(pc: int, regs: Regs, flags: Flags, mem: Memory)

  datatype State = Running(cpu: Cpu) | Fault | Wild

  function Read(mem: Memory, a: int): int {
    if a in mem then mem[a] else 0
  }

  function SetReg(m: Cpu, r: Reg, w: int): Cpu {
    m.(regs := m.regs[r := w])
  }

  function Local(m: Cpu, disp: int): int {
    m.regs[RBP] + disp
  }

  function ResultFlags(r: Word, exact: int): Flags {
    Flags(r == 0, r < 0, r != exact)
  }

  predicate Holds(cc: Cond, f: Flags) {
    match cc
    case CondE => f.zf
    case CondNE => !f.zf
    case CondL => f.sf != f.of
    case CondGE => f.sf == f.of
    case CondLE => f.zf || f.sf != f.of
    case CondG => !f.zf && f.sf == f.of
  }

  function AluEffect(op: AluOp, d: Reg, s: Reg, m: Cpu): Cpu {
    var a, b := m.regs[d], m.regs[s];
    match op
    case AluAdd => SetReg(m, d, Wrap(a + b)).(flags := ResultFlags(Wrap(a + b), a + b))
    case AluSub => SetReg(m, d, Wrap(a - b)).(flags := SubFlags(a, b))
    case AluOr => var r := Bitwise(BitOr, a, b); SetReg(m, d, r).(flags := ResultFlags(r, r))
    case AluAnd => var r := Bitwise(BitAnd, a, b); SetReg(m, d, r).(flags := ResultFlags(r, r))
    case AluXor => var r := Bitwise(BitXor, a, b); SetReg(m, d, r).(flags := ResultFlags(r, r))
    case AluCmp => m.(flags := SubFlags(a, b))
    case AluTest => var r := Bitwise(BitAnd, a, b); m.(flags := ResultFlags(r, r))
  }

  predicate IsControl(i: Inst) {
    i.RetNear? || i.CallReg? || i.JmpRel? || i.JccRel?
  }

  /** What an instruction other than a jump, call or return does, but for advancing `pc`. */
  function Effect(i: Inst, m: Cpu): State
    requires !IsControl(i)
  {
    match i
    case MovReg(d, s) => Running(SetReg(m, d, m.regs[s]))
    case StoreLocal(s, disp) => Running(m.(mem := m.mem[Local(m, disp) := m.regs[s]]))
    case LoadLocal(d, disp) => Running(SetReg(m, d, Read(m.mem, Local(m, disp))))
    case StoreLow8(s, disp) =>
      var a := Local(m, disp);
      Running(m.(mem := m.mem[a := StoreCell(Read(m.mem, a), m.regs[s], 1)]))
    case StoreLow32(s, disp) =>
      var a := Local(m, disp);
      Running(m.(mem := m.mem[a := StoreCell(Read(m.mem, a), m.regs[s], 4)]))
    case LoadSx8(d, disp) => Running(SetReg(m, d, LoadCell(Read(m.mem, Local(m, disp)), 1)))
    case LoadSx32(d, disp) => Running(SetReg(m, d, LoadCell(Read(m.mem, Local(m, disp)), 4)))
    case MovImm(d, w) => Running(SetReg(m, d, w))
    case Alu(op, d, s) => Running(AluEffect(op, d, s, m))
    case Imul(d, s) => Running(SetReg(m, d, Wrap(m.regs[d] * m.regs[s])))
    case SetCc(cc, d) =>
      var r := m.regs[d];
      Running(SetReg(m, d, r - r % 0x100 + FromBool(Holds(cc, m.flags))))
    case Movzx(d, s) => Running(SetReg(m, d, m.regs[s] % 0x100))
    case Push(r) =>
      var sp := m.regs[RSP] - 8;
      Running(SetReg(m, RSP, sp).(mem := m.mem[sp := m.regs[r]]))
    case Pop(r) =>
      var sp := m.regs[RSP];
      Running(SetReg(SetReg(m, RSP, sp + 8), r, Read(m.mem, sp)))
    case AddImm(d, n) => Running(SetReg(m, d, m.regs[d] + n))
    case SubImm(d, n) => Running(SetReg(m, d, m.regs[d] - n))
    case CmpImm(d, n) => Running(m.(flags := SubFlags(m.regs[d], n)))
    case Cqo => Running(SetReg(m, RDX, if m.regs[RAX] < 0 then -1 else 0))
    case Idiv(s) =>
      var dividend := m.regs[RDX] * TWO64 + Unsigned(m.regs[RAX]);
      var divisor := m.regs[s];
      if divisor == 0 || !InRange(TruncDiv(dividend, divisor)) then Fault
      else
        var q := TruncDiv(dividend, divisor);
        Running(SetReg(SetReg(m, RAX, q), RDX, dividend - q * divisor))
    case Neg(d) => Running(SetReg(m, d, Wrap(0 - m.regs[d])).(flags := SubFlags(0, m.regs[d])))
    case NotReg(d) => Running(SetReg(m, d, Complement(m.regs[d])))
    case Shift(op, d) =>
      var a, cl := m.regs[d], m.regs[RCX] % 0x100;
      Running(SetReg(m, d, match op
                           case Shl => ShiftLeft(a, cl)
                           case Shr => ShiftRightUnsigned(a, cl)
                           case Sar => ShiftRightSigned(a, cl)))
    case Lea(d, disp) => Running(SetReg(m, d, Local(m, disp)))
  }

  /** One instruction, `next` being the address after it. */
  function Execute(i: Inst, m: Cpu, next: int): State {
    match i
    case RetNear =>
      var sp := m.regs[RSP];
      Running(SetReg(m, RSP, sp + 8).(pc := Read(m.mem, sp)))
    case CallReg(r) =>
      if m.regs[RSP] % 16 != 0 then Wild
      else
        var sp := m.regs[RSP] - 8;
        Running(SetReg(m, RSP, sp).(pc := m.regs[r], mem := m.mem[sp := next]))
    case JmpRel(rel) => Running(m.(pc := next + rel))
    case JccRel(cc, rel) => Running(m.(pc := if Holds(cc, m.flags) then next + rel else next))
    case _ => Effect(i, m.(pc := next))
  }

  function Step(image: seq<Byte>, m: Cpu): State {
    if !(0 <= m.pc <= |image|) then Wild
    else
      match Decode(image[m.pc..])
      case None => Wild
      case Some((i, n)) => Execute(i, m, m.pc + n)
  }

  function Steps(image: seq<Byte>, s: State, n: nat): State
    decreases n
  {
    if n == 0 || !s.Running? then s else Steps(image, Step(image, s.cpu), n - 1)
  }

  lemma {:induction false} StepsAdd(image: seq<Byte>, s: State, m: nat, n: nat)
    ensures Steps(image, s, m + n) == Steps(image, Steps(image, s, m), n)
    decreases m
  {
    hide Step;
    if m > 0 && s.Running? {
      StepsAdd(image, Step(image, s.cpu), m - 1, n);
    }
  }

  // --- Straight-line code ------------------------------------------------------------

  predicate CodeAt(image: seq<Byte>, at: int, bs: seq<Byte>) {
    0 <= at && at + |bs| <= |image| && image[at..at + |bs|] == bs
  }

  predicate AllData(xs: seq<Inst>) {
    forall i :: 0 <= i < |xs| ==> !IsControl(xs[i])
  }

  function EffectAll(xs: seq<Inst>, m: Cpu): State
    requires AllData(xs)
    decreases |xs|
  {
    if xs == [] then Running(m)
    else
      match Effect(xs[0], m)
      case Running(m1) => EffectAll(xs[1..], m1)
      case s => s
  }

  lemma {:induction false} EffectAppend(xs: seq<Inst>, ys: seq<Inst>, m: Cpu)
    requires AllData(xs) && AllData(ys)
    ensures AllData(xs + ys)
    ensures EffectAll(xs + ys, m) == match EffectAll(xs, m) case Running(m1) => EffectAll(ys, m1) case s => s
    decreases |xs|
  {
    hide Effect;
    if xs == [] {
      assert xs + ys == ys;
    } else {
      assert (xs + ys)[1..] == xs[1..] + ys;
      match Effect(xs[0], m)
      case Running(m1) => EffectAppend(xs[1..], ys, m1);
      case _ => EffectAppend(xs[1..], ys, m);
    }
  }

  lemma {:induction false} EffectOne(i: Inst, m: Cpu)
    requires !IsControl(i)
    ensures AllData([i]) && EffectAll([i], m) == Effect(i, m)
  {
    hide Effect;
    match Effect(i, m)
    case Running(m1) => assert EffectAll([i][1..], m1) == Running(m1);
    case _ =>
  }

  function AtPc(s: State, pc: int): State {
    match s
    case Running(m) => Running(m.(pc := pc))
    case _ => s
  }

  lemma {:induction false} EffectIgnoresPc(i: Inst, m: Cpu, pc: int)
    requires !IsControl(i)
    ensures Effect(i, m.(pc := pc)) == AtPc(Effect(i, m), pc)
    ensures Effect(i, m).Running? ==> Effect(i, m).cpu.pc == m.pc
  {
    hide Wrap, Wrap32, Wrap8, Bitwise, StoreCell, LoadCell, ShiftLeft, ShiftRightSigned, ShiftRightUnsigned,
      Complement, SubFlags;
  }

  lemma {:induction false} EffectAllIgnoresPc(xs: seq<Inst>, m: Cpu, pc: int)
    requires AllData(xs)
    ensures EffectAll(xs, m.(pc := pc)) == AtPc(EffectAll(xs, m), pc)
    decreases |xs|
  {
    hide Effect;
    if xs != [] {
      EffectIgnoresPc(xs[0], m, pc);
      match Effect(xs[0], m)
      case Running(m1) => EffectAllIgnoresPc(xs[1..], m1, pc);
      case _ =>
    }
  }

  lemma {:induction false} StepDecoded(image: seq<Byte>, m: Cpu, i: Inst)
    requires CodeAt(image, m.pc, Encode(i))
    ensures Step(image, m) == Execute(i, m, m.pc + |Encode(i)|)
  {
    hide Decode, Execute, Encode;
    var bs := Encode(i);
    var rest := image[m.pc + |bs|..];
    assert image[m.pc..] == bs + rest;
    DecodeEncode(i, rest);
  }

  /** Bytes of a sequence in the image: its head, and its tail behind it. */
  lemma {:induction false} CodeSplit(image: seq<Byte>, at: int, xs: seq<Byte>, ys: seq<Byte>)
    requires CodeAt(image, at, xs + ys)
    ensures CodeAt(image, at, xs) && CodeAt(image, at + |xs|, ys)
  {
    assert image[at..at + |xs|] == (xs + ys)[..|xs|];
    assert image[at + |xs|..at + |xs| + |ys|] == (xs + ys)[|xs|..];
  }

  /** The processor runs straight-line code as `EffectAll` says. */
  lemma {:induction false} RunStraight(image: seq<Byte>, xs: seq<Inst>, m: Cpu)
    requires AllData(xs) && CodeAt(image, m.pc, EncodeAll(xs))
    ensures Steps(image, Running(m), |xs|) == AtPc(EffectAll(xs, m), m.pc + |EncodeAll(xs)|)
    decreases |xs|
  {
    hide Effect, Step, Encode, CodeAt;
    if xs != [] {
      var i := xs[0];
      CodeSplit(image, m.pc, Encode(i), EncodeAll(xs[1..]));
      StepDecoded(image, m, i);
      EffectIgnoresPc(i, m, m.pc + |Encode(i)|);
      match Effect(i, m)
      case Running(m1) =>
        var m2 := m1.(pc := m.pc + |Encode(i)|);
        RunStraight(image, xs[1..], m2);
        EffectAllIgnoresPc(xs[1..], m1, m2.pc);
      case _ =>
    }
  }
}
