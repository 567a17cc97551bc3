/** Each instruction template computes, in the processor, what its IR instruction means. */
module Templates {
  import opened Words
  import opened Ir
  import opened X86
  import opened Machine
  import opened Encoders

  /** The value kept at a location. */
  function ValueAt(m: Cpu, loc: Location): int {
    match loc
    case InReg(r) => m.regs[r]
    case OnStack(disp) => Read(m.mem, Local(m, disp))
  }

  function Put(m: Cpu, loc: Location, w: int): Cpu {
    match loc
    case InReg(r) => SetReg(m, r, w)
    case OnStack(disp) => m.(mem := m.mem[Local(m, disp) := w])
  }

  predicate Scratch(r: Reg) {
    r == RAX || r == RCX || r == RDX
  }

  /** `m1` differs from `m` in RAX, RCX, RDX and the flags at most. */
  ghost predicate OnlyScratch(m: Cpu, m1: Cpu) {
    m1.mem == m.mem && m1.pc == m.pc && forall r: Reg :: !Scratch(r) ==> m1.regs[r] == m.regs[r]
  }

  /** Locations that are handed out: never a scratch register. */
  predicate IsHome(loc: Location) {
    loc.InReg? ==> Allocatable(loc.reg)
  }

  lemma {:induction false} HomeUntouched(m: Cpu, m1: Cpu, loc: Location)
    requires OnlyScratch(m, m1) && IsHome(loc)
    ensures ValueAt(m1, loc) == ValueAt(m, loc)
  {
    assert m1.regs[RBP] == m.regs[RBP];
  }

  lemma {:induction false} LoadToEffect(d: Reg, loc: Location, m: Cpu)
    requires IsHome(loc) && Scratch(d)
    ensures AllData(LoadTo(d, loc)) && EffectAll(LoadTo(d, loc), m) == Running(SetReg(m, d, ValueAt(m, loc)))
    ensures OnlyScratch(m, SetReg(m, d, ValueAt(m, loc)))
  {
    match loc
    case InReg(r) => EffectOne(MovReg(d, r), m);
    case OnStack(disp) => EffectOne(LoadLocal(d, disp), m);
  }

  lemma {:induction false} StoreFromEffect(loc: Location, m: Cpu)
    requires IsHome(loc)
    ensures AllData(StoreFrom(loc, RAX)) && EffectAll(StoreFrom(loc, RAX), m) == Running(Put(m, loc, m.regs[RAX]))
  {
    match loc
    case InReg(r) => EffectOne(MovReg(r, RAX), m);
    case OnStack(disp) => EffectOne(StoreLocal(RAX, disp), m);
  }

  /** `xs` takes `m` to `m1` through straight-line code. */
  ghost predicate Takes(xs: seq<Inst>, m: Cpu, m1: Cpu) {
    AllData(xs) && EffectAll(xs, m) == Running(m1)
  }

  lemma {:induction false} TakesBoth(xs: seq<Inst>, ys: seq<Inst>, m: Cpu, m1: Cpu, m2: Cpu)
    requires Takes(xs, m, m1) && Takes(ys, m1, m2)
    ensures Takes(xs + ys, m, m2)
  {
    EffectAppend(xs, ys, m);
  }

  lemma {:induction false} TakesThenFaults(xs: seq<Inst>, ys: seq<Inst>, zs: seq<Inst>, m: Cpu, m1: Cpu)
    requires Takes(xs, m, m1) && AllData(ys) && AllData(zs) && EffectAll(ys, m1) == Fault
    ensures AllData(xs + ys + zs) && EffectAll(xs + ys + zs, m) == Fault
  {
    EffectAppend(xs, ys, m);
    EffectAppend(xs + ys, zs, m);
  }

  lemma {:induction false} ScratchTwice(m: Cpu, m1: Cpu, m2: Cpu)
    requires OnlyScratch(m, m1) && OnlyScratch(m1, m2)
    ensures OnlyScratch(m, m2)
  {
  }

  /** CMP, SETcc, MOVZX leave 1 or 0 in RAX. */
  lemma {:induction false} CompareEffect(cc: Cond, right: Reg, m: Cpu, a: Word, b: Word) returns (m1: Cpu)
    requires m.regs[RAX] == a && m.regs[right] == b
    ensures Takes([Alu(AluCmp, RAX, right), SetCc(cc, RAX), Movzx(RAX, RAX)], m, m1)
    ensures OnlyScratch(m, m1) && m1.regs[RAX] == FromBool(Holds(cc, SubFlags(a, b)))
  {
    hide SubFlags, Holds, Takes;
    var ma := m.(flags := SubFlags(a, b));
    SetCcMovzx(cc, ma);
    m1 := SetReg(ma, RAX, FromBool(Holds(cc, ma.flags)));
    TakesOne(Alu(AluCmp, RAX, right), m, ma);
    assert [Alu(AluCmp, RAX, right), SetCc(cc, RAX), Movzx(RAX, RAX)] ==
           [Alu(AluCmp, RAX, right)] + [SetCc(cc, RAX), Movzx(RAX, RAX)];
    TakesBoth([Alu(AluCmp, RAX, right)], [SetCc(cc, RAX), Movzx(RAX, RAX)], m, ma, m1);
  }

  lemma {:induction false} TakesOne(i: Inst, m: Cpu, m1: Cpu)
    requires !IsControl(i) && Effect(i, m) == Running(m1)
    ensures Takes([i], m, m1)
  {
    EffectOne(i, m);
  }

  lemma {:induction false} SetCcMovzx(cc: Cond, m: Cpu)
    ensures Takes([SetCc(cc, RAX), Movzx(RAX, RAX)], m, SetReg(m, RAX, FromBool(Holds(cc, m.flags))))
  {
    hide Holds, Takes;
    var r := m.regs[RAX];
    var bit := FromBool(Holds(cc, m.flags));
    var ma := SetReg(m, RAX, r - r % 0x100 + bit);
    TakesOne(SetCc(cc, RAX), m, ma);
    LowByte(r, bit);
    assert ma.regs[RAX := bit] == m.regs[RAX := bit];
    TakesOne(Movzx(RAX, RAX), ma, SetReg(m, RAX, bit));
    TakesBoth([SetCc(cc, RAX)], [Movzx(RAX, RAX)], m, ma, SetReg(m, RAX, bit));
    assert [SetCc(cc, RAX)] + [Movzx(RAX, RAX)] == [SetCc(cc, RAX), Movzx(RAX, RAX)];
  }

  lemma {:induction false} FlagsAnswer(op: Ir.AluOp, a: Word, b: Word)
    requires op in {IrEq, IrNeq, IrLt, IrLe, IrGt, IrGe}
    ensures AluMeaning(op, a, b) == Some(FromBool(Holds(CondOf(op), SubFlags(a, b))))
  {
    FlagsDecideOrder(a, b);
  }

  lemma {:induction false} DividendExact(a: Word)
    ensures (if a < 0 then -1 else 0) * TWO64 + Unsigned(a) == a
  {
  }

  lemma {:induction false} CountMasked(b: int)
    ensures b % 0x100 % 64 == b % 64
  {
  }

  /** The operation proper: RAX holds the left operand, `right` (or RCX, for a shift) the right one. */
  lemma {:induction false} OperateEffect(op: Ir.AluOp, right: Reg, m: Cpu, a: Word, b: Word) returns (m1: Cpu)
    requires m.regs[RAX] == a && m.regs[if IsShift(op) then RCX else right] == b
    requires op.IrDiv? ==> m.regs[RDX] == if a < 0 then -1 else 0
    ensures AllData(OperateCode(op, right))
    ensures match AluMeaning(op, a, b)
            case Some(w) => Takes(OperateCode(op, right), m, m1) && OnlyScratch(m, m1) && m1.regs[RAX] == w
            case None => EffectAll(OperateCode(op, right), m) == Fault
  {
    if op in {IrEq, IrNeq, IrLt, IrLe, IrGt, IrGe} {
      FlagsAnswer(op, a, b);
      m1 := CompareEffect(CondOf(op), right, m, a, b);
    } else {
      m1 := SimpleEffect(op, right, m, a, b);
    }
  }

  lemma {:induction false} SimpleEffect(op: Ir.AluOp, right: Reg, m: Cpu, a: Word, b: Word) returns (m1: Cpu)
    requires m.regs[RAX] == a && m.regs[if IsShift(op) then RCX else right] == b
    requires op.IrDiv? ==> m.regs[RDX] == if a < 0 then -1 else 0
    requires op !in {IrEq, IrNeq, IrLt, IrLe, IrGt, IrGe}
    ensures AllData(OperateCode(op, right))
    ensures match AluMeaning(op, a, b)
            case Some(w) => Takes(OperateCode(op, right), m, m1) && OnlyScratch(m, m1) && m1.regs[RAX] == w
            case None => EffectAll(OperateCode(op, right), m) == Fault
  {
    hide Wrap, Bitwise, TruncDiv, Pow2;
    DividendExact(a);
    CountMasked(b);
    var i := OperateCode(op, right)[0];
    assert OperateCode(op, right) == [i];
    EffectOne(i, m);
    match Effect(i, m)
    case Running(m2) => m1 := m2;
    case _ => m1 := m;
  }

  lemma {:induction false} FetchRight(op: Ir.AluOp, right: Location, m: Cpu) returns (m1: Cpu)
    requires IsHome(right)
    ensures var xs := if IsShift(op) then LoadTo(RCX, right) else OperandCode(right, ScratchOf(op));
            Takes(xs, m, m1)
    ensures OnlyScratch(m, m1) && m1.regs[RAX] == m.regs[RAX] && (op.IrDiv? ==> m1.regs[RDX] == m.regs[RDX])
    ensures m1.regs[if IsShift(op) then RCX else OperandReg(right, ScratchOf(op))] == ValueAt(m, right)
  {
    if IsShift(op) {
      LoadToEffect(RCX, right, m);
      m1 := SetReg(m, RCX, ValueAt(m, right));
    } else if right.InReg? {
      m1 := m;
    } else {
      LoadToEffect(ScratchOf(op), right, m);
      m1 := SetReg(m, ScratchOf(op), ValueAt(m, right));
    }
  }

  lemma {:induction false} ExtendDividend(op: Ir.AluOp, m: Cpu) returns (m1: Cpu)
    ensures Takes(if op.IrDiv? then [Cqo] else [], m, m1) && OnlyScratch(m, m1) && m1.regs[RAX] == m.regs[RAX]
    ensures op.IrDiv? ==> m1.regs[RDX] == if m.regs[RAX] < 0 then -1 else 0
  {
    m1 := m;
    if op.IrDiv? {
      m1 := SetReg(m, RDX, if m.regs[RAX] < 0 then -1 else 0);
      TakesOne(Cqo, m, m1);
    }
  }

  /** The whole template of a binary instruction: the destination receives the result, or the processor faults. */
  lemma {:induction false} BinaryEffect(op: Ir.AluOp, dest: Location, left: Location, right: Location, m: Cpu,
                                        a: Word, b: Word)
    returns (mid: Cpu)
    requires IsHome(dest) && IsHome(left) && IsHome(right)
    requires ValueAt(m, left) == a && ValueAt(m, right) == b
    ensures AllData(BinaryCode(op, dest, left, right))
    ensures match AluMeaning(op, a, b)
            case Some(w) => Takes(BinaryCode(op, dest, left, right), m, Put(mid, dest, w)) && OnlyScratch(m, mid)
            case None => EffectAll(BinaryCode(op, dest, left, right), m) == Fault
  {
    hide Takes, OnlyScratch, AluMeaning, OperateCode, LoadTo, StoreFrom, Put, AllData;
    var x1, x2 := LoadTo(RAX, left), if op.IrDiv? then [Cqo] else [];
    var x3 := if IsShift(op) then LoadTo(RCX, right) else OperandCode(right, ScratchOf(op));
    var x4, x5 := OperateCode(op, OperandReg(right, ScratchOf(op))), StoreFrom(dest, RAX);
    var m1 := SetReg(m, RAX, a);
    LoadToTakes(RAX, left, m);
    var m2 := ExtendDividend(op, m1);
    HomeUntouched(m, m1, right);
    HomeUntouched(m1, m2, right);
    var m3 := FetchRight(op, right, m2);
    ScratchTwice(m, m1, m2);
    ScratchTwice(m, m2, m3);
    TakesBoth(x1, x2, m, m1, m2);
    TakesBoth(x1 + x2, x3, m, m2, m3);
    mid := OperateEffect(op, OperandReg(right, ScratchOf(op)), m3, a, b);
    StoreFromEffect(dest, mid);
    match AluMeaning(op, a, b)
    case Some(w) =>
      ScratchTwice(m, m3, mid);
      TakesBoth(x1 + x2 + x3, x4, m, m3, mid);
      StoreFromTakes(dest, mid);
      TakesBoth(x1 + x2 + x3 + x4, x5, m, mid, Put(mid, dest, w));
      TakesData(x1 + x2 + x3 + x4 + x5, m, Put(mid, dest, w));
    case None =>
      TakesThenFaults(x1 + x2 + x3, x4, x5, m, m3);
  }

  lemma {:induction false} LoadToTakes(d: Reg, loc: Location, m: Cpu)
    requires IsHome(loc) && Scratch(d)
    ensures Takes(LoadTo(d, loc), m, SetReg(m, d, ValueAt(m, loc)))
    ensures OnlyScratch(m, SetReg(m, d, ValueAt(m, loc)))
  {
    LoadToEffect(d, loc, m);
  }

  lemma {:induction false} StoreFromTakes(loc: Location, m: Cpu)
    requires IsHome(loc)
    ensures Takes(StoreFrom(loc, RAX), m, Put(m, loc, m.regs[RAX]))
  {
    StoreFromEffect(loc, m);
  }

  lemma {:induction false} TakesData(xs: seq<Inst>, m: Cpu, m1: Cpu)
    requires Takes(xs, m, m1)
    ensures AllData(xs)
  {
  }

  lemma {:induction false} UnaryStep(op: UnOp, m: Cpu, a: Word) returns (m1: Cpu)
    requires m.regs[RAX] == a
    ensures Takes(UnaryCode(op), m, m1) && OnlyScratch(m, m1) && m1.regs[RAX] == UnMeaning(op, a)
  {
    match op
    case IrNot =>
      var ma := m.(flags := SubFlags(a, 0));
      FlagsDecideOrder(a, 0);
      TakesOne(CmpImm(RAX, 0), m, ma);
      SetCcMovzx(CondE, ma);
      m1 := SetReg(ma, RAX, FromBool(a == 0));
      TakesBoth([CmpImm(RAX, 0)], [SetCc(CondE, RAX), Movzx(RAX, RAX)], m, ma, m1);
      assert UnaryCode(op) == [CmpImm(RAX, 0)] + [SetCc(CondE, RAX), Movzx(RAX, RAX)];
    case IrNeg =>
      m1 := SetReg(m, RAX, Wrap(0 - a)).(flags := SubFlags(0, a));
      TakesOne(Neg(RAX), m, m1);
    case IrBnot =>
      m1 := SetReg(m, RAX, Complement(a));
      TakesOne(NotReg(RAX), m, m1);
  }

  lemma {:induction false} UnaryEffect(op: UnOp, dest: Location, src: Location, m: Cpu, a: Word) returns (mid: Cpu)
    requires IsHome(dest) && IsHome(src) && ValueAt(m, src) == a
    ensures OnlyScratch(m, mid)
    ensures Takes(LoadTo(RAX, src) + UnaryCode(op) + StoreFrom(dest, RAX), m, Put(mid, dest, UnMeaning(op, a)))
  {
    hide Takes, OnlyScratch, UnMeaning, UnaryCode, LoadTo, StoreFrom, Put;
    var m1 := SetReg(m, RAX, a);
    LoadToTakes(RAX, src, m);
    mid := UnaryStep(op, m1, a);
    ScratchTwice(m, m1, mid);
    TakesBoth(LoadTo(RAX, src), UnaryCode(op), m, m1, mid);
    StoreFromTakes(dest, mid);
    TakesBoth(LoadTo(RAX, src) + UnaryCode(op), StoreFrom(dest, RAX), m, mid, Put(mid, dest, UnMeaning(op, a)));
  }

  /** MOV between homes; a move of a register to itself has no code. */
  lemma {:induction false} MoveEffect(dest: Location, src: Location, m: Cpu) returns (mid: Cpu)
    requires IsHome(dest) && IsHome(src)
    ensures OnlyScratch(m, mid)
    ensures Takes(if src.InReg? && dest == src then [] else LoadTo(RAX, src) + StoreFrom(dest, RAX),
                  m, Put(mid, dest, ValueAt(m, src)))
  {
    if src.InReg? && dest == src {
      mid := m;
      assert m.regs[src.reg := m.regs[src.reg]] == m.regs;
    } else {
      var w := ValueAt(m, src);
      mid := SetReg(m, RAX, w);
      LoadToTakes(RAX, src, m);
      StoreFromTakes(dest, mid);
      TakesBoth(LoadTo(RAX, src), StoreFrom(dest, RAX), m, mid, Put(mid, dest, w));
    }
  }

  lemma {:induction false} ConstEffect(dest: Location, w: Word, m: Cpu) returns (mid: Cpu)
    requires IsHome(dest)
    ensures OnlyScratch(m, mid) && Takes([MovImm(RAX, w)] + StoreFrom(dest, RAX), m, Put(mid, dest, w))
  {
    mid := SetReg(m, RAX, w);
    TakesOne(MovImm(RAX, w), m, mid);
    StoreFromTakes(dest, mid);
    TakesBoth([MovImm(RAX, w)], StoreFrom(dest, RAX), m, mid, Put(mid, dest, w));
  }

  lemma {:induction false} LoadSizedEffect(d: Reg, disp: Int32, width: nat, m: Cpu)
    ensures Takes([LoadSized(d, disp, width)], m, SetReg(m, d, LoadCell(Read(m.mem, Local(m, disp)), width)))
  {
    EffectOne(LoadSized(d, disp, width), m);
  }

  lemma {:induction false} LoadEffect(dest: Location, disp: Int32, width: nat, m: Cpu) returns (mid: Cpu)
    requires IsHome(dest)
    ensures OnlyScratch(m, mid)
    ensures Takes(match dest
                  case InReg(r) => [LoadSized(r, disp, width)]
                  case OnStack(to) => [LoadSized(RAX, disp, width), StoreLocal(RAX, to)],
                  m, Put(mid, dest, LoadCell(Read(m.mem, Local(m, disp)), width)))
  {
    hide LoadCell, Takes;
    var w := LoadCell(Read(m.mem, Local(m, disp)), width);
    match dest
    case InReg(r) =>
      mid := m;
      LoadSizedEffect(r, disp, width, m);
    case OnStack(to) =>
      mid := SetReg(m, RAX, w);
      LoadSizedEffect(RAX, disp, width, m);
      TakesOne(StoreLocal(RAX, to), mid, Put(mid, dest, w));
      TakesBoth([LoadSized(RAX, disp, width)], [StoreLocal(RAX, to)], m, mid, Put(mid, dest, w));
      assert [LoadSized(RAX, disp, width), StoreLocal(RAX, to)] ==
             [LoadSized(RAX, disp, width)] + [StoreLocal(RAX, to)];
  }

  function Stored(m: Cpu, disp: Int32, w: int, width: nat): Cpu {
    var a := Local(m, disp);
    m.(mem := m.mem[a := StoreCell(Read(m.mem, a), w, width)])
  }

  lemma {:induction false} StoreEffect(src: Location, disp: Int32, width: nat, m: Cpu) returns (mid: Cpu)
    requires IsHome(src)
    ensures OnlyScratch(m, mid)
    ensures Takes(match src
                  case InReg(r) => [StoreSized(r, disp, width)]
                  case OnStack(from) => [LoadLocal(RAX, from), StoreSized(RAX, disp, width)],
                  m, Stored(mid, disp, ValueAt(m, src), width))
  {
    hide StoreCell, Takes;
    match src
    case InReg(r) =>
      mid := m;
      StoreSizedEffect(r, disp, width, m);
    case OnStack(from) =>
      mid := SetReg(m, RAX, ValueAt(m, src));
      TakesOne(LoadLocal(RAX, from), m, mid);
      StoreSizedEffect(RAX, disp, width, mid);
      TakesBoth([LoadLocal(RAX, from)], [StoreSized(RAX, disp, width)], m, mid,
        Stored(mid, disp, ValueAt(m, src), width));
      assert [LoadLocal(RAX, from), StoreSized(RAX, disp, width)] ==
             [LoadLocal(RAX, from)] + [StoreSized(RAX, disp, width)];
  }

  lemma {:induction false} StoreSizedEffect(s: Reg, disp: Int32, width: nat, m: Cpu)
    ensures Takes([StoreSized(s, disp, width)], m, Stored(m, disp, m.regs[s], width))
  {
    EffectOne(StoreSized(s, disp, width), m);
  }

  /** After the test of a value, the zero flag says whether it is 0. */
  lemma {:induction false} TestEffect(loc: Location, m: Cpu, a: Word) returns (m1: Cpu)
    requires IsHome(loc) && ValueAt(m, loc) == a
    ensures Takes(TestCode(loc), m, m1) && OnlyScratch(m, m1) && (m1.flags.zf <==> a == 0)
  {
    hide Bitwise;
    match loc
    case InReg(r) =>
      AndSelf(a);
      m1 := m.(flags := ResultFlags(a, a));
      TakesOne(X86.Alu(AluTest, r, r), m, m1);
    case OnStack(disp) =>
      FlagsDecideOrder(a, 0);
      var ma := SetReg(m, RAX, a);
      m1 := ma.(flags := SubFlags(a, 0));
      LoadToTakes(RAX, loc, m);
      TakesOne(CmpImm(RAX, 0), ma, m1);
      TakesBoth(LoadTo(RAX, loc), [CmpImm(RAX, 0)], m, ma, m1);
  }
}
