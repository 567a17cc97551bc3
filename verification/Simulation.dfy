/**
  The machine code of a function simulates its IR: related states step to related states,
  through calls and recursion, until both return the same value or both trap.
 */
module Simulation {
  import opened Words
  import opened Ast
  import opened Source
  import opened Ir
  import opened IrShape
  import opened Lowering
  import opened X86
  import opened Machine
  import opened Encoders
  import opened Allocation
  import opened CodeLayout
  import opened Templates
  import opened CallProtocol

  // --- Frames ------------------------------------------------------------------------

  /** The address of stack cell `index` in the frame at `fp`. */
  function Cell(fp: int, index: nat): int {
    fp - 56 - 8 * index
  }

  const MAX_CELLS: nat := 0x4_0000

  lemma {:induction false} CellExact(fp: int, index: nat)
    requires index < MAX_CELLS
    ensures fp + CellOffset(index) == Cell(fp, index)
  {
  }

  /** Every located register is a proper one, and locations are sound. */
  ghost predicate Homes(f: IrFunc) {
    && Sound(StateAt(f, |f.code|).alloc)
    && (forall v :: v in FinalLocs(f) ==> 0 < v < f.vregCount)
    && StateAt(f, |f.code|).alloc.base == f.stackCount
    && f.stackCount + f.vregCount < MAX_CELLS
  }

  lemma {:induction false} KeysBounded(f: IrFunc, i: nat)
    requires WellFormed(f) && i <= |f.code|
    ensures forall v :: v in StateAt(f, i).alloc.locs ==> 0 < v < f.vregCount
    ensures forall v :: v in StateAt(f, i).pending ==> 0 < v < f.vregCount
  {
    hide UniqueLabels, Increasing, ArgsLeadToCalls, Available, LocateAll, StartState;
    if i == 0 {
      StartKeys(f);
    } else {
      KeysBounded(f, i - 1);
      assert Fits(f.code, i - 1, f.params, f.vregCount, f.stackCount, f.labelCount);
      QueriesBounded(f, i - 1);
    }
  }

  lemma {:induction false} StartKeys(f: IrFunc)
    requires f.params < f.vregCount
    ensures forall v :: v in StartState(f).alloc.locs ==> 0 < v < f.vregCount
    ensures StartState(f).pending == [] && StateAt(f, 0) == StartState(f)
  {
  }

  lemma {:induction false} QueriesBounded(f: IrFunc, i: nat)
    requires i < |f.code| && Fits(f.code, i, f.params, f.vregCount, f.stackCount, f.labelCount)
    requires f.params < f.vregCount
    requires forall v :: v in StateAt(f, i).pending ==> 0 < v < f.vregCount
    ensures forall v :: v in Queries(f.code[i], StateAt(f, i).pending) ==> 0 < v < f.vregCount
    ensures f.code[i].Arg? ==> 0 < f.code[i].src1 < f.vregCount
  {
    hide DefinedNear, StateAt;
    var ins := f.code[i];
    forall v | v in UsedRegs(ins) ensures 0 < v < f.vregCount {
      assert Available(f.code, i, f.params, v);
    }
    match ins
    case Bin(_, d, a, b) => assert a in UsedRegs(ins) && b in UsedRegs(ins) && DefinedReg(ins) == d;
    case Un(_, d, a) => assert a in UsedRegs(ins) && DefinedReg(ins) == d;
    case Mov(_, a) => assert a in UsedRegs(ins);
    case Store(_, a, _) => assert a in UsedRegs(ins);
    case Arg(a, _) => assert a in UsedRegs(ins);
    case Ret(a) => assert a in UsedRegs(ins);
    case Jz(a, _) => assert a in UsedRegs(ins);
    case Jnz(a, _) => assert a in UsedRegs(ins);
    case _ =>
  }

  lemma {:induction false} HomesOf(f: IrFunc)
    requires WellFormed(f)
    ensures Homes(f)
  {
    hide ShapedCode, Sound;
    StateSound(f, |f.code|);
    KeysBounded(f, |f.code|);
  }

  /** Writing the home of `d` changes no other home, no local slot and nothing above the frame's cells. */
  lemma {:induction false} PutElsewhere(f: IrFunc, m: Cpu, d: nat, w: int)
    requires Homes(f) && d in FinalLocs(f)
    ensures var m1 := Put(m, FinalLocs(f)[d], w);
            && m1.regs[RBP] == m.regs[RBP] && m1.regs[RSP] == m.regs[RSP] && m1.pc == m.pc
            && ValueAt(m1, FinalLocs(f)[d]) == w
            && (forall v :: v in FinalLocs(f) && v != d ==> ValueAt(m1, FinalLocs(f)[v]) == ValueAt(m, FinalLocs(f)[v]))
            && (forall k: nat :: k < f.stackCount ==>
              Read(m1.mem, Cell(m.regs[RBP], k)) == Read(m.mem, Cell(m.regs[RBP], k)))
            && (forall a :: a >= m.regs[RBP] - CALLEE_SAVED_SIZE ==> Read(m1.mem, a) == Read(m.mem, a))
            && (forall r: Reg :: !Allocatable(r) ==> m1.regs[r] == m.regs[r])
  {
    hide StateAt, CellOffset;
    var locs := FinalLocs(f);
    assert locs == StateAt(f, |f.code|).alloc.locs;
    CellExact(m.regs[RBP], f.stackCount + d);
    forall v | v in locs && v != d
      ensures ValueAt(Put(m, locs[d], w), locs[v]) == ValueAt(m, locs[v])
    {
      CellExact(m.regs[RBP], f.stackCount + v);
    }
  }

  lemma {:induction false} HomeIs(f: IrFunc, v: nat)
    requires Homes(f) && v in FinalLocs(f)
    ensures IsHome(FinalLocs(f)[v]) && LocationOf(FinalLocs(f), v) == FinalLocs(f)[v]
    ensures FinalLocs(f)[v].OnStack? ==>
              forall m: Cpu :: Local(m, FinalLocs(f)[v].offset) == Cell(m.regs[RBP], f.stackCount + v)
  {
    hide StateAt, CellOffset;
    assert FinalLocs(f) == StateAt(f, |f.code|).alloc.locs;
    forall m: Cpu
      ensures FinalLocs(f)[v].OnStack? ==> Local(m, FinalLocs(f)[v].offset) == Cell(m.regs[RBP], f.stackCount + v)
    {
      CellExact(m.regs[RBP], f.stackCount + v);
    }
  }

  // --- The relation ------------------------------------------------------------------

  /** The frame of one activation: its RBP, and memory once the caller's registers are saved. */
  datatype Frame = Frame(fp: int, mem: Memory)

  /**
    Whether the home of `v` is sure to hold it at `pc`. The last register's cell may lie just
    below the stack pointer, where a call would overwrite it; it counts only between its
    definition and the next label or jump, and no call stands there.
   */
  ghost predicate Visible(f: IrFunc, pc: nat, v: nat)
    requires pc <= |f.code|
  {
    || v != f.vregCount - 1
    || f.params == f.vregCount - 1
    || (DefinedNear(f.code, pc, v) && (pc < |f.code| ==> !f.code[pc].Label?))
  }

  ghost predicate VregsHeld(f: IrFunc, c: Conf, m: Cpu)
    requires c.pc <= |f.code|
  {
    forall v :: v in c.vregs ==>
      v in FinalLocs(f) && (Visible(f, c.pc, v) ==> ValueAt(m, FinalLocs(f)[v]) == c.vregs[v])
  }

  ghost predicate SlotsHeld(f: IrFunc, c: Conf, m: Cpu) {
    forall k :: k in c.slots ==>
      k < f.stackCount && LoadCell(Read(m.mem, Cell(m.regs[RBP], k)), c.slots[k].width) == c.slots[k].value
  }

  ghost predicate FrameKept(f: IrFunc, m: Cpu, fr: Frame) {
    && m.regs[RBP] == fr.fp && fr.fp % 16 == 0
    && m.regs[RSP] == fr.fp - CALLEE_SAVED_SIZE - AlignedStackSize(f)
    && (forall a :: a >= fr.fp - CALLEE_SAVED_SIZE ==> Read(m.mem, a) == Read(fr.mem, a))
  }

  ghost predicate ArgsHeld(f: IrFunc, c: Conf)
    requires c.pc <= |f.code|
  {
    var p := StateAt(f, c.pc).pending;
    |c.args| == |p| && forall i :: 0 <= i < |p| ==> p[i] in c.vregs && c.vregs[p[i]] == c.args[i]
  }

  ghost predicate Held(f: IrFunc, c: Conf, m: Cpu, fr: Frame) {
    c.pc <= |f.code| && VregsHeld(f, c, m) && SlotsHeld(f, c, m) && FrameKept(f, m, fr) && ArgsHeld(f, c)
  }

  ghost predicate Related(f: IrFunc, base: int, c: Conf, m: Cpu, fr: Frame) {
    Held(f, c, m, fr) && m.pc == base + Offset(f, c.pc)
  }

  // --- Static facts ------------------------------------------------------------------

  /** Arguments are pending only right after an ARG. */
  lemma {:induction false} PendingAfterArg(f: IrFunc, i: nat)
    requires WellFormed(f) && i <= |f.code| && StateAt(f, i).pending != []
    ensures i > 0 && f.code[i - 1].Arg?
  {
    hide LocateAll, StartState, UniqueLabels, Increasing, Fits;
    if i == 0 {
      StartKeys(f);
    } else if StateAt(f, i - 1).pending != [] {
      PendingAfterArg(f, i - 1);
    }
  }

  lemma {:induction false} NothingPending(f: IrFunc, i: nat)
    requires WellFormed(f) && i < |f.code| && !AfterArg(f.code[i])
    ensures StateAt(f, i).pending == [] && StateAt(f, i + 1).pending == []
  {
    hide LocateAll, StartState, UniqueLabels, Increasing, Fits;
    if StateAt(f, i).pending != [] {
      PendingAfterArg(f, i);
    }
    assert StateAt(f, i + 1) == Advance(StateAt(f, i), f.code[i]);
  }

  /** A register read by an instruction is sure to be in its home. */
  lemma {:induction false} UseVisible(f: IrFunc, pc: nat, v: nat)
    requires WellFormed(f) && pc < |f.code| && v in UsedRegs(f.code[pc])
    ensures Visible(f, pc, v) && 0 < v < f.vregCount
  {
    hide UniqueLabels, Increasing, ArgsLeadToCalls;
    assert Fits(f.code, pc, f.params, f.vregCount, f.stackCount, f.labelCount);
  }

  lemma {:induction false} VisibleBefore(f: IrFunc, pc: nat, v: nat)
    requires pc < |f.code| && Visible(f, pc + 1, v) && (DefinedReg(f.code[pc]) != v || f.code[pc].Mov?)
    ensures Visible(f, pc, v)
  {
    if v == f.vregCount - 1 && f.params != f.vregCount - 1 {
      var d :| 0 <= d < pc + 1 && DefinedReg(f.code[d]) == v && !f.code[d].Mov? && StraightFrom(f.code, d + 1, pc + 1);
      assert d < pc && Straight(f.code[pc]) && StraightFrom(f.code, d + 1, pc);
    }
  }

  /** No call stands between the definition of the last register and its uses. */
  lemma {:induction false} CallHidesTop(f: IrFunc, pc: nat, v: nat)
    requires WellFormed(f) && pc < |f.code| && f.code[pc].CallFn?
    requires Visible(f, pc + 1, v) && v != f.code[pc].dest
    ensures v != f.vregCount - 1
  {
    hide UniqueLabels, ArgsLeadToCalls;
    assert Fits(f.code, pc, f.params, f.vregCount, f.stackCount, f.labelCount);
    assert forall d :: 0 <= d < pc && Temp(f.code[d]) ==> DefinedReg(f.code[d]) < f.code[pc].dest;
  }

  lemma {:induction false} PendingFromArgs(f: IrFunc, i: nat, v: nat)
    requires i <= |f.code| && v in StateAt(f, i).pending
    ensures exists j :: 0 <= j < i && f.code[j].Arg? && f.code[j].src1 == v
  {
    hide LocateAll, StartState, UniqueLabels, Increasing, Fits;
    if i == 0 {
      StartPending(f);
    } else {
      var s := StateAt(f, i - 1);
      assert StateAt(f, i) == Advance(s, f.code[i - 1]);
      if v in s.pending {
        PendingFromArgs(f, i - 1, v);
      } else {
        assert f.code[i - 1].Arg? && f.code[i - 1].src1 == v;
      }
    }
  }

  lemma {:induction false} StartPending(f: IrFunc)
    ensures StateAt(f, 0).pending == []
  {
  }

  /** The arguments of a call are not in the last register. */
  lemma {:induction false} ArgsBelowTop(f: IrFunc, pc: nat, v: nat)
    requires WellFormed(f) && pc < |f.code| && f.code[pc].CallFn? && v in StateAt(f, pc).pending
    ensures v < f.vregCount - 1
  {
    hide UniqueLabels, ArgsLeadToCalls, StateAt;
    PendingFromArgs(f, pc, v);
    var j :| 0 <= j < pc && f.code[j].Arg? && f.code[j].src1 == v;
    assert Fits(f.code, j, f.params, f.vregCount, f.stackCount, f.labelCount);
    assert Fits(f.code, pc, f.params, f.vregCount, f.stackCount, f.labelCount);
    assert v in UsedRegs(f.code[j]);
    if v > f.params {
      var d :| 0 <= d < j && DefinedReg(f.code[d]) == v && !f.code[d].Mov? && StraightFrom(f.code, d + 1, j);
      assert Temp(f.code[d]) && Temp(f.code[pc]) && d < pc;
    }
  }

  // --- Running a block ----------------------------------------------------------------

  lemma {:induction false} BlockLoaded(image: seq<Byte>, base: int, f: IrFunc, addr: map<string, Word>, i: nat)
    requires Loaded(image, base, f, addr) && i < |f.code|
    ensures var b := BlockAt(f, i);
            var at := base + Offset(f, i);
            && CodeAt(image, at, EncodeAll(b.body))
            && CodeAt(image, at + |EncodeAll(b.body)|,
              EncodeAll(TailCode(f, b.tail, Offset(f, i) + |EncodeAll(b.body)|, addr)))
            && Offset(f, i + 1) == Offset(f, i) + |EncodeAll(b.body)| + TailSize(b.tail)
  {
    hide CodeAt, BlockAt, TailCode, TailSize, EncodeAll;
    var b := BlockAt(f, i);
    CodeSplit(image, base + Offset(f, i), EncodeAll(b.body),
      EncodeAll(TailCode(f, b.tail, Offset(f, i) + |EncodeAll(b.body)|, addr)));
  }

  lemma {:induction false} RunBody(image: seq<Byte>, base: int, f: IrFunc, addr: map<string, Word>, i: nat, m: Cpu)
    requires Loaded(image, base, f, addr) && i < |f.code| && m.pc == base + Offset(f, i)
    requires AllData(BlockAt(f, i).body)
    ensures Steps(image, Running(m), |BlockAt(f, i).body|)
            == AtPc(EffectAll(BlockAt(f, i).body, m), base + Offset(f, i) + |EncodeAll(BlockAt(f, i).body)|)
  {
    hide *;
    BlockLoaded(image, base, f, addr, i);
    RunStraight(image, BlockAt(f, i).body, m);
  }

  /** A block without jump runs on into the next one. */
  lemma {:induction false} RunContinue(image: seq<Byte>, base: int, f: IrFunc, addr: map<string, Word>, i: nat,
                                       m: Cpu, m1: Cpu)
    requires Loaded(image, base, f, addr) && i < |f.code| && m.pc == base + Offset(f, i)
    requires Takes(BlockAt(f, i).body, m, m1) && BlockAt(f, i).tail == Continue
    ensures Steps(image, Running(m), |BlockAt(f, i).body|) == Running(m1.(pc := base + Offset(f, i + 1)))
  {
    hide CodeAt, BlockAt, TailCode, Loaded, Offset, AllData, EffectAll, EncodeAll, Steps;
    BlockLoaded(image, base, f, addr, i);
    RunBody(image, base, f, addr, i, m);
  }

  // --- One instruction ----------------------------------------------------------------

  /** A fresh value in the home of the register an instruction defines. */
  lemma {:induction false} AfterPut(f: IrFunc, c: Conf, m: Cpu, mid: Cpu, fr: Frame, d: nat, w: Word)
    requires WellFormed(f) && Homes(f) && Held(f, c, m, fr) && c.pc < |f.code|
    requires !AfterArg(f.code[c.pc]) && DefinedReg(f.code[c.pc]) == d && d in FinalLocs(f) && OnlyScratch(m, mid)
    ensures Held(f, c.(pc := c.pc + 1, vregs := c.vregs[d := w]), Put(mid, FinalLocs(f)[d], w), fr)
  {
    hide WellFormed, Homes, StateAt, Visible, Put, ValueAt, AlignedStackSize, LoadCell;
    var c1 := c.(pc := c.pc + 1, vregs := c.vregs[d := w]);
    var m1 := Put(mid, FinalLocs(f)[d], w);
    NothingPending(f, c.pc);
    PutElsewhere(f, mid, d, w);
    ScratchKeepsPointers(m, mid);
    forall v | v in c1.vregs
      ensures v in FinalLocs(f) && (Visible(f, c1.pc, v) ==> ValueAt(m1, FinalLocs(f)[v]) == c1.vregs[v])
    {
      if v != d && Visible(f, c1.pc, v) {
        VisibleBefore(f, c.pc, v);
        HomeIs(f, v);
        HomeUntouched(m, mid, FinalLocs(f)[v]);
      }
    }
  }

  lemma {:induction false} ScratchKeepsPointers(m: Cpu, mid: Cpu)
    requires OnlyScratch(m, mid)
    ensures mid.regs[RBP] == m.regs[RBP] && mid.regs[RSP] == m.regs[RSP]
  {
  }

  /** The value an instruction reads is in its home. */
  lemma {:induction false} ReadHome(f: IrFunc, c: Conf, m: Cpu, fr: Frame, v: nat)
    requires WellFormed(f) && Homes(f) && Held(f, c, m, fr) && c.pc < |f.code|
    requires v in UsedRegs(f.code[c.pc]) && v in c.vregs
    ensures v in FinalLocs(f) && IsHome(FinalLocs(f)[v]) && LocationOf(FinalLocs(f), v) == FinalLocs(f)[v]
    ensures ValueAt(m, FinalLocs(f)[v]) == c.vregs[v]
  {
    hide WellFormed, Homes, StateAt, Visible, ValueAt, SlotsHeld, FrameKept, ArgsHeld;
    UseVisible(f, c.pc, v);
    HomeIs(f, v);
  }

  lemma {:induction false} DestHome(f: IrFunc, pc: nat)
    requires WellFormed(f) && Homes(f) && pc < |f.code| && DefinedReg(f.code[pc]) != 0
    ensures var d := DefinedReg(f.code[pc]);
            d in FinalLocs(f) && IsHome(FinalLocs(f)[d]) && LocationOf(FinalLocs(f), d) == FinalLocs(f)[d]
  {
    hide WellFormed, Homes, StateAt, Select;
    BlockFinal(f, pc);
    var d := DefinedReg(f.code[pc]);
    assert d in Queries(f.code[pc], StateAt(f, pc).pending) by {
      assert Queries(f.code[pc], StateAt(f, pc).pending)[0] == d;
    }
    HomeIs(f, d);
  }

  ghost predicate Simulates(image: seq<Byte>, f: IrFunc, base: int, c1: Conf, m: Cpu, fr: Frame, n: nat, m1: Cpu) {
    Steps(image, Running(m), n) == Running(m1) && Related(f, base, c1, m1, fr)
  }

  /** What the lemmas about single instructions start from. */
  ghost predicate Ready(image: seq<Byte>, base: int, f: IrFunc, addr: map<string, Word>, c: Conf, m: Cpu, fr: Frame) {
    WellFormed(f) && Homes(f) && Loaded(image, base, f, addr) && Related(f, base, c, m, fr) && c.pc < |f.code|
  }

  lemma {:induction false} PutAndContinue(image: seq<Byte>, base: int, f: IrFunc, addr: map<string, Word>, c: Conf,
                                          m: Cpu, fr: Frame, mid: Cpu, d: nat, w: Word)
    returns (n: nat, m1: Cpu)
    requires Ready(image, base, f, addr, c, m, fr) && !AfterArg(f.code[c.pc])
    requires DefinedReg(f.code[c.pc]) == d && d in FinalLocs(f) && OnlyScratch(m, mid)
    requires BlockAt(f, c.pc).tail == Continue && Takes(BlockAt(f, c.pc).body, m, Put(mid, FinalLocs(f)[d], w))
    ensures Simulates(image, f, base, c.(pc := c.pc + 1, vregs := c.vregs[d := w]), m, fr, n, m1)
  {
    hide WellFormed, Homes, Loaded, Held, BlockAt, Takes, FinalLocs, Offset, Put, OnlyScratch, Steps;
    var mp := Put(mid, FinalLocs(f)[d], w);
    AfterPut(f, c, m, mid, fr, d, w);
    RunContinue(image, base, f, addr, c.pc, m, mp);
    n := |BlockAt(f, c.pc).body|;
    m1 := mp.(pc := base + Offset(f, c.pc + 1));
    HeldAtPc(f, c.(pc := c.pc + 1, vregs := c.vregs[d := w]), mp, fr, m1.pc);
  }

  /** The relation does not depend on the program counter of the processor. */
  lemma {:induction false} HeldAtPc(f: IrFunc, c: Conf, m: Cpu, fr: Frame, pc: int)
    requires Held(f, c, m, fr)
    ensures Held(f, c, m.(pc := pc), fr)
  {
    hide Visible, StateAt, LoadCell, AlignedStackSize;
    var m1 := m.(pc := pc);
    forall v | v in c.vregs
      ensures v in FinalLocs(f) && (Visible(f, c.pc, v) ==> ValueAt(m1, FinalLocs(f)[v]) == c.vregs[v])
    {
    }
  }

  lemma {:induction false} SimulateBin(image: seq<Byte>, base: int, f: IrFunc, addr: map<string, Word>, c: Conf,
                                       m: Cpu, fr: Frame)
    returns (n: nat, m1: Cpu)
    requires Ready(image, base, f, addr, c, m, fr) && f.code[c.pc].Bin?
    ensures Next(f, c).Go? ==> Simulates(image, f, base, Next(f, c).c, m, fr, n, m1)
    ensures Next(f, c).End? && Next(f, c).outcome.Trapped? ==> Steps(image, Running(m), n) == Fault
  {
    hide WellFormed, Homes, Loaded, Held, BlockAt, BinaryCode, AluMeaning, Put, OnlyScratch, FinalLocs, StateAt,
      Offset, Steps, ValueAt, Takes;
    n, m1 := 0, m;
    var i := f.code[c.pc];
    if i.src1 in c.vregs && i.src2 in c.vregs {
      assert i.src1 in UsedRegs(i) && i.src2 in UsedRegs(i);
      ReadHome(f, c, m, fr, i.src1);
      ReadHome(f, c, m, fr, i.src2);
      BinDest(f, c.pc);
      DestHome(f, c.pc);
      BlockFinal(f, c.pc);
      var locs := FinalLocs(f);
      var mid := BinaryEffect(i.op, locs[i.dest], locs[i.src1], locs[i.src2], m, c.vregs[i.src1], c.vregs[i.src2]);
      match AluMeaning(i.op, c.vregs[i.src1], c.vregs[i.src2])
      case Some(w) => n, m1 := PutAndContinue(image, base, f, addr, c, m, fr, mid, i.dest, w);
      case None =>
        RunBody(image, base, f, addr, c.pc, m);
        n := |BlockAt(f, c.pc).body|;
    }
  }

  lemma {:induction false} BinDest(f: IrFunc, pc: nat)
    requires WellFormed(f) && pc < |f.code|
    ensures f.code[pc].Bin? || f.code[pc].Un? || f.code[pc].Const? || f.code[pc].Load? || f.code[pc].CallFn?
            || f.code[pc].Mov?
            ==> DefinedReg(f.code[pc]) != 0
    ensures f.code[pc].Load? || f.code[pc].Store? ==> f.code[pc].slot < f.stackCount
  {
    hide UniqueLabels, Increasing, ArgsLeadToCalls, Available;
    assert Fits(f.code, pc, f.params, f.vregCount, f.stackCount, f.labelCount);
  }

  lemma {:induction false} SimulateUn(image: seq<Byte>, base: int, f: IrFunc, addr: map<string, Word>, c: Conf,
                                      m: Cpu, fr: Frame)
    returns (n: nat, m1: Cpu)
    requires Ready(image, base, f, addr, c, m, fr) && (f.code[c.pc].Un? || f.code[c.pc].Mov? || f.code[c.pc].Const?)
    ensures Next(f, c).Go? ==> Simulates(image, f, base, Next(f, c).c, m, fr, n, m1)
  {
    hide WellFormed, Homes, Loaded, Held, BlockAt, Put, OnlyScratch, FinalLocs, StateAt, Offset, Steps, ValueAt,
      Takes, UnaryCode, UnMeaning;
    n, m1 := 0, m;
    var i := f.code[c.pc];
    var locs := FinalLocs(f);
    BinDest(f, c.pc);
    DestHome(f, c.pc);
    BlockFinal(f, c.pc);
    if i.Const? {
      var mid := ConstEffect(locs[i.dest], i.imm, m);
      n, m1 := PutAndContinue(image, base, f, addr, c, m, fr, mid, i.dest, i.imm);
    } else if i.src1 in c.vregs {
      assert i.src1 in UsedRegs(i);
      ReadHome(f, c, m, fr, i.src1);
      var a := c.vregs[i.src1];
      if i.Un? {
        var mid := UnaryEffect(i.uop, locs[i.dest], locs[i.src1], m, a);
        n, m1 := PutAndContinue(image, base, f, addr, c, m, fr, mid, i.dest, UnMeaning(i.uop, a));
      } else {
        var mid := MoveEffect(locs[i.dest], locs[i.src1], m);
        n, m1 := PutAndContinue(image, base, f, addr, c, m, fr, mid, i.dest, a);
      }
    }
  }

  lemma {:induction false} SlotRead(f: IrFunc, c: Conf, m: Cpu, fr: Frame, k: nat)
    requires Held(f, c, m, fr) && Homes(f) && k in c.slots
    ensures LoadCell(Read(m.mem, Local(m, CellOffset(k))), c.slots[k].width) == c.slots[k].value
  {
    hide StateAt, LoadCell, CellOffset, Visible, VregsHeld, FrameKept, ArgsHeld, Sound;
    CellExact(m.regs[RBP], k);
  }

  lemma {:induction false} SimulateLoad(image: seq<Byte>, base: int, f: IrFunc, addr: map<string, Word>, c: Conf,
                                        m: Cpu, fr: Frame)
    returns (n: nat, m1: Cpu)
    requires Ready(image, base, f, addr, c, m, fr) && f.code[c.pc].Load?
    ensures Next(f, c).Go? ==> Simulates(image, f, base, Next(f, c).c, m, fr, n, m1)
  {
    hide WellFormed, Homes, Loaded, Held, BlockAt, Put, OnlyScratch, FinalLocs, StateAt, Offset, Steps, ValueAt,
      Takes, LoadCell, CellOffset, LoadSized;
    n, m1 := 0, m;
    var i := f.code[c.pc];
    if i.slot in c.slots && c.slots[i.slot].width == Width(i.ty) {
      BinDest(f, c.pc);
      DestHome(f, c.pc);
      BlockFinal(f, c.pc);
      SlotRead(f, c, m, fr, i.slot);
      var mid := LoadEffect(FinalLocs(f)[i.dest], CellOffset(i.slot), Width(i.ty), m);
      n, m1 := PutAndContinue(image, base, f, addr, c, m, fr, mid, i.dest, c.slots[i.slot].value);
    }
  }

  /** A store changes one local slot and nothing else. */
  lemma {:induction false} AfterStore(f: IrFunc, c: Conf, m: Cpu, mid: Cpu, fr: Frame, w: Word)
    requires WellFormed(f) && Homes(f) && Held(f, c, m, fr) && c.pc < |f.code|
    requires f.code[c.pc].Store? && OnlyScratch(m, mid) && f.code[c.pc].slot < f.stackCount
    ensures var i := f.code[c.pc];
            var kept := Slot(Width(i.ty), Narrow(w, Width(i.ty)));
            Held(f, c.(pc := c.pc + 1, slots := c.slots[i.slot := kept]),
              Stored(mid, CellOffset(i.slot), w, Width(i.ty)), fr)
  {
    hide WellFormed, StateAt, Visible, AlignedStackSize, LoadCell, StoreCell, Narrow, CellOffset, Sound, Width;
    var i := f.code[c.pc];
    var width := Width(i.ty);
    var c1 := c.(pc := c.pc + 1, slots := c.slots[i.slot := Slot(width, Narrow(w, width))]);
    var m1 := Stored(mid, CellOffset(i.slot), w, width);
    NothingPending(f, c.pc);
    ScratchKeepsPointers(m, mid);
    CellExact(mid.regs[RBP], i.slot);
    StoreThenLoad(Read(mid.mem, Cell(mid.regs[RBP], i.slot)), w, width);
    forall v | v in c1.vregs
      ensures v in FinalLocs(f) && (Visible(f, c1.pc, v) ==> ValueAt(m1, FinalLocs(f)[v]) == c1.vregs[v])
    {
      if Visible(f, c1.pc, v) {
        VisibleBefore(f, c.pc, v);
        HomeIs(f, v);
        HomeUntouched(m, mid, FinalLocs(f)[v]);
        CellExact(mid.regs[RBP], f.stackCount + v);
      }
    }
  }

  lemma {:induction false} SimulateStore(image: seq<Byte>, base: int, f: IrFunc, addr: map<string, Word>, c: Conf,
                                         m: Cpu, fr: Frame)
    returns (n: nat, m1: Cpu)
    requires Ready(image, base, f, addr, c, m, fr) && f.code[c.pc].Store?
    ensures Next(f, c).Go? ==> Simulates(image, f, base, Next(f, c).c, m, fr, n, m1)
  {
    hide WellFormed, Homes, Loaded, Held, BlockAt, Put, OnlyScratch, FinalLocs, StateAt, Offset, Steps, ValueAt,
      Takes, LoadCell, CellOffset, StoreSized, Stored, Narrow;
    n, m1 := 0, m;
    var i := f.code[c.pc];
    if i.src1 in c.vregs {
      assert i.src1 in UsedRegs(i);
      ReadHome(f, c, m, fr, i.src1);
      BinDest(f, c.pc);
      BlockFinal(f, c.pc);
      var w := c.vregs[i.src1];
      var mid := StoreEffect(FinalLocs(f)[i.src1], CellOffset(i.slot), Width(i.ty), m);
      AfterStore(f, c, m, mid, fr, w);
      var ms := Stored(mid, CellOffset(i.slot), w, Width(i.ty));
      RunContinue(image, base, f, addr, c.pc, m, ms);
      n := |BlockAt(f, c.pc).body|;
      m1 := ms.(pc := base + Offset(f, c.pc + 1));
      HeldAtPc(f, Next(f, c).c, ms, fr, m1.pc);
    }
  }

  /** ARG and LABEL have no code. */
  lemma {:induction false} SimulateSilent(image: seq<Byte>, base: int, f: IrFunc, addr: map<string, Word>, c: Conf,
                                          m: Cpu, fr: Frame)
    returns (n: nat, m1: Cpu)
    requires Ready(image, base, f, addr, c, m, fr) && (f.code[c.pc].Arg? || f.code[c.pc].Label?)
    ensures Next(f, c).Go? ==> Simulates(image, f, base, Next(f, c).c, m, fr, n, m1)
  {
    hide WellFormed, Homes, Loaded, Held, Offset, BlockAt, BlockSize;
    n, m1 := 0, m;
    if Next(f, c).Go? {
      NoBlock(f, c.pc);
      SilentHeld(f, c, m, fr);
    }
  }

  /** An ARG only adds to the pending arguments, and a label does nothing. */
  lemma {:induction false} SilentHeld(f: IrFunc, c: Conf, m: Cpu, fr: Frame)
    requires WellFormed(f) && Homes(f) && Held(f, c, m, fr) && c.pc < |f.code|
    requires (f.code[c.pc].Arg? || f.code[c.pc].Label?) && Next(f, c).Go?
    ensures Held(f, Next(f, c).c, m, fr)
  {
    hide WellFormed, Homes, FinalLocs, ValueAt, Visible, AlignedStackSize, LoadCell, Select, LocateAll, Queries;
    var i := f.code[c.pc];
    var c1 := Next(f, c).c;
    if i.Label? {
      NothingPending(f, c.pc);
    }
    assert StateAt(f, c.pc + 1) == Advance(StateAt(f, c.pc), i);
    forall v | v in c1.vregs && Visible(f, c1.pc, v) ensures Visible(f, c.pc, v) {
      NeverDefined(f, c.pc, v);
      VisibleBefore(f, c.pc, v);
    }
  }

  lemma {:induction false} NoBlock(f: IrFunc, i: nat)
    requires i < |f.code| && (f.code[i].Arg? || f.code[i].Label?)
    ensures Offset(f, i + 1) == Offset(f, i)
  {
    BlockFinal(f, i);
  }

  /** Arriving at a label: the last register's home is not relied on there. */
  lemma {:induction false} HeldAtLabel(f: IrFunc, c: Conf, m: Cpu, fr: Frame, t: nat)
    requires WellFormed(f) && Held(f, c, m, fr) && c.pc < |f.code| && !AfterArg(f.code[c.pc])
    requires t < |f.code| && f.code[t].Label?
    ensures Held(f, c.(pc := t), m, fr)
  {
    hide WellFormed, StateAt, LoadCell, AlignedStackSize, FinalLocs, ValueAt, DefinedNear;
    NothingPending(f, c.pc);
    NothingPending(f, t);
  }

  lemma {:induction false} HeldNext(f: IrFunc, c: Conf, m: Cpu, mid: Cpu, fr: Frame)
    requires WellFormed(f) && Homes(f) && Held(f, c, m, fr) && c.pc < |f.code| && !AfterArg(f.code[c.pc])
    requires DefinedReg(f.code[c.pc]) == 0 && OnlyScratch(m, mid)
    ensures Held(f, c.(pc := c.pc + 1), mid, fr)
  {
    hide WellFormed, Homes, StateAt, Visible, AlignedStackSize, LoadCell, ValueAt;
    NothingPending(f, c.pc);
    ScratchKeepsPointers(m, mid);
    forall v | v in c.vregs
      ensures v in FinalLocs(f) && (Visible(f, c.pc + 1, v) ==> ValueAt(mid, FinalLocs(f)[v]) == c.vregs[v])
    {
      if Visible(f, c.pc + 1, v) {
        NeverDefined(f, c.pc, v);
        VisibleBefore(f, c.pc, v);
        HomeIs(f, v);
        HomeUntouched(m, mid, FinalLocs(f)[v]);
      }
    }
  }

  lemma {:induction false} NeverDefined(f: IrFunc, pc: nat, v: nat)
    requires WellFormed(f) && Homes(f) && pc < |f.code| && DefinedReg(f.code[pc]) == 0
    ensures v in FinalLocs(f) ==> DefinedReg(f.code[pc]) != v
  {
  }

  lemma {:induction false} EndBound(f: IrFunc, pc: nat)
    requires WellFormed(f) && pc < |f.code|
    ensures Offset(f, pc) + |EncodeAll(BlockAt(f, pc).body)| + TailSize(BlockAt(f, pc).tail) <= 0x1000_0000
  {
    hide ShapedCode, BlockAt, EncodeAll;
    OffsetBound(f, pc + 1);
  }

  /** The jump that ends a block goes to its label, or falls through. */
  lemma {:induction false} RunJump(image: seq<Byte>, base: int, f: IrFunc, addr: map<string, Word>, pc: nat, m: Cpu)
    requires WellFormed(f) && Loaded(image, base, f, addr) && pc < |f.code|
    requires BlockAt(f, pc).tail.Goto? || BlockAt(f, pc).tail.GotoIf?
    requires m.pc == base + Offset(f, pc) + |EncodeAll(BlockAt(f, pc).body)|
    ensures var b := BlockAt(f, pc);
            var taken := b.tail.Goto? || Holds(b.tail.cc, m.flags);
            Step(image, m) == Running(m.(pc := base + if taken then LabelOffset(f, b.tail.id) else Offset(f, pc + 1)))
  {
    hide CodeAt, BlockAt, Loaded, Step, Offset, Displacement, LabelOffset, Encode, Holds;
    var b := BlockAt(f, pc);
    var end := Offset(f, pc) + |EncodeAll(b.body)| + TailSize(b.tail);
    BlockLoaded(image, base, f, addr, pc);
    EndBound(f, pc);
    var rel := Displacement(f, b.tail.id, end);
    DisplacementExact(f, b.tail.id, end);
    var i := if b.tail.Goto? then JmpRel(rel) else JccRel(b.tail.cc, rel);
    assert TailCode(f, b.tail, Offset(f, pc) + |EncodeAll(b.body)|, addr) == [i];
    OneEncoded(i);
    StepDecoded(image, m, i);
    TailLengths(rel, if b.tail.Goto? then CondE else b.tail.cc, 0);
  }

  lemma {:induction false} SimulateJmp(image: seq<Byte>, base: int, f: IrFunc, addr: map<string, Word>, c: Conf,
                                       m: Cpu, fr: Frame)
    returns (n: nat, m1: Cpu)
    requires Ready(image, base, f, addr, c, m, fr) && f.code[c.pc].Jmp?
    ensures Next(f, c).Go? ==> Simulates(image, f, base, Next(f, c).c, m, fr, n, m1) && n > 0
  {
    hide WellFormed, Homes, Loaded, Held, BlockAt, OnlyScratch, FinalLocs, StateAt, Offset, Steps, ValueAt, Takes, Step;
    n, m1 := 1, m;
    var l := f.code[c.pc].id;
    var t := FindLabel(f.code, l, 0);
    if t < |f.code| {
      BlockFinal(f, c.pc);
      RunJump(image, base, f, addr, c.pc, m);
      m1 := m.(pc := base + Offset(f, t));
      OneStep(image, m);
      HeldAtLabel(f, c, m, fr, t);
      HeldAtPc(f, c.(pc := t), m, fr, m1.pc);
    }
  }

  lemma {:induction false} OneStep(image: seq<Byte>, m: Cpu)
    ensures Steps(image, Running(m), 1) == Step(image, m)
  {
    hide Step;
    assert Steps(image, Step(image, m), 0) == Step(image, m);
  }

  /** Where a conditional jump of the IR goes. */
  lemma {:induction false} BranchNext(f: IrFunc, c: Conf)
    requires c.pc < |f.code| && (f.code[c.pc].Jz? || f.code[c.pc].Jnz?) && Next(f, c).Go?
    ensures var i := f.code[c.pc];
            && i.src1 in UsedRegs(i) && i.src1 in c.vregs
            && Next(f, c).c.pc == if (c.vregs[i.src1] == 0) == i.Jz? then FindLabel(f.code, i.id, 0) else c.pc + 1
  {
    hide FindLabel;
  }

  lemma {:induction false} SimulateBranch(image: seq<Byte>, base: int, f: IrFunc, addr: map<string, Word>, c: Conf,
                                          m: Cpu, fr: Frame)
    returns (n: nat, m1: Cpu)
    requires Ready(image, base, f, addr, c, m, fr) && (f.code[c.pc].Jz? || f.code[c.pc].Jnz?)
    ensures Next(f, c).Go? ==> Simulates(image, f, base, Next(f, c).c, m, fr, n, m1) && n > 0
  {
    hide WellFormed, Homes, Loaded, Held, BlockAt, OnlyScratch, FinalLocs, StateAt, Offset, Steps, ValueAt, Takes,
      Step, TestCode, Next, EncodeAll;
    n, m1 := 0, m;
    var i := f.code[c.pc];
    if Next(f, c).Go? {
      BranchNext(f, c);
      ReadHome(f, c, m, fr, i.src1);
      BlockFinal(f, c.pc);
      var b := BlockAt(f, c.pc);
      var a := c.vregs[i.src1];
      var mt := TestEffect(FinalLocs(f)[i.src1], m, a);
      TakesData(b.body, m, mt);
      TakesRuns(b.body, m, mt);
      RunBody(image, base, f, addr, c.pc, m);
      var mj := mt.(pc := base + Offset(f, c.pc) + |EncodeAll(b.body)|);
      RunJump(image, base, f, addr, c.pc, mj);
      n := |b.body| + 1;
      StepsAdd(image, Running(m), |b.body|, 1);
      OneStep(image, mj);
      var c1 := Next(f, c).c;
      m1 := mj.(pc := base + Offset(f, c1.pc));
      BranchHeld(f, c, m, mt, fr, m1.pc);
    }
  }

  /** Wherever the IR branches to, the variables are where they were. */
  lemma {:induction false} BranchHeld(f: IrFunc, c: Conf, m: Cpu, mt: Cpu, fr: Frame, p: int)
    requires WellFormed(f) && Homes(f) && Held(f, c, m, fr) && OnlyScratch(m, mt) && c.pc < |f.code|
    requires (f.code[c.pc].Jz? || f.code[c.pc].Jnz?) && Next(f, c).Go?
    ensures Held(f, Next(f, c).c, mt.(pc := p), fr)
  {
    hide WellFormed, Homes, Held, OnlyScratch;
    var c1 := Next(f, c).c;
    if c1.pc == c.pc + 1 {
      HeldNext(f, c, m, mt, fr);
    } else {
      HeldScratch(f, c, m, mt, fr);
      HeldAtLabel(f, c, mt, fr, c1.pc);
    }
    HeldAtPc(f, c1, mt, fr, p);
  }

  lemma {:induction false} TakesRuns(xs: seq<Inst>, m: Cpu, m1: Cpu)
    requires Takes(xs, m, m1)
    ensures AllData(xs) && EffectAll(xs, m) == Running(m1)
  {
  }

  lemma {:induction false} HeldScratch(f: IrFunc, c: Conf, m: Cpu, mid: Cpu, fr: Frame)
    requires Homes(f) && Held(f, c, m, fr) && OnlyScratch(m, mid)
    ensures Held(f, c, mid, fr)
  {
    hide Homes, StateAt, Visible, AlignedStackSize, LoadCell, ValueAt;
    ScratchKeepsPointers(m, mid);
    forall v | v in c.vregs
      ensures v in FinalLocs(f) && (Visible(f, c.pc, v) ==> ValueAt(mid, FinalLocs(f)[v]) == c.vregs[v])
    {
      HomeIs(f, v);
      HomeUntouched(m, mid, FinalLocs(f)[v]);
    }
  }

  // --- Returning ----------------------------------------------------------------------

  /** The activation is over: the value is in RAX, the caller's registers and memory are as it left them. */
  ghost predicate Exited(fr: Frame, m: Cpu, v: Word) {
    && m.pc == Read(fr.mem, fr.fp + 8) && m.regs[RAX] == v && m.regs[RSP] == fr.fp + 16
    && m.regs[RBP] == Read(fr.mem, fr.fp)
    && (forall i :: 0 <= i < 5 ==> m.regs[SavedRegs[i]] == Read(fr.mem, fr.fp - 8 * (i + 1)))
    && (forall a :: a >= fr.fp + 8 ==> Read(m.mem, a) == Read(fr.mem, a))
  }

  /** The body of a RET: the value goes to RAX, and the frame is closed. */
  lemma {:induction false} RetBody(image: seq<Byte>, base: int, f: IrFunc, addr: map<string, Word>, c: Conf, m: Cpu,
                                   fr: Frame)
    returns (ma: Cpu, mb: Cpu, mr: Cpu)
    requires Ready(image, base, f, addr, c, m, fr) && f.code[c.pc].Ret? && f.code[c.pc].src1 in c.vregs
    ensures ma == SetReg(m, RAX, c.vregs[f.code[c.pc].src1]) && FrameClosed(ma, mb)
    ensures mr == mb.(pc := base + Offset(f, c.pc) + |EncodeAll(BlockAt(f, c.pc).body)|)
    ensures Steps(image, Running(m), |BlockAt(f, c.pc).body|) == Running(mr) && BlockAt(f, c.pc).tail == Leave
  {
    hide WellFormed, Homes, Loaded, Held, BlockAt, OnlyScratch, FinalLocs, StateAt, Offset, Steps, ValueAt, Takes, Step,
      Epilogue, LoadTo, CodeAt, EncodeAll, Encode, FrameClosed;
    var i := f.code[c.pc];
    assert i.src1 in UsedRegs(i);
    ReadHome(f, c, m, fr, i.src1);
    BlockFinal(f, c.pc);
    var b := BlockAt(f, c.pc);
    ma := SetReg(m, RAX, c.vregs[i.src1]);
    LoadToTakes(RAX, FinalLocs(f)[i.src1], m);
    mb := EpilogueEffect(ma);
    TakesBoth(LoadTo(RAX, FinalLocs(f)[i.src1]), Epilogue(), m, ma, mb);
    TakesRuns(b.body, m, mb);
    RunBody(image, base, f, addr, c.pc, m);
    mr := mb.(pc := base + Offset(f, c.pc) + |EncodeAll(b.body)|);
  }

  lemma {:induction false} SimulateRet(image: seq<Byte>, base: int, f: IrFunc, addr: map<string, Word>, c: Conf,
                                       m: Cpu, fr: Frame)
    returns (n: nat, m1: Cpu)
    requires Ready(image, base, f, addr, c, m, fr) && f.code[c.pc].Ret? && f.code[c.pc].src1 in c.vregs
    ensures Steps(image, Running(m), n) == Running(m1) && Exited(fr, m1, c.vregs[f.code[c.pc].src1])
  {
    hide WellFormed, Homes, Loaded, Held, BlockAt, FinalLocs, StateAt, Offset, Steps, Step, CodeAt, EncodeAll, Encode,
      FrameClosed, SetReg;
    var ma, mb, mr := RetBody(image, base, f, addr, c, m, fr);
    var b := BlockAt(f, c.pc);
    BlockLoaded(image, base, f, addr, c.pc);
    OneEncoded(RetNear);
    StepDecoded(image, mr, RetNear);
    n := |b.body| + 1;
    StepsAdd(image, Running(m), |b.body|, 1);
    OneStep(image, mr);
    m1 := SetReg(mr, RSP, mr.regs[RSP] + 8).(pc := Read(mr.mem, mr.regs[RSP]));
    RetIsTaken(f, c, m, fr, ma, mb, mr, m1);
  }

  lemma {:induction false} RetIsTaken(f: IrFunc, c: Conf, m: Cpu, fr: Frame, ma: Cpu, mb: Cpu, mr: Cpu, m1: Cpu)
    requires Held(f, c, m, fr) && c.pc < |f.code| && f.code[c.pc].Ret? && f.code[c.pc].src1 in c.vregs
    requires ma == SetReg(m, RAX, c.vregs[f.code[c.pc].src1]) && FrameClosed(ma, mb) && mr == mb.(pc := mr.pc)
    requires m1 == SetReg(mr, RSP, mr.regs[RSP] + 8).(pc := Read(mr.mem, mr.regs[RSP]))
    ensures Exited(fr, m1, c.vregs[f.code[c.pc].src1])
  {
    hide Held, FrameClosed, Exited;
    ClosedIsExited(f, c, m, fr, ma, mb, m1, c.vregs[f.code[c.pc].src1]);
  }

  lemma {:induction false} ClosedIsExited(f: IrFunc, c: Conf, m: Cpu, fr: Frame, ma: Cpu, mb: Cpu, m1: Cpu, w: Word)
    requires Held(f, c, m, fr) && ma == SetReg(m, RAX, w) && FrameClosed(ma, mb)
    requires m1 == SetReg(mb, RSP, mb.regs[RSP] + 8).(pc := Read(mb.mem, mb.regs[RSP]))
    ensures Exited(fr, m1, w)
  {
    hide VregsHeld, SlotsHeld, ArgsHeld, AlignedStackSize;
    forall i | 0 <= i < 5 ensures m1.regs[SavedRegs[i]] == Read(fr.mem, fr.fp - 8 * (i + 1)) {
      assert mb.regs[SavedRegs[i]] == Read(ma.mem, fr.fp - 8 * (i + 1));
    }
  }
}
