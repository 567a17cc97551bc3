/** Entering a function, calling one, and whole runs: the call protocol and the main simulation. */
module CallSimulation {
  import opened Limits
  import opened Words
  import opened Ast
  import opened Source
  import opened Ir
  import opened IrShape
  import opened Lowering
  import opened X86
  import opened Machine
  import opened Encoders
  import opened Allocation
  import opened CodeLayout
  import opened Templates
  import opened CallProtocol
  import opened Simulation

  // --- Entering a function -------------------------------------------------------------

  /**
    The registers of the first six arguments by their numbers: RDI, RSI, RDX, RCX, R8 and R9
    (System V AMD64 ABI, section 3.2.3).
   */
  function ConventionReg(i: nat): (r: Reg)
    requires i < 6
    ensures r == ArgRegs[i]
  {
    if i == 0 then 7 else if i == 1 then 6 else if i == 2 then 2 else if i == 3 then 1 else 4 + i
  }

  /** The machine state right after a CALL with arguments `args`. */
  ghost predicate Entered(e: Cpu, args: seq<Word>) {
    && e.regs[RSP] % 16 == 8
    && (forall i :: 0 <= i < |args| && i < 6 ==> e.regs[ConventionReg(i)] == args[i])
    && (forall i :: 0 <= i < |args| - 6 ==> Read(e.mem, e.regs[RSP] + 8 + 8 * i) == args[6 + i])
  }

  lemma {:induction false} RoundedUp(usage: nat)
    ensures (usage + if usage % 16 == 0 then 0 else 16 - usage % 16) % 16 == 0
  {
  }

  lemma {:induction false} SmallWrap32(n: nat)
    requires n < 0x8000_0000
    ensures Wrap32(n) == n
  {
  }

  lemma {:induction false} StackSizeFacts(f: IrFunc)
    requires f.stackCount + f.vregCount < MAX_CELLS
    ensures var size := AlignedStackSize(f);
            && size >= 8 * (f.stackCount + f.vregCount) && size % 16 == 8 && size < 0x40_0000
            && Wrap32(size) == size
  {
    hide Wrap32;
    var raw := (f.stackCount + f.vregCount) * WORD_SIZE;
    RoundedUp(2 * WORD_SIZE + CALLEE_SAVED_SIZE + raw);
    SmallWrap32(AlignedStackSize(f));
  }

  /** Where the callee finds parameter `i`. */
  function Incoming(m: Cpu, i: nat): int {
    if i < REG_ARGS then m.regs[ArgRegs[i]] else Read(m.mem, m.regs[RBP] + 16 + 8 * (i - REG_ARGS))
  }

  lemma {:induction false} ParamEffect(i: nat, loc: Location, m: Cpu) returns (mid: Cpu)
    requires IsHome(loc) && i < MAX_VREGS
    ensures mid == m || mid == SetReg(m, RAX, Incoming(m, i))
    ensures Takes(ParamCode(i, loc), m, Put(mid, loc, Incoming(m, i)))
  {
    mid := m;
    if i < REG_ARGS {
      match loc
      case InReg(r) => TakesOne(MovReg(r, ArgRegs[i]), m, Put(m, loc, Incoming(m, i)));
      case OnStack(disp) => TakesOne(StoreLocal(ArgRegs[i], disp), m, Put(m, loc, Incoming(m, i)));
    } else {
      var from := Wrap32(2 * WORD_SIZE + (i - REG_ARGS) * WORD_SIZE);
      assert Local(m, from) == m.regs[RBP] + 16 + 8 * (i - REG_ARGS);
      match loc
      case InReg(r) => TakesOne(LoadLocal(r, from), m, Put(m, loc, Incoming(m, i)));
      case OnStack(disp) =>
        mid := SetReg(m, RAX, Incoming(m, i));
        TakesOne(LoadLocal(RAX, from), m, mid);
        TakesOne(StoreLocal(RAX, disp), mid, Put(mid, loc, Incoming(m, i)));
        TakesBoth([LoadLocal(RAX, from)], [StoreLocal(RAX, disp)], m, mid, Put(mid, loc, Incoming(m, i)));
        assert [LoadLocal(RAX, from)] + [StoreLocal(RAX, disp)] == [LoadLocal(RAX, from), StoreLocal(RAX, disp)];
    }
  }

  /** The first `j` parameters are in their homes; the rest is where the caller put it. */
  ghost predicate ParamsHome(f: IrFunc, m0: Cpu, m: Cpu, j: nat) {
    && m.pc == m0.pc && m.regs[RBP] == m0.regs[RBP] && m.regs[RSP] == m0.regs[RSP]
    && (forall i :: 0 <= i < 6 ==> m.regs[ArgRegs[i]] == m0.regs[ArgRegs[i]])
    && (forall a :: a >= m0.regs[RBP] - CALLEE_SAVED_SIZE ==> Read(m.mem, a) == Read(m0.mem, a))
    && (forall v :: 1 <= v <= j && v in FinalLocs(f) ==> ValueAt(m, FinalLocs(f)[v]) == Incoming(m0, v - 1))
  }

  lemma {:induction false} ParamPlaced(f: IrFunc, m0: Cpu, m: Cpu, mid: Cpu, j: nat)
    requires Homes(f) && j + 1 in FinalLocs(f) && ParamsHome(f, m0, m, j)
    requires mid == m || mid == SetReg(m, RAX, Incoming(m, j))
    ensures ParamsHome(f, m0, Put(mid, FinalLocs(f)[j + 1], Incoming(m, j)), j + 1)
  {
    hide Homes, StateAt, Put, ValueAt;
    var w := Incoming(m, j);
    var m1 := Put(mid, FinalLocs(f)[j + 1], w);
    PutElsewhere(f, mid, j + 1, w);
    forall v | 1 <= v <= j + 1 && v in FinalLocs(f) ensures ValueAt(m1, FinalLocs(f)[v]) == Incoming(m0, v - 1) {
      if v <= j {
        HomeIs(f, v);
        assert OnlyScratch(m, mid);
        HomeUntouched(m, mid, FinalLocs(f)[v]);
      }
    }
  }

  lemma {:induction false} ParamsEffect(f: IrFunc, m0: Cpu, j: nat) returns (m: Cpu)
    requires WellFormed(f) && Homes(f) && j <= f.params
    ensures Takes(ParamsCode(StartState(f).alloc.locs, j), m0, m) && ParamsHome(f, m0, m, j)
  {
    hide WellFormed, Homes, ParamCode, Takes, FinalLocs, StartState, Put, Incoming, ParamsHome;
    if j == 0 {
      m := m0;
      NoCode(m0);
      NoParams(f, m0);
    } else {
      var ma := ParamsEffect(f, m0, j - 1);
      ParamLocated(f, j);
      var loc := FinalLocs(f)[j];
      var mid := ParamEffect(j - 1, loc, ma);
      m := Put(mid, loc, Incoming(ma, j - 1));
      TakesBoth(ParamsCode(StartState(f).alloc.locs, j - 1), ParamCode(j - 1, loc), m0, ma, m);
      ParamPlaced(f, m0, ma, mid, j - 1);
    }
  }

  lemma {:induction false} NoParams(f: IrFunc, m0: Cpu)
    ensures ParamsHome(f, m0, m0, 0)
  {
  }

  lemma {:induction false} ParamLocated(f: IrFunc, j: nat)
    requires WellFormed(f) && Homes(f) && 1 <= j <= f.params
    ensures j in FinalLocs(f) && LocationOf(StartState(f).alloc.locs, j) == FinalLocs(f)[j] && IsHome(FinalLocs(f)[j])
    ensures f.params < MAX_VREGS
  {
    hide ShapedCode, Homes, FinalLocs, StartState;
    ParamsLocated(f);
    HomeIs(f, j);
  }

  /** The frame a function sets up, as seen by whoever called it. */
  ghost predicate FrameFor(e: Cpu, fr: Frame) {
    && fr.fp == e.regs[RSP] - 8
    && Read(fr.mem, fr.fp) == e.regs[RBP]
    && (forall i :: 0 <= i < 5 ==> Read(fr.mem, fr.fp - 8 * (i + 1)) == e.regs[SavedRegs[i]])
    && (forall a :: a >= e.regs[RSP] ==> Read(fr.mem, a) == Read(e.mem, a))
  }

  lemma {:induction false} PrologueEffect(f: IrFunc, e: Cpu) returns (ms: Cpu, m0: Cpu, m: Cpu)
    requires WellFormed(f) && Homes(f)
    ensures Takes(Prologue(f), e, m) && FrameOpened(e, ms) && ParamsHome(f, m0, m, f.params)
    ensures m0 == SetReg(ms, RSP, ms.regs[RSP] - AlignedStackSize(f))
  {
    hide WellFormed, Takes, ParamsCode, SaveCode, FrameOpened, ParamsHome, AlignedStackSize, Sound;
    StackSizeFacts(f);
    ms := SaveEffect(e);
    m0 := SetReg(ms, RSP, ms.regs[RSP] - AlignedStackSize(f));
    TakesOne(SubImm(RSP, Wrap32(AlignedStackSize(f))), ms, m0);
    TakesBoth(SaveCode(), [SubImm(RSP, Wrap32(AlignedStackSize(f)))], e, ms, m0);
    m := ParamsEffect(f, m0, f.params);
    TakesBoth(SaveCode() + [SubImm(RSP, Wrap32(AlignedStackSize(f)))], ParamsCode(StartState(f).alloc.locs, f.params),
      e, m0, m);
  }

  lemma {:induction false} ArgsArrive(f: IrFunc, args: seq<Word>, e: Cpu, ms: Cpu, m0: Cpu)
    requires Entered(e, args) && FrameOpened(e, ms) && m0 == SetReg(ms, RSP, ms.regs[RSP] - AlignedStackSize(f))
    ensures forall i :: 0 <= i < |args| ==> Incoming(m0, i) == args[i]
  {
    hide AlignedStackSize;
    forall i | 0 <= i < |args| ensures Incoming(m0, i) == args[i] {
      if i < 6 {
        assert m0.regs[ArgRegs[i]] == e.regs[ArgRegs[i]];
      } else {
        assert Read(e.mem, e.regs[RSP] + 8 + 8 * (i - 6)) == args[6 + (i - 6)];
      }
    }
  }

  lemma {:induction false} EntryHeld(f: IrFunc, args: seq<Word>, tr: Trace, e: Cpu, ms: Cpu, m0: Cpu, m: Cpu)
    requires WellFormed(f) && Homes(f) && |args| == f.params && Entered(e, args)
    requires FrameOpened(e, ms) && ParamsHome(f, m0, m, f.params)
    requires m0 == SetReg(ms, RSP, ms.regs[RSP] - AlignedStackSize(f))
    ensures var fr := Frame(ms.regs[RBP], ms.mem); Held(f, Initial(args, tr), m, fr) && FrameFor(e, fr)
  {
    hide WellFormed, Homes, FinalLocs, ValueAt, Visible, AlignedStackSize, LoadCell, StateAt, Incoming;
    var c := Initial(args, tr);
    ArgsArrive(f, args, e, ms, m0);
    StartPending(f);
    forall v | v in c.vregs
      ensures v in FinalLocs(f) && (Visible(f, c.pc, v) ==> ValueAt(m, FinalLocs(f)[v]) == c.vregs[v])
    {
      ParamLocated(f, v);
      assert Incoming(m0, v - 1) == args[v - 1];
    }
  }

  lemma {:induction false} EnterFunction(image: seq<Byte>, base: int, f: IrFunc, addr: map<string, Word>,
                                         args: seq<Word>, tr: Trace, e: Cpu)
    returns (n: nat, m: Cpu, fr: Frame)
    requires WellFormed(f) && Homes(f) && Loaded(image, base, f, addr)
    requires |args| == f.params && Entered(e, args) && e.pc == base
    ensures Steps(image, Running(e), n) == Running(m)
    ensures Related(f, base, Initial(args, tr), m, fr) && FrameFor(e, fr)
  {
    hide WellFormed, Homes, Prologue, Takes, FrameOpened, ParamsHome, Held, FrameFor, EncodeAll, Entered, CodeAt,
      BlockBytes;
    var ms, m0, mp := PrologueEffect(f, e);
    TakesRuns(Prologue(f), e, mp);
    RunStraight(image, Prologue(f), e);
    EntryHeld(f, args, tr, e, ms, m0, mp);
    n := |Prologue(f)|;
    m := mp.(pc := base + |EncodeAll(Prologue(f))|);
    fr := Frame(ms.regs[RBP], ms.mem);
    HeldAtPc(f, Initial(args, tr), mp, fr, m.pc);
  }

  // --- Calling ---------------------------------------------------------------------------

  /** Back from the callee: its value in RAX, our registers, stack pointer and memory as before. */
  ghost predicate CameBack(e: Cpu, m: Cpu, v: Word) {
    && m.pc == Read(e.mem, e.regs[RSP]) && m.regs[RAX] == v && m.regs[RSP] == e.regs[RSP] + 8
    && (forall r: Reg :: Kept(r) ==> m.regs[r] == e.regs[r])
    && (forall a :: a >= e.regs[RSP] ==> Read(m.mem, a) == Read(e.mem, a))
  }

  lemma {:induction false} ExitedCameBack(e: Cpu, fr: Frame, m: Cpu, v: Word)
    requires FrameFor(e, fr) && Exited(fr, m, v)
    ensures CameBack(e, m, v)
  {
    forall r: Reg | Kept(r) ensures m.regs[r] == e.regs[r] {
      if Allocatable(r) {
        var i := if r == 3 then 0 else r - 11;
        assert SavedRegs[i] == r;
      }
    }
  }

  /** Arguments of a call live where pushes cannot reach them. */
  lemma {:induction false} ArgsSafe(f: IrFunc, c: Conf, m: Cpu, fr: Frame)
    requires WellFormed(f) && Homes(f) && Held(f, c, m, fr) && c.pc < |f.code| && f.code[c.pc].CallFn?
    ensures var p := StateAt(f, c.pc).pending;
            && (forall v :: v in p ==> Safe(m, LocationOf(FinalLocs(f), v)))
            && ValuesOf(m, FinalLocs(f), p) == c.args && m.regs[RSP] % 16 == 0
  {
    hide WellFormed, StateAt, Sound, AlignedStackSize, LoadCell, ValueAt;
    var p := StateAt(f, c.pc).pending;
    StackSizeFacts(f);
    forall i | 0 <= i < |p|
      ensures Safe(m, LocationOf(FinalLocs(f), p[i])) && ValueAt(m, LocationOf(FinalLocs(f), p[i])) == c.args[i]
    {
      ArgsBelowTop(f, c.pc, p[i]);
      assert p[i] in c.vregs && p[i] in FinalLocs(f);
      HomeIs(f, p[i]);
    }
  }

  lemma {:induction false} RunCallTail(image: seq<Byte>, base: int, f: IrFunc, addr: map<string, Word>, pc: nat, m: Cpu)
    returns (e: Cpu, next: int)
    requires Loaded(image, base, f, addr) && pc < |f.code| && m.regs[RSP] % 16 == 0
    requires BlockAt(f, pc).tail.Dispatch? && BlockAt(f, pc).tail.fn in addr
    requires m.pc == base + Offset(f, pc) + |EncodeAll(BlockAt(f, pc).body)|
    ensures var b := BlockAt(f, pc);
            && Steps(image, Running(m), 2) == Running(e)
            && e == SetReg(SetReg(m, RAX, addr[b.tail.fn]), RSP, m.regs[RSP] - 8).(pc := addr[b.tail.fn],
              mem := m.mem[m.regs[RSP] - 8 := next])
            && CodeAt(image, next, EncodeAll(b.tail.after))
            && next + |EncodeAll(b.tail.after)| == base + Offset(f, pc + 1)
  {
    hide CodeAt, BlockAt, Loaded, Offset, Encode, Step;
    var b := BlockAt(f, pc);
    BlockLoaded(image, base, f, addr, pc);
    var i1, i2 := MovImm(RAX, addr[b.tail.fn]), CallReg(RAX);
    EncodeAllAppend([i1, i2], b.tail.after);
    TwoEncoded(i1, i2);
    CodeSplit(image, m.pc, Encode(i1) + Encode(i2), EncodeAll(b.tail.after));
    CodeSplit(image, m.pc, Encode(i1), Encode(i2));
    TailLengths(0, CondE, addr[b.tail.fn]);
    StepDecoded(image, m, i1);
    var ma := SetReg(m, RAX, addr[b.tail.fn]).(pc := m.pc + 10);
    StepDecoded(image, ma, i2);
    next := m.pc + 12;
    e := SetReg(ma, RSP, m.regs[RSP] - 8).(pc := addr[b.tail.fn], mem := m.mem[m.regs[RSP] - 8 := next]);
    StepsAdd(image, Running(m), 1, 1);
    OneStep(image, m);
    OneStep(image, ma);
  }

  lemma {:induction false} EnteredAfterCall(m: Cpu, m1: Cpu, e: Cpu, next: int, args: seq<Word>)
    requires ArgsPassed(m, m1, args)
    requires e.mem == m1.mem[m1.regs[RSP] - 8 := next] && e.regs == m1.regs[RAX := e.regs[RAX]][RSP := m1.regs[RSP] - 8]
    ensures Entered(e, args)
  {
    forall i | 0 <= i < |args| - 6 ensures Read(e.mem, e.regs[RSP] + 8 + 8 * i) == args[6 + i] {
      assert Read(m1.mem, m1.regs[RSP] + 8 * i) == args[RegArgs(|args|) + i];
    }
  }

  lemma {:induction false} CleanupEffect(n: nat, dest: Location, m: Cpu) returns (m1: Cpu)
    requires IsHome(dest) && n < MAX_CELLS
    ensures m1 == SetReg(m, RSP, m.regs[RSP] + 8 * (n - RegArgs(n)) + Padding(n))
    ensures Takes(CallCleanup(n, dest), m, Put(m1, dest, m.regs[RAX]))
  {
    var bytes := (n - RegArgs(n)) * WORD_SIZE + Padding(n);
    m1 := SetReg(m, RSP, m.regs[RSP] + bytes);
    StoreFromTakes(dest, m1);
    if n > REG_ARGS {
      assert Wrap32(bytes) == bytes;
      TakesOne(AddImm(RSP, Wrap32(bytes)), m, m1);
      TakesBoth([AddImm(RSP, Wrap32(bytes))], StoreFrom(dest, RAX), m, m1, Put(m1, dest, m.regs[RAX]));
    } else {
      assert m1.regs == m.regs;
      assert [] + StoreFrom(dest, RAX) == StoreFrom(dest, RAX);
    }
  }

  /**
    What the caller has when the callee is back, before storing the result: its own state but
    for dead stack and scratch.
   */
  ghost predicate Restored(m: Cpu, m1: Cpu) {
    && m1.regs[RSP] == m.regs[RSP]
    && (forall r: Reg :: Kept(r) ==> m1.regs[r] == m.regs[r])
    && (forall a :: a >= m.regs[RSP] ==> Read(m1.mem, a) == Read(m.mem, a))
  }

  lemma {:induction false} BackRestored(m: Cpu, m1: Cpu, e: Cpu, next: int, m2: Cpu, m3: Cpu, args: seq<Word>, v: Word)
    requires ArgsPassed(m, m1, args) && CameBack(e, m2, v)
    requires e.mem == m1.mem[m1.regs[RSP] - 8 := next] && e.regs == m1.regs[RAX := e.regs[RAX]][RSP := m1.regs[RSP] - 8]
    requires m3 == SetReg(m2, RSP, m2.regs[RSP] + 8 * (|args| - RegArgs(|args|)) + Padding(|args|))
    ensures Restored(m, m3) && m2.pc == next
  {
  }

  lemma {:induction false} AfterCallHeld(f: IrFunc, c: Conf, m: Cpu, m3: Cpu, fr: Frame, v: Word, tr: Trace)
    requires WellFormed(f) && Homes(f) && Held(f, c, m, fr) && c.pc < |f.code| && f.code[c.pc].CallFn?
    requires Restored(m, m3) && f.code[c.pc].dest in FinalLocs(f)
    ensures var d := f.code[c.pc].dest; Held(f, AfterCall(c, d, v, tr), Put(m3, FinalLocs(f)[d], v), fr)
  {
    hide WellFormed, StateAt, Sound, AlignedStackSize, LoadCell, ValueAt, Visible, Put;
    var d := f.code[c.pc].dest;
    var c1 := AfterCall(c, d, v, tr);
    var m1 := Put(m3, FinalLocs(f)[d], v);
    PutElsewhere(f, m3, d, v);
    StackSizeFacts(f);
    CallPending(f, c.pc);
    forall x | x in c1.vregs
      ensures x in FinalLocs(f) && (Visible(f, c1.pc, x) ==> ValueAt(m1, FinalLocs(f)[x]) == c1.vregs[x])
    {
      if x != d && Visible(f, c1.pc, x) {
        CallHidesTop(f, c.pc, x);
        VisibleBefore(f, c.pc, x);
        HomeIs(f, x);
        HomeRestored(f, m, m3, x);
      }
    }
  }

  lemma {:induction false} CallPending(f: IrFunc, i: nat)
    requires i < |f.code| && f.code[i].CallFn?
    ensures StateAt(f, i + 1).pending == []
  {
  }

  lemma {:induction false} HomeRestored(f: IrFunc, m: Cpu, m3: Cpu, v: nat)
    requires Homes(f) && v in FinalLocs(f) && v < f.vregCount - 1 && Restored(m, m3)
    requires m.regs[RSP] == m.regs[RBP] - CALLEE_SAVED_SIZE - AlignedStackSize(f)
    ensures ValueAt(m3, FinalLocs(f)[v]) == ValueAt(m, FinalLocs(f)[v])
  {
    hide StateAt, Sound, AlignedStackSize;
    StackSizeFacts(f);
    HomeIs(f, v);
  }

  // --- Whole runs ---------------------------------------------------------------------------

  /** Every function's code is in the image, at the address that calls use for it. */
  ghost predicate Installed(image: seq<Byte>, q: IrProgram, addr: map<string, Word>) {
    forall fn :: fn in q ==> WellFormed(q[fn]) && fn in addr && Loaded(image, addr[fn], q[fn], addr)
  }

  predicate Final(o: Outcome) {
    o.Returned? || o.Trapped?
  }

  ghost predicate Finishes(image: seq<Byte>, m: Cpu, fr: Frame, o: Outcome, n: nat, m1: Cpu) {
    match o
    case Returned(v, _) => Steps(image, Running(m), n) == Running(m1) && Exited(fr, m1, v)
    case _ => Steps(image, Running(m), n) == Fault
  }

  /** Entered at `e`, the machine comes back with the value of `o`, or faults. */
  ghost predicate RunsTo(image: seq<Byte>, e: Cpu, o: Outcome, n: nat, m: Cpu) {
    match o
    case Returned(v, _) => Steps(image, Running(e), n) == Running(m) && CameBack(e, m, v)
    case _ => Steps(image, Running(e), n) == Fault
  }

  lemma {:induction false} FinishesLater(image: seq<Byte>, m: Cpu, n: nat, m1: Cpu, fr: Frame, o: Outcome, n1: nat,
                                         m2: Cpu)
    requires Steps(image, Running(m), n) == Running(m1) && Finishes(image, m1, fr, o, n1, m2)
    ensures Finishes(image, m, fr, o, n + n1, m2)
  {
    hide Steps;
    StepsAdd(image, Running(m), n, n1);
  }

  /** One instruction, other than a call. A step that does not go to the next instruction takes time. */
  lemma {:induction false} SimulateStep(image: seq<Byte>, base: int, f: IrFunc, addr: map<string, Word>, c: Conf,
                                        m: Cpu, fr: Frame)
    returns (n: nat, m1: Cpu)
    requires Ready(image, base, f, addr, c, m, fr) && !f.code[c.pc].CallFn?
    ensures Next(f, c).Go? ==> Simulates(image, f, base, Next(f, c).c, m, fr, n, m1)
    ensures Next(f, c).Go? ==> n > 0 || Next(f, c).c.pc == c.pc + 1
    ensures Next(f, c).End? && Final(Next(f, c).outcome) ==> Finishes(image, m, fr, Next(f, c).outcome, n, m1)
  {
    hide Simulates, WellFormed, Exited, Homes, Loaded, Related, Held;
    match f.code[c.pc]
    case Bin(_, _, _, _) => n, m1 := SimulateBin(image, base, f, addr, c, m, fr);
    case Un(_, _, _) => n, m1 := SimulateUn(image, base, f, addr, c, m, fr);
    case Mov(_, _) => n, m1 := SimulateUn(image, base, f, addr, c, m, fr);
    case Const(_, _) => n, m1 := SimulateUn(image, base, f, addr, c, m, fr);
    case Load(_, _, _) => n, m1 := SimulateLoad(image, base, f, addr, c, m, fr);
    case Store(_, _, _) => n, m1 := SimulateStore(image, base, f, addr, c, m, fr);
    case Arg(_, _) => n, m1 := SimulateSilent(image, base, f, addr, c, m, fr);
    case Label(_) => n, m1 := SimulateSilent(image, base, f, addr, c, m, fr);
    case Jmp(_) => n, m1 := SimulateJmp(image, base, f, addr, c, m, fr);
    case Jz(_, _) => n, m1 := SimulateBranch(image, base, f, addr, c, m, fr);
    case Jnz(_, _) => n, m1 := SimulateBranch(image, base, f, addr, c, m, fr);
    case Ret(v) =>
      n, m1 := 0, m;
      if v in c.vregs {
        n, m1 := SimulateRet(image, base, f, addr, c, m, fr);
      }
  }

  /** From a CALL instruction to the entry of the callee. */
  lemma {:induction false} BeforeCall(image: seq<Byte>, base: int, f: IrFunc, addr: map<string, Word>, c: Conf,
                                      m: Cpu, fr: Frame)
    returns (n: nat, m1: Cpu, e: Cpu, next: int)
    requires Ready(image, base, f, addr, c, m, fr) && f.code[c.pc].CallFn? && f.code[c.pc].fn in addr
    ensures n > 0
    ensures var call := f.code[c.pc];
            && Steps(image, Running(m), n) == Running(e) && e.pc == addr[call.fn] && Entered(e, c.args)
            && ArgsPassed(m, m1, c.args)
            && e.mem == m1.mem[m1.regs[RSP] - 8 := next]
            && e.regs == m1.regs[RAX := e.regs[RAX]][RSP := m1.regs[RSP] - 8]
            && var b := BlockAt(f, c.pc);
            && b.tail.Dispatch? && CodeAt(image, next, EncodeAll(b.tail.after))
            && next + |EncodeAll(b.tail.after)| == base + Offset(f, c.pc + 1)
  {
    hide WellFormed, Homes, Loaded, Held, BlockAt, FinalLocs, StateAt, Offset, Steps, Takes, CallSetup, CodeAt,
      EncodeAll, ArgsPassed, Entered, Safe, CallCleanup;
    var p := StateAt(f, c.pc).pending;
    ArgsSafe(f, c, m, fr);
    BlockFinal(f, c.pc);
    var b := BlockAt(f, c.pc);
    var ms := CallSetupEffect(FinalLocs(f), p, m);
    TakesRuns(b.body, m, ms);
    RunBody(image, base, f, addr, c.pc, m);
    m1 := ms.(pc := base + Offset(f, c.pc) + |EncodeAll(b.body)|);
    PassedAligned(m, ms, c.args, m1);
    e, next := RunCallTail(image, base, f, addr, c.pc, m1);
    StepsAdd(image, Running(m), |b.body|, 2);
    n := |b.body| + 2;
    SameRegs(m1, e, addr[f.code[c.pc].fn]);
    m1 := ms;
    EnteredAfterCall(m, ms, e, next, c.args);
  }

  lemma {:induction false} PassedAligned(m: Cpu, m1: Cpu, vals: seq<int>, m2: Cpu)
    requires ArgsPassed(m, m1, vals) && m2.regs == m1.regs
    ensures m2.regs[RSP] % 16 == 0
  {
  }

  lemma {:induction false} SameRegs(m1: Cpu, e: Cpu, w: Word)
    requires e.regs == m1.regs[RAX := w][RSP := m1.regs[RSP] - 8]
    ensures e.regs == m1.regs[RAX := e.regs[RAX]][RSP := m1.regs[RSP] - 8]
  {
  }

  /** From the return of the callee to the instruction after the CALL. */
  lemma {:induction false} AfterReturn(image: seq<Byte>, base: int, f: IrFunc, addr: map<string, Word>, c: Conf,
                                       m: Cpu, fr: Frame, m1: Cpu, e: Cpu, next: int, m2: Cpu, v: Word, tr: Trace)
    returns (n: nat, m3: Cpu)
    requires Ready(image, base, f, addr, c, m, fr) && f.code[c.pc].CallFn?
    requires ArgsPassed(m, m1, c.args) && CameBack(e, m2, v)
    requires e.mem == m1.mem[m1.regs[RSP] - 8 := next] && e.regs == m1.regs[RAX := e.regs[RAX]][RSP := m1.regs[RSP] - 8]
    requires var b := BlockAt(f, c.pc);
             && b.tail.Dispatch? && CodeAt(image, next, EncodeAll(b.tail.after))
             && next + |EncodeAll(b.tail.after)| == base + Offset(f, c.pc + 1)
    ensures Simulates(image, f, base, AfterCall(c, f.code[c.pc].dest, v, tr), m2, fr, n, m3)
  {
    hide WellFormed, Homes, Loaded, Held, BlockAt, FinalLocs, StateAt, Offset, Steps, Takes, CallSetup, CodeAt,
      EncodeAll, ArgsPassed, CallCleanup, Restored, Put;
    var d := f.code[c.pc].dest;
    BinDest(f, c.pc);
    DestHome(f, c.pc);
    BlockFinal(f, c.pc);
    PendingCount(f, c, m, fr);
    var loc := FinalLocs(f)[d];
    var after := BlockAt(f, c.pc).tail.after;
    var mr := CleanupEffect(|c.args|, loc, m2);
    BackRestored(m, m1, e, next, m2, mr, c.args, v);
    var mp := Put(mr, loc, v);
    TakesRuns(after, m2, mp);
    BackAt(e, m2, v);
    RunStraight(image, after, m2);
    n := |after|;
    m3 := mp.(pc := base + Offset(f, c.pc + 1));
    AfterCallHeld(f, c, m, mr, fr, v, tr);
    HeldAtPc(f, AfterCall(c, d, v, tr), mp, fr, m3.pc);
  }

  lemma {:induction false} BackAt(e: Cpu, m2: Cpu, v: Word)
    requires CameBack(e, m2, v)
    ensures m2.regs[RAX] == v
  {
  }

  lemma {:induction false} PendingCount(f: IrFunc, c: Conf, m: Cpu, fr: Frame)
    requires Held(f, c, m, fr) && WellFormed(f) && Homes(f)
    ensures |c.args| == |StateAt(f, c.pc).pending| && |c.args| < MAX_CELLS
  {
    hide ShapedCode, Homes, StateAt;
    PendingLength(f, c.pc);
  }

  lemma {:induction false} PendingLength(f: IrFunc, i: nat)
    requires i <= |f.code|
    ensures |StateAt(f, i).pending| <= i
  {
    hide LocateAll;
    if i > 0 {
      PendingLength(f, i - 1);
    }
  }

  /**
    Forward simulation of a run: the processor, started in a state related to the IR
    configuration, returns the same value to the caller, or faults where the IR traps.
   */
  lemma {:induction false} RunSimulated(image: seq<Byte>, q: IrProgram, addr: map<string, Word>, fn: string, c: Conf,
                                        m: Cpu, fr: Frame, fuel: nat)
    returns (n: nat, m1: Cpu)
    requires Installed(image, q, addr) && fn in q && Homes(q[fn]) && fn in addr
    requires Related(q[fn], addr[fn], c, m, fr) && Final(Run(q, q[fn], c, fuel))
    ensures Finishes(image, m, fr, Run(q, q[fn], c, fuel), n, m1)
    decreases fuel, 0
  {
    hide WellFormed, Homes, Loaded, Held, Steps, Finishes, Exited, Run, Next, Installed, Offset, FinalLocs;
    var f := q[fn];
    var base := addr[fn];
    InstalledAt(image, q, addr, fn);
    RunUnfolds(q, f, c, fuel);
    if f.code[c.pc].CallFn? {
      n, m1 := CallStepSimulated(image, q, addr, fn, c, m, fr, fuel);
    } else {
      var n1, m2 := SimulateStep(image, base, f, addr, c, m, fr);
      match Next(f, c)
      case Go(c1) =>
        var n2, m3 := RunSimulated(image, q, addr, fn, c1, m2, fr, fuel - 1);
        FinishesLater(image, m, n1, m2, fr, Run(q, f, c, fuel), n2, m3);
        n, m1 := n1 + n2, m3;
      case End(_) => n, m1 := n1, m2;
    }
  }

  lemma {:induction false} InstalledAt(image: seq<Byte>, q: IrProgram, addr: map<string, Word>, fn: string)
    requires Installed(image, q, addr) && fn in q
    ensures WellFormed(q[fn]) && fn in addr && Loaded(image, addr[fn], q[fn], addr)
  {
    hide WellFormed, Loaded;
  }

  lemma {:induction false} RunUnfolds(q: IrProgram, f: IrFunc, c: Conf, fuel: nat)
    requires Final(Run(q, f, c, fuel))
    ensures fuel > 0 && c.pc < |f.code|
    ensures !f.code[c.pc].CallFn? ==>
              Run(q, f, c, fuel) == match Next(f, c) case Go(c1) => Run(q, f, c1, fuel - 1) case End(o) => o
  {
    hide Next, RunFunc;
  }

  lemma {:induction false} CallStepSimulated(image: seq<Byte>, q: IrProgram, addr: map<string, Word>, fn: string,
                                             c: Conf, m: Cpu, fr: Frame, fuel: nat)
    returns (n: nat, m1: Cpu)
    requires Installed(image, q, addr) && fn in q && Homes(q[fn]) && fn in addr
    requires Related(q[fn], addr[fn], c, m, fr) && Final(Run(q, q[fn], c, fuel)) && fuel > 0
    requires c.pc < |q[fn].code| && q[fn].code[c.pc].CallFn?
    ensures Finishes(image, m, fr, Run(q, q[fn], c, fuel), n, m1)
    decreases fuel - 1, 2
  {
    hide WellFormed, Homes, Loaded, Held, Steps, Exited, BlockAt, ArgsPassed, CameBack, CodeAt, Entered, Run, RunFunc,
      Installed, Offset, EncodeAll, Finishes;
    var f := q[fn];
    var base := addr[fn];
    var call := f.code[c.pc];
    var tr := c.trace + [Event(call.fn, c.args)];
    var o := RunFunc(q, call.fn, c.args, tr, fuel - 1);
    RunAtCall(q, f, c, fuel);
    InstalledAt(image, q, addr, fn);
    InstalledAt(image, q, addr, call.fn);
    var n1, ms, e, next := BeforeCall(image, base, f, addr, c, m, fr);
    var n2, m2 := CalleeSimulated(image, q, addr, call.fn, c.args, tr, e, fuel - 1);
    StepsAdd(image, Running(m), n1, n2);
    if o.Returned? {
      var v, tr1 := o.value, o.trace;
      var n3, m3 := AfterReturn(image, base, f, addr, c, m, fr, ms, e, next, m2, v, tr1);
      StepsAdd(image, Running(m), n1 + n2, n3);
      var n4, m4 := RunSimulated(image, q, addr, fn, AfterCall(c, call.dest, v, tr1), m3, fr, fuel - 1);
      FinishesLater(image, m, n1 + n2 + n3, m3, fr, Run(q, f, c, fuel), n4, m4);
      n, m1 := n1 + n2 + n3 + n4, m4;
    } else {
      n, m1 := n1 + n2, m;
      FaultFinishes(image, m, fr, o, n, m1);
    }
  }

  lemma {:induction false} FaultFinishes(image: seq<Byte>, m: Cpu, fr: Frame, o: Outcome, n: nat, m1: Cpu)
    requires !o.Returned? && Steps(image, Running(m), n) == Fault
    ensures Finishes(image, m, fr, o, n, m1)
  {
    hide Steps;
  }

  lemma {:induction false} RunAtCall(q: IrProgram, f: IrFunc, c: Conf, fuel: nat)
    requires Final(Run(q, f, c, fuel)) && fuel > 0 && c.pc < |f.code| && f.code[c.pc].CallFn?
    ensures var call := f.code[c.pc];
            var o := RunFunc(q, call.fn, c.args, c.trace + [Event(call.fn, c.args)], fuel - 1);
            && call.fn in q && Final(o)
            && Run(q, f, c, fuel) ==
               match o case Returned(v, tr) => Run(q, f, AfterCall(c, call.dest, v, tr), fuel - 1) case _ => o
  {
    hide Next;
  }

  /**
    The call protocol, caller's and callee's side together: a function entered with its
    arguments in place comes back with its value, or faults.
   */
  lemma {:induction false} CalleeSimulated(image: seq<Byte>, q: IrProgram, addr: map<string, Word>, fn: string,
                                           args: seq<Word>, tr: Trace, e: Cpu, fuel: nat)
    returns (n: nat, m1: Cpu)
    requires Installed(image, q, addr) && Final(RunFunc(q, fn, args, tr, fuel))
    requires Entered(e, args) && fn in addr && e.pc == addr[fn]
    ensures RunsTo(image, e, RunFunc(q, fn, args, tr, fuel), n, m1)
    decreases fuel, 1
  {
    hide WellFormed, Homes, Loaded, Related, Steps, Exited, CameBack, Entered, FrameFor;
    var f := q[fn];
    HomesOf(f);
    var n1, m, fr := EnterFunction(image, addr[fn], f, addr, args, tr, e);
    var n2, m2 := RunSimulated(image, q, addr, fn, Initial(args, tr), m, fr, fuel);
    StepsAdd(image, Running(e), n1, n2);
    n, m1 := n1 + n2, m2;
    match RunFunc(q, fn, args, tr, fuel)
    case Returned(v, _) => ExitedCameBack(e, fr, m2, v);
    case _ =>
  }
}
