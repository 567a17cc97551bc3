/** Runs without end: where the IR runs on for ever, so does the processor. */
module Divergence {
  import opened Words
  import opened Source
  import opened Ir
  import opened IrShape
  import opened X86
  import opened Machine
  import opened Encoders
  import opened Allocation
  import opened CodeLayout
  import opened CallProtocol
  import opened Simulation
  import opened CallSimulation

  /** No amount of fuel settles the run from `c`. */
  ghost predicate Endless(q: IrProgram, f: IrFunc, c: Conf) {
    forall k: nat :: Run(q, f, c, k) == OutOfFuel
  }

  ghost predicate EndlessCall(q: IrProgram, fn: string, args: seq<Word>, tr: Trace) {
    forall k: nat :: RunFunc(q, fn, args, tr, k) == OutOfFuel
  }

  lemma {:induction false} EndlessStep(q: IrProgram, f: IrFunc, c: Conf)
    requires Endless(q, f, c)
    ensures c.pc < |f.code|
    ensures !f.code[c.pc].CallFn? ==> Next(f, c).Go? && Endless(q, f, Next(f, c).c)
  {
    hide RunFunc, AfterCall;
    assert Run(q, f, c, 1) == OutOfFuel;
    if !f.code[c.pc].CallFn? {
      assert Next(f, c).Go?;
      forall k: nat ensures Run(q, f, Next(f, c).c, k) == OutOfFuel {
        assert Run(q, f, c, k + 1) == OutOfFuel;
      }
    }
  }

  /** A call in an endless run does not end, or it returns to an endless run. */
  lemma {:induction false} EndlessAtCall(q: IrProgram, f: IrFunc, c: Conf) returns (k: nat)
    requires Endless(q, f, c) && c.pc < |f.code| && f.code[c.pc].CallFn?
    ensures var call := f.code[c.pc];
            var tr := c.trace + [Event(call.fn, c.args)];
            var o := RunFunc(q, call.fn, c.args, tr, k);
            EndlessCall(q, call.fn, c.args, tr)
            || (o.Returned? && Endless(q, f, AfterCall(c, call.dest, o.value, o.trace)))
  {
    hide AfterCall, RunFunc, Next;
    var call := f.code[c.pc];
    var tr := c.trace + [Event(call.fn, c.args)];
    k := 0;
    if !EndlessCall(q, call.fn, c.args, tr) {
      k :| RunFunc(q, call.fn, c.args, tr, k) != OutOfFuel;
      var o := RunFunc(q, call.fn, c.args, tr, k);
      assert Run(q, f, c, k + 1) == OutOfFuel;
      var c1 := AfterCall(c, call.dest, o.value, o.trace);
      forall j: nat ensures Run(q, f, c1, j) == OutOfFuel {
        RunFuncMonotone(q, call.fn, c.args, tr, k, k + j);
        assert Run(q, f, c, k + j + 1) == OutOfFuel;
        if Run(q, f, c1, j) != OutOfFuel {
          RunMonotone(q, f, c1, j, k + j);
        }
      }
    }
  }

  lemma {:induction false} EndlessEntry(q: IrProgram, fn: string, args: seq<Word>, tr: Trace)
    requires EndlessCall(q, fn, args, tr)
    ensures fn in q && |args| == q[fn].params && Endless(q, q[fn], Initial(args, tr))
  {
    hide Initial;
    assert RunFunc(q, fn, args, tr, 0) == OutOfFuel;
    forall k: nat ensures Run(q, q[fn], Initial(args, tr), k) == OutOfFuel {
      assert RunFunc(q, fn, args, tr, k) == OutOfFuel;
    }
  }

  /** The processor takes `least` steps and more, and is running still. */
  ghost predicate RunsOn(image: seq<Byte>, m: Cpu, least: int, n: nat) {
    n >= least && Steps(image, Running(m), n).Running?
  }

  lemma {:induction false} RunsOnLater(image: seq<Byte>, m: Cpu, n: nat, m1: Cpu, least: int, n1: nat)
    requires Steps(image, Running(m), n) == Running(m1) && RunsOn(image, m1, least, n1)
    ensures RunsOn(image, m, least + n, n + n1)
  {
    hide Steps;
    StepsAdd(image, Running(m), n, n1);
  }

  /**
    An endless run of the IR keeps the processor busy: jumps and calls take time, and between
    them the code is finite.
   */
  lemma {:induction false} EndlessRunsOn(image: seq<Byte>, q: IrProgram, addr: map<string, Word>, fn: string, c: Conf,
                                         m: Cpu, fr: Frame, least: nat)
    returns (n: nat)
    requires Installed(image, q, addr) && fn in q && Homes(q[fn]) && fn in addr
    requires Related(q[fn], addr[fn], c, m, fr) && Endless(q, q[fn], c)
    ensures RunsOn(image, m, least, n)
    decreases least, 2, |q[fn].code| - c.pc
  {
    hide WellFormed, Homes, Loaded, Held, Steps, Run, Next, Installed, Offset, FinalLocs, Endless, RunsOn;
    if least == 0 {
      n := 0;
      StandsStill(image, m);
      return;
    }
    var f := q[fn];
    var base := addr[fn];
    InstalledAt(image, q, addr, fn);
    EndlessStep(q, f, c);
    if f.code[c.pc].CallFn? {
      n := EndlessCallRunsOn(image, q, addr, fn, c, m, fr, least);
    } else {
      var n1, m1 := SimulateStep(image, base, f, addr, c, m, fr);
      var c1 := Next(f, c).c;
      EndlessStep(q, f, c1);
      var n2 := EndlessRunsOn(image, q, addr, fn, c1, m1, fr, if n1 > 0 then least - 1 else least);
      RunsOnLater(image, m, n1, m1, if n1 > 0 then least - 1 else least, n2);
      n := n1 + n2;
      Enough(image, m, least, n, if n1 > 0 then least - 1 + n1 else least);
    }
  }

  lemma {:induction false} StandsStill(image: seq<Byte>, m: Cpu)
    ensures RunsOn(image, m, 0, 0)
  {
  }

  lemma {:induction false} Enough(image: seq<Byte>, m: Cpu, least: int, n: nat, more: int)
    requires RunsOn(image, m, more, n) && least <= more
    ensures RunsOn(image, m, least, n)
  {
    hide Steps;
  }

  lemma {:induction false} EndlessCallRunsOn(image: seq<Byte>, q: IrProgram, addr: map<string, Word>, fn: string,
                                             c: Conf, m: Cpu, fr: Frame, least: nat)
    returns (n: nat)
    requires Installed(image, q, addr) && fn in q && Homes(q[fn]) && fn in addr && least > 0
    requires Related(q[fn], addr[fn], c, m, fr) && Endless(q, q[fn], c)
    requires c.pc < |q[fn].code| && q[fn].code[c.pc].CallFn?
    ensures RunsOn(image, m, least, n)
    decreases least, 1
  {
    hide WellFormed, Homes, Loaded, Held, Steps, BlockAt, ArgsPassed, CameBack, CodeAt, Entered, Run, RunFunc,
      Installed,
      Offset, EncodeAll, Endless, RunsOn, EndlessCall;
    var f := q[fn];
    var base := addr[fn];
    var call := f.code[c.pc];
    var tr := c.trace + [Event(call.fn, c.args)];
    var k := EndlessAtCall(q, f, c);
    InstalledAt(image, q, addr, fn);
    var n2 := 0;
    if EndlessCall(q, call.fn, c.args, tr) {
      EndlessEntry(q, call.fn, c.args, tr);
      InstalledAt(image, q, addr, call.fn);
      var n1, ms, e, next := BeforeCall(image, base, f, addr, c, m, fr);
      n2 := EndlessCalleeRunsOn(image, q, addr, call.fn, c.args, tr, e, least - 1);
      RunsOnLater(image, m, n1, e, least - 1, n2);
      n := n1 + n2;
      Enough(image, m, least, n, least - 1 + n1);
    } else {
      var o := RunFunc(q, call.fn, c.args, tr, k);
      CalleeKnown(q, call.fn, c.args, tr, k);
      InstalledAt(image, q, addr, call.fn);
      var n1, ms, e, next := BeforeCall(image, base, f, addr, c, m, fr);
      var n2, m2 := CalleeSimulated(image, q, addr, call.fn, c.args, tr, e, k);
      StepsAdd(image, Running(m), n1, n2);
      var n3, m3 := AfterReturn(image, base, f, addr, c, m, fr, ms, e, next, m2, o.value, o.trace);
      StepsAdd(image, Running(m), n1 + n2, n3);
      var n4 := EndlessRunsOn(image, q, addr, fn, AfterCall(c, call.dest, o.value, o.trace), m3, fr, least - 1);
      RunsOnLater(image, m, n1 + n2 + n3, m3, least - 1, n4);
      n := n1 + n2 + n3 + n4;
      Enough(image, m, least, n, least - 1 + (n1 + n2 + n3));
    }
  }

  lemma {:induction false} CalleeKnown(q: IrProgram, fn: string, args: seq<Word>, tr: Trace, k: nat)
    requires RunFunc(q, fn, args, tr, k).Returned?
    ensures fn in q
  {
    hide Run;
  }

  /** The same for a function entered with its arguments in place. */
  lemma {:induction false} EndlessCalleeRunsOn(image: seq<Byte>, q: IrProgram, addr: map<string, Word>, fn: string,
                                               args: seq<Word>, tr: Trace, e: Cpu, least: nat)
    returns (n: nat)
    requires Installed(image, q, addr) && EndlessCall(q, fn, args, tr)
    requires Entered(e, args) && fn in addr && e.pc == addr[fn]
    ensures RunsOn(image, e, least, n)
    decreases least, 3
  {
    hide WellFormed, Homes, Loaded, Related, Steps, Entered, FrameFor, Endless, RunsOn, EndlessCall, Run, Installed;
    EndlessEntry(q, fn, args, tr);
    var f := q[fn];
    InstalledAt(image, q, addr, fn);
    HomesOf(f);
    var n1, m, fr := EnterFunction(image, addr[fn], f, addr, args, tr, e);
    var n2 := EndlessRunsOn(image, q, addr, fn, Initial(args, tr), m, fr, least);
    RunsOnLater(image, e, n1, m, least, n2);
    n := n1 + n2;
    Enough(image, e, least, n, least + n1);
  }

  // --- For ever ---------------------------------------------------------------------------

  /** The processor is running after any number of steps: it neither faults nor leaves the code. */
  ghost predicate RunsForever(image: seq<Byte>, e: Cpu) {
    forall n: nat :: Steps(image, Running(e), n).Running?
  }

  lemma {:induction false} EarlierRunning(image: seq<Byte>, s: State, n: nat, k: nat)
    requires Steps(image, s, n).Running? && k <= n
    ensures Steps(image, s, k).Running?
  {
    StepsAdd(image, s, k, n - k);
  }

  lemma {:induction false} EndlessRunsForever(image: seq<Byte>, q: IrProgram, addr: map<string, Word>, fn: string,
                                              args: seq<Word>, tr: Trace, e: Cpu)
    requires Installed(image, q, addr) && EndlessCall(q, fn, args, tr)
    requires Entered(e, args) && fn in addr && e.pc == addr[fn]
    ensures RunsForever(image, e)
  {
    hide Steps, Installed, EndlessCall, Entered;
    forall k: nat ensures Steps(image, Running(e), k).Running? {
      var n := EndlessCalleeRunsOn(image, q, addr, fn, args, tr, e, k);
      EarlierRunning(image, Running(e), n, k);
    }
  }

  /** Nothing can be executed at `a`. */
  predicate NoCodeAt(image: seq<Byte>, a: int) {
    !(0 <= a <= |image|) || Decode(image[a..]).None?
  }

  /** Where a call entered in state `e` goes back to. */
  function ReturnAddress(e: Cpu): int {
    Read(e.mem, e.regs[RSP])
  }

  /** Whoever gets to where there is no code does not run for ever. */
  lemma {:induction false} ForeverInCode(image: seq<Byte>, e: Cpu, n: nat)
    requires RunsForever(image, e)
    ensures var s := Steps(image, Running(e), n); s.Running? && !NoCodeAt(image, s.cpu.pc)
  {
    hide Execute, Decode;
    var s := Steps(image, Running(e), n);
    StepsAdd(image, Running(e), n, 1);
    assert Steps(image, Running(e), n + 1).Running?;
    OneStep(image, s.cpu);
  }

  /** It runs for ever and never comes to `a`. */
  ghost predicate StaysAway(image: seq<Byte>, e: Cpu, a: int) {
    forall n: nat :: Steps(image, Running(e), n).Running? && Steps(image, Running(e), n).cpu.pc != a
  }

  /** It runs for ever; where nothing can be executed at the return address, it never comes back there. */
  ghost predicate NeverReturns(image: seq<Byte>, e: Cpu) {
    RunsForever(image, e) && (NoCodeAt(image, ReturnAddress(e)) ==> StaysAway(image, e, ReturnAddress(e)))
  }

  lemma {:induction false} ForeverAway(image: seq<Byte>, e: Cpu)
    requires RunsForever(image, e)
    ensures NeverReturns(image, e)
  {
    hide Steps, NoCodeAt;
    forall n: nat ensures !NoCodeAt(image, Steps(image, Running(e), n).cpu.pc) {
      ForeverInCode(image, e, n);
    }
  }
}
