/** The compiler as a whole: running the bytes is running the program. */
module Compiler {
  import opened Words
  import opened Ast
  import opened Source
  import opened Typing
  import opened Ir
  import opened Lowering
  import opened LoweringCorrect
  import opened IrShape
  import opened X86
  import opened Machine
  import opened Encoders
  import opened CodeLayout
  import opened Simulation
  import opened CallSimulation
  import opened Divergence

  /** The linked machine code of every function lies in the image at its address. */
  ghost predicate Linked(image: seq<Byte>, q: IrProgram, addr: map<string, Word>) {
    forall fn :: fn in q ==> fn in addr && CodeAt(image, addr[fn], CodeBytes(q[fn], |q[fn].code|, addr))
  }

  /** `q` is exactly the lowered program. */
  ghost predicate LoweredTo(p: Program, q: IrProgram) {
    Compiled(p, q) && q.Keys == p.Keys
  }

  lemma {:induction false} LinkedIsInstalled(p: Program, q: IrProgram, image: seq<Byte>, addr: map<string, Word>)
    requires LoweredTo(p, q) && Linked(image, q, addr)
    ensures Installed(image, q, addr)
  {
    hide WellFormed, CodeAt, LowerFunc, TypedFunc, CodeBytes, Loaded, Encode;
    forall fn | fn in q ensures WellFormed(q[fn]) && fn in addr && Loaded(image, addr[fn], q[fn], addr) {
      LoweredIsWellFormed(p[fn]);
      FunctionLoaded(image, addr[fn], q[fn], addr);
    }
  }

  lemma {:induction false} FunctionLoaded(image: seq<Byte>, base: int, f: IrFunc, addr: map<string, Word>)
    requires CodeAt(image, base, CodeBytes(f, |f.code|, addr))
    ensures Loaded(image, base, f, addr)
  {
    hide CodeAt, CodeBytes, Prologue, Offset, BlockBytes, EncodeAll;
    LoadedFromBytes(image, base, f, addr, |f.code|);
  }

  /**
    Compiler correctness. Whenever calling function `fn` of a typed program settles in a
    value or a trap, calling its machine code under the System V convention comes back with
    that value in RAX, the stack pointer popped, the callee-saved registers and the memory
    of the caller unchanged; or it faults.
   */
  lemma {:induction false} CompilerCorrect(p: Program, q: IrProgram, image: seq<Byte>, addr: map<string, Word>,
                                           fn: string, args: seq<Word>, e: Cpu, fuel: nat)
    returns (n: nat, m: Cpu)
    requires LoweredTo(p, q) && Linked(image, q, addr) && fn in p
    requires Entered(e, args) && fn in addr && e.pc == addr[fn]
    requires Final(Invoke(p, fn, args, [], fuel))
    ensures RunsTo(image, e, Invoke(p, fn, args, [], fuel), n, m)
  {
    hide Compiled, Linked, Installed, Entered, CameBack, Steps, Invoke;
    LinkedIsInstalled(p, q, image, addr);
    var k := InvokeCorrect(p, q, fn, args, [], fuel);
    assert RunFunc(q, fn, args, [], k) == Invoke(p, fn, args, [], fuel);
    n, m := CalleeSimulated(image, q, addr, fn, args, [], e, k);
  }

  /** No amount of fuel settles the call. */
  ghost predicate Diverges(p: Program, fn: string, args: seq<Word>) {
    forall fuel: nat :: Invoke(p, fn, args, [], fuel) == OutOfFuel
  }

  /** A call that never ends in the source keeps the processor running for ever. */
  lemma {:induction false} CompilerDiverges(p: Program, q: IrProgram, image: seq<Byte>, addr: map<string, Word>,
                                            fn: string, args: seq<Word>, e: Cpu)
    requires LoweredTo(p, q) && Linked(image, q, addr) && fn in p
    requires Entered(e, args) && fn in addr && e.pc == addr[fn]
    requires Diverges(p, fn, args)
    ensures NeverReturns(image, e)
  {
    hide Compiled, Linked, Installed, Entered, RunsForever, NeverReturns, Invoke;
    LinkedIsInstalled(p, q, image, addr);
    forall k: nat ensures RunFunc(q, fn, args, [], k) == OutOfFuel {
      assert Invoke(p, fn, args, [], k) == OutOfFuel;
      var m := InvokeCorrect(p, q, fn, args, [], k);
    }
    EndlessRunsForever(image, q, addr, fn, args, [], e);
    ForeverAway(image, e);
  }
}
