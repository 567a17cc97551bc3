/** Where the cells of a frame lie, and when the one below the stack pointer is in use. */
module FrameSafety {
  import opened Words
  import opened Ir
  import opened IrShape
  import opened X86
  import opened Encoders
  import opened Allocation
  import opened Simulation

  /** The stack pointer while a function runs, outside calls. */
  function FrameBottom(f: IrFunc, fp: int): int {
    fp - CALLEE_SAVED_SIZE - AlignedStackSize(f)
  }

  function CellCount(f: IrFunc): nat {
    f.stackCount + f.vregCount
  }

  predicate CellsApart(a: int, b: int) {
    a + WORD_SIZE <= b || b + WORD_SIZE <= a
  }

  /**
    The cells of locals and registers do not overlap, lie strictly below the saved registers,
    and lie at or above the stack pointer, except for one: when the number of cells is odd,
    the cell of the last register is the word just below it.
   */
  lemma {:induction false} FrameIsSafe(f: IrFunc, fp: int, i: nat, j: nat)
    requires i < CellCount(f) && j < CellCount(f)
    ensures i != j ==> CellsApart(Cell(fp, i), Cell(fp, j))
    ensures Cell(fp, i) + WORD_SIZE < fp - CALLEE_SAVED_SIZE
    ensures Cell(fp, i) < FrameBottom(f, fp) <==> CellCount(f) % 2 == 1 && i == CellCount(f) - 1
    ensures Cell(fp, i) >= FrameBottom(f, fp) - WORD_SIZE
  {
    Padded(f);
  }

  lemma {:induction false} Padded(f: IrFunc)
    ensures AlignedStackSize(f) == 8 * CellCount(f) + if CellCount(f) % 2 == 1 then 0 else 8
    ensures (2 * WORD_SIZE + CALLEE_SAVED_SIZE + AlignedStackSize(f)) % STACK_ALIGNMENT == 0
  {
    var n := CellCount(f);
    var h := n / 2;
    var usage := 2 * WORD_SIZE + CALLEE_SAVED_SIZE + n * WORD_SIZE;
    if n % 2 == 1 {
      assert usage == 16 * (h + 4);
    } else {
      assert usage == 16 * (h + 3) + 8;
    }
  }

  /** The home of a register is in a register of its own, or in its own cell. */
  lemma {:induction false} HomeCell(f: IrFunc, fp: int, v: nat)
    requires WellFormed(f) && v in FinalLocs(f) && FinalLocs(f)[v].OnStack?
    ensures f.stackCount + v < CellCount(f) && fp + FinalLocs(f)[v].offset == Cell(fp, f.stackCount + v)
  {
    hide WellFormed, StateAt, CellOffset;
    HomesOf(f);
    assert FinalLocs(f) == StateAt(f, |f.code|).alloc.locs;
    CellExact(fp, f.stackCount + v);
  }

  /**
    Nothing is lost in the cell below the stack pointer: at a call, neither an argument nor
    any register whose home is relied on after the call is the last one, but for the result.
   */
  lemma {:induction false} LowestCellIdle(f: IrFunc, fp: int, pc: nat, v: nat)
    requires WellFormed(f) && pc < |f.code| && f.code[pc].CallFn? && v in FinalLocs(f) && FinalLocs(f)[v].OnStack?
    requires v in StateAt(f, pc).pending || (Visible(f, pc + 1, v) && v != f.code[pc].dest)
    ensures fp + FinalLocs(f)[v].offset >= FrameBottom(f, fp)
  {
    hide WellFormed, StateAt, CellOffset, Visible, AlignedStackSize;
    if v in StateAt(f, pc).pending {
      ArgsBelowTop(f, pc, v);
    } else {
      CallHidesTop(f, pc, v);
    }
    HomeCell(f, fp, v);
    FrameIsSafe(f, fp, f.stackCount + v, f.stackCount + v);
  }
}
