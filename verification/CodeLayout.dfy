/** Where the code of each instruction lies, and that jumps reach their labels. */
module CodeLayout {
  import opened Limits
  import opened Words
  import opened Ir
  import opened IrShape
  import opened Lowering
  import opened X86
  import opened Machine
  import opened Encoders
  import opened Allocation

  lemma {:induction false} EncodeAllAppend(xs: seq<Inst>, ys: seq<Inst>)
    ensures EncodeAll(xs + ys) == EncodeAll(xs) + EncodeAll(ys)
    decreases |xs|
  {
    hide Encode;
    if xs == [] {
      assert xs + ys == ys;
    } else {
      assert (xs + ys)[1..] == xs[1..] + ys;
      EncodeAllAppend(xs[1..], ys);
    }
  }

  lemma {:induction false} EncodeAllSize(xs: seq<Inst>)
    ensures |EncodeAll(xs)| <= 10 * |xs|
    decreases |xs|
  {
    hide Encode;
    if xs != [] {
      EncodeAllSize(xs[1..]);
    }
  }

  lemma {:induction false} OneEncoded(i: Inst)
    ensures EncodeAll([i]) == Encode(i)
  {
    hide Encode;
    assert EncodeAll([i][1..]) == [];
  }

  lemma {:induction false} TwoEncoded(i: Inst, j: Inst)
    ensures EncodeAll([i, j]) == Encode(i) + Encode(j)
  {
    hide Encode;
    EncodeAllAppend([i], [j]);
    OneEncoded(i);
    OneEncoded(j);
    assert [i] + [j] == [i, j];
  }

  lemma {:induction false} TailLengths(rel: Int32, cc: Cond, w: Word)
    ensures |Encode(JmpRel(rel))| == 5 && |Encode(JccRel(cc, rel))| == 6 && |Encode(RetNear)| == 1
    ensures |Encode(MovImm(RAX, w))| == 10 && |Encode(CallReg(RAX))| == 2
  {
  }

  lemma {:induction false} TailBytes(f: IrFunc, t: Tail, at: nat, addr: map<string, Word>)
    ensures |EncodeAll(TailCode(f, t, at, addr))| == TailSize(t)
  {
    hide Displacement, Encode, EncodeAll;
    match t
    case Dispatch(fn, after) =>
      var w := if fn in addr then addr[fn] else PLACEHOLDER;
      EncodeAllAppend([MovImm(RAX, w), CallReg(RAX)], after);
      TwoEncoded(MovImm(RAX, w), CallReg(RAX));
      TailLengths(0, CondE, w);
    case Goto(l) =>
      OneEncoded(JmpRel(Displacement(f, l, at + 5)));
      TailLengths(Displacement(f, l, at + 5), CondE, 0);
    case GotoIf(cc, l) =>
      OneEncoded(JccRel(cc, Displacement(f, l, at + 6)));
      TailLengths(Displacement(f, l, at + 6), cc, 0);
    case Leave =>
      OneEncoded(RetNear);
      TailLengths(0, CondE, 0);
    case Continue => NothingEncoded();
  }

  lemma {:induction false} NothingEncoded()
    ensures EncodeAll([]) == []
  {
  }

  /** Pass 1 and pass 2 agree: the bytes of the first `n` instructions fill `Offset(f, n)`. */
  lemma {:induction false} CodeBytesSize(f: IrFunc, n: nat, addr: map<string, Word>)
    requires n <= |f.code|
    ensures |CodeBytes(f, n, addr)| == Offset(f, n)
  {
    hide BlockAt, TailCode, TailSize, EncodeAll, Prologue, LabelOffset, Displacement;
    if n > 0 {
      CodeBytesSize(f, n - 1, addr);
      var b := BlockAt(f, n - 1);
      TailBytes(f, b.tail, Offset(f, n - 1) + |EncodeAll(b.body)|, addr);
    }
  }

  /** The code of `f` lies at `base` in the image, block by block. */
  ghost predicate Loaded(image: seq<Byte>, base: int, f: IrFunc, addr: map<string, Word>) {
    && CodeAt(image, base, EncodeAll(Prologue(f)))
    && forall i :: 0 <= i < |f.code| ==> CodeAt(image, base + Offset(f, i), BlockBytes(f, i, addr))
  }

  lemma {:induction false} LoadedFromBytes(image: seq<Byte>, base: int, f: IrFunc, addr: map<string, Word>, n: nat)
    requires n <= |f.code| && CodeAt(image, base, CodeBytes(f, n, addr))
    ensures CodeAt(image, base, EncodeAll(Prologue(f)))
    ensures forall i :: 0 <= i < n ==> CodeAt(image, base + Offset(f, i), BlockBytes(f, i, addr))
    decreases n
  {
    hide CodeAt, BlockBytes, Prologue, Offset;
    if n > 0 {
      CodeSplit(image, base, CodeBytes(f, n - 1, addr), BlockBytes(f, n - 1, addr));
      CodeBytesSize(f, n - 1, addr);
      LoadedFromBytes(image, base, f, addr, n - 1);
    }
  }

  // --- Displacements fit -------------------------------------------------------------

  lemma {:induction false} PushAllSize(locs: Locations, vs: seq<nat>, direct: bool)
    ensures |PushAllCode(locs, vs, direct)| <= 2 * |vs|
    decreases |vs|
  {
    if vs != [] {
      PushAllSize(locs, vs[1..], direct);
    }
  }

  lemma {:induction false} PopSize(regs: seq<Reg>)
    ensures |PopCode(regs)| == |regs| == |PushRegsCode(regs)|
    decreases |regs|
  {
    if regs != [] {
      PopSize(regs[1..]);
    }
  }

  lemma {:induction false} SelectSize(i: Instr, pending: seq<nat>, locs: Locations)
    ensures var b := Select(i, pending, locs);
            BlockSize(b) <= 110 + 20 * if i.CallFn? then |pending| else 0
  {
    hide Encode, CellOffset, EncodeAll, LoadSized, StoreSized, LocationOf, CallSetup, CallCleanup;
    var b := Select(i, pending, locs);
    EncodeAllSize(b.body);
    match i
    case CallFn(d, _) => CallSize(d, pending, locs);
    case Ret(_) => PopSize([R15, R14, R13, R12, RBX, RBP]);
    case _ =>
  }

  lemma {:induction false} CallSize(d: nat, pending: seq<nat>, locs: Locations)
    ensures |EncodeAll(CallSetup(locs, pending))| + 12 + |EncodeAll(CallCleanup(|pending|, LocationOf(locs, d)))| <= 110
            + 20 * |pending|
  {
    hide Encode, EncodeAll, LocationOf, PushAllCode, PopCode;
    var k := RegArgs(|pending|);
    EncodeAllSize(CallSetup(locs, pending));
    PushAllSize(locs, pending[k..], false);
    PushAllSize(locs, pending[..k], true);
    PopSize(ArgRegs[..k]);
    EncodeAllSize(CallCleanup(|pending|, LocationOf(locs, d)));
  }

  lemma {:induction false} ParamsCodeSize(locs: Locations, n: nat)
    ensures |ParamsCode(locs, n)| <= 2 * n
  {
    hide ParamCode;
    if n > 0 {
      ParamsCodeSize(locs, n - 1);
      ParamCodeSize(n - 1, LocationOf(locs, n));
    }
  }

  lemma {:induction false} ParamCodeSize(i: nat, loc: Location)
    ensures |ParamCode(i, loc)| <= 2
  {
  }

  /** Each pending argument pays in advance for the push that its call will make. */
  lemma {:induction false} OffsetBound(f: IrFunc, i: nat)
    requires i <= |f.code|
    ensures Offset(f, i) + 20 * |StateAt(f, i).pending| <= 90 + 20 * f.params + 130 * i
  {
    hide Select, EncodeAll, LocateAll, BlockSize, Prologue;
    if i == 0 {
      PrologueSize(f);
    } else {
      OffsetBound(f, i - 1);
      SelectSize(f.code[i - 1], StateAt(f, i - 1).pending, StateAt(f, i).alloc.locs);
    }
  }

  lemma {:induction false} PrologueSize(f: IrFunc)
    ensures |EncodeAll(Prologue(f))| <= 90 + 20 * f.params
  {
    hide EncodeAll, LocateAll, ParamsCode, AlignedStackSize, PushRegsCode;
    EncodeAllSize(Prologue(f));
    PopSize([RBX, R12, R13, R14, R15]);
    ParamsCodeSize(StartState(f).alloc.locs, f.params);
  }

  /** A jump to a placed label lands on the label's code. */
  lemma {:induction false} DisplacementExact(f: IrFunc, l: nat, end: nat)
    requires |f.code| < MAX_IR_INSTRUCTIONS && f.params < MAX_VREGS && end <= 0x1000_0000
    ensures Displacement(f, l, end) == LabelOffset(f, l) - end
  {
    hide Offset;
    OffsetBound(f, FindLabel(f.code, l, 0));
  }

  lemma {:induction false} OffsetGrows(f: IrFunc, i: nat, j: nat)
    requires i <= j <= |f.code|
    ensures Offset(f, i) <= Offset(f, j)
    decreases j
  {
    hide BlockAt;
    if i < j {
      OffsetGrows(f, i, j - 1);
    }
  }
}
