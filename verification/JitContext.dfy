/**
  The JIT context: register allocation, encoding, backpatching and linking in place.
  Its methods compute the functions on `Jit` and `Output` values.
 */
module JitContexts {
  import opened Limits
  import opened Words
  import opened Ast
  import opened Ir
  import opened IrShape
  import opened X86
  import opened Encoders
  import opened CodeLayout
  import opened Emission
  import opened Jits
  import opened Backpatching
  import opened Linking

  class JitContext {
    const vregMap: array<Option<Location>>
    const physRegs: array<bool>
    var stackBase: nat
    var pending: seq<nat>
    const labelOffset: array<nat>
    const labelDefined: array<bool>
    var patches: seq<Patch>
    var callSites: seq<CallSite>
    var registry: seq<CompiledFunction>

    /** The executable memory, from which code is allocated in steps of 16 bytes. */
    const code: array<Byte>
    const imageBase: nat
    var top: nat

    /** What has been compiled so far, in the order of the registry. */
    ghost var units: seq<Unit>

    ghost predicate Valid() {
      && vregMap.Length == MAX_VREGS
      && physRegs.Length == 16
      && labelOffset.Length == labelDefined.Length == MAX_LABELS
      && physRegs != labelDefined
    }

    ghost function Enc(): (s: EncState)
      requires Valid()
      ensures |s.alloc.used| == 16
      reads this, vregMap, physRegs
    {
      EncState(Alloc(physRegs[..], MapOf(vregMap[..]), stackBase), pending)
    }

    ghost function State(): (j: Jit)
      requires Valid()
      ensures |j.enc.alloc.used| == 16
      reads this, vregMap, physRegs, labelOffset, labelDefined
    {
      Jit(Enc(), LabelsOf(labelDefined[..], labelOffset[..]), patches, callSites)
    }

    /** Every function compiled so far lies in the memory, its calls still open and recorded. */
    ghost predicate Linkable()
      reads this, code
    {
      && Valid()
      && imageBase + code.Length <= MAX64 && imageBase % STACK_ALIGNMENT == 0
      && LaidOut(units, top) && top <= code.Length
      && |registry| == |units|
      && (forall i :: 0 <= i < |units| ==> Registered(registry[i], units[i], imageBase))
      && (forall i :: 0 <= i < |units| ==> UnitIn(code[..], units[i]))
      && callSites == Capped(AllSites(units))
    }

    constructor (capacity: nat, imageBase: nat)
      requires imageBase + capacity <= MAX64 && imageBase % STACK_ALIGNMENT == 0
      ensures Linkable() && units == [] && top == 0 && code.Length == capacity && this.imageBase == imageBase
      ensures fresh(vregMap) && fresh(physRegs) && fresh(labelOffset) && fresh(labelDefined) && fresh(code)
    {
      vregMap := new Option<Location>[MAX_VREGS](_ => None);
      physRegs := new bool[16](_ => false);
      labelOffset := new nat[MAX_LABELS](_ => 0);
      labelDefined := new bool[MAX_LABELS](_ => false);
      stackBase, pending, patches, callSites, registry := 0, [], [], [], [];
      code := new Byte[capacity](_ => 0);
      this.imageBase := imageBase;
      top := 0;
      units := [];
    }

    /** Gives `v` a location if it has none: the first free callee-saved register, or a cell. */
    method GetLocation(v: nat) returns (loc: Location)
      requires Valid() && v < MAX_VREGS
      modifies vregMap, physRegs
      ensures Enc() == old(Enc()).(alloc := Locate(old(Enc()).alloc, v))
      ensures v in Enc().alloc.locs && loc == Enc().alloc.locs[v]
    {
      hide MapOf, CellOffset, Locate;
      ghost var a := Enc().alloc;
      MapOfAt(vregMap[..], v);
      LocateIs(a, v);
      if vregMap[v].Some? {
        return vregMap[v].value;
      }
      for i := 0 to 16
        invariant unchanged(vregMap) && unchanged(physRegs)
        invariant forall r :: 0 <= r < i && Allocatable(r) ==> physRegs[r]
      {
        if Allocatable(i) && !physRegs[i] {
          FirstFreeIs(a.used, 0, i);
          physRegs[i] := true;
          assert physRegs[..] == a.used[i := true];
          loc := Place(v, InReg(i));
          return;
        }
      }
      NoneFree(a.used, 0);
      loc := Place(v, OnStack(CellOffset(stackBase + v)));
    }

    method Place(v: nat, place: Location) returns (loc: Location)
      requires Valid() && v < MAX_VREGS
      modifies vregMap
      ensures Enc() == old(Enc()).(alloc := old(Enc()).alloc.(locs := old(Enc()).alloc.locs[v := place]))
      ensures loc == place
    {
      hide MapOf;
      MapOfPut(vregMap[..], v, place);
      vregMap[v] := Some(place);
      assert vregMap[..] == old(vregMap[..])[v := Some(place)];
      return place;
    }

    // --- Encoders that only emit -----------------------------------------------------

    method BinaryLocations(ghost op: Ir.AluOp, d: nat, a: nat, b: nat)
      returns (dest: Location, left: Location, right: Location)
      requires Valid() && VregsInRange(Bin(op, d, a, b))
      modifies vregMap, physRegs
      ensures State() == Moved(old(State()), Bin(op, d, a, b))
      ensures Selected(old(State()), Bin(op, d, a, b)).body == BinaryCode(op, dest, left, right)
    {
      hide Moved, Selected, Locate, BinaryCode;
      Operands(State(), op, d, a, b);
      dest := GetLocation(d);
      left := GetLocation(a);
      right := GetLocation(b);
    }

    method UnaryLocations(ghost op: UnOp, d: nat, a: nat) returns (dest: Location, src: Location)
      requires Valid() && VregsInRange(Un(op, d, a))
      modifies vregMap, physRegs
      ensures State() == Moved(old(State()), Un(op, d, a))
      ensures Selected(old(State()), Un(op, d, a)).body == LoadTo(RAX, src) + UnaryCode(op) + StoreFrom(dest, RAX)
    {
      hide Moved, Selected, Locate, LoadTo, StoreFrom, UnaryCode;
      UnaryOperands(State(), op, d, a);
      dest := GetLocation(d);
      src := GetLocation(a);
    }

    method EmitUnaryOp(out: Emitter, op: UnOp)
      requires RoomFor(out.State(), UnaryCode(op))
      modifies out, out.buf
      ensures out.State() == Put(old(out.State()), UnaryCode(op))
    {
      hide Put, RoomFor;
      match op {
        case IrNeg => out.EmitNegRax();
        case IrBnot => out.EmitNotRax();
        case IrNot =>
          assert [CmpImm(RAX, 0)] + [SetCc(CondE, RAX)] + [Movzx(RAX, RAX)] == UnaryCode(op);
          Parts3(out.State(), [CmpImm(RAX, 0)], [SetCc(CondE, RAX)], [Movzx(RAX, RAX)]);
          out.EmitCmpRaxZero();
          out.EmitSetCc(CondE, RAX);
          out.EmitMovzx(RAX, RAX);
      }
    }

    method EmitStandardBinaryOp(out: Emitter, op: Ir.AluOp, alu: X86.AluOp, d: nat, a: nat, b: nat)
      requires Valid() && VregsInRange(Bin(op, d, a, b)) && AluOf(op) == Some(alu)
      requires RoomFor(out.State(), Selected(State(), Bin(op, d, a, b)).body)
      modifies vregMap, physRegs, out, out.buf
      ensures State() == Moved(old(State()), Bin(op, d, a, b))
      ensures out.State() == Put(old(out.State()), Selected(old(State()), Bin(op, d, a, b)).body)
    {
      hide *;
      var dest, left, right := BinaryLocations(op, d, a, b);
      StandardParts(op, alu, dest, left, right);
      Parts3(out.State(), LoadTo(RAX, left) + OperandCode(right, RDX), [X86.Alu(alu, RAX, OperandReg(right, RDX))],
        StoreFrom(dest, RAX));
      var rightReg := out.LoadBinaryOperands(RDX, left, right);
      out.EmitAlu(alu, RAX, rightReg);
      out.StoreLocation(dest, RAX);
    }

    method EmitComparisonOp(out: Emitter, op: Ir.AluOp, d: nat, a: nat, b: nat)
      requires Valid() && VregsInRange(Bin(op, d, a, b)) && IsComparison(op)
      requires RoomFor(out.State(), Selected(State(), Bin(op, d, a, b)).body)
      modifies vregMap, physRegs, out, out.buf
      ensures State() == Moved(old(State()), Bin(op, d, a, b))
      ensures out.State() == Put(old(out.State()), Selected(old(State()), Bin(op, d, a, b)).body)
    {
      hide *;
      var dest, left, right := BinaryLocations(op, d, a, b);
      ComparisonParts(op, dest, left, right);
      Parts3(out.State(), LoadTo(RAX, left) + OperandCode(right, RCX), CompareCode(op, OperandReg(right, RCX)),
        StoreFrom(dest, RAX));
      var rightReg := out.LoadBinaryOperands(RCX, left, right);
      EmitCompare(out, op, rightReg);
      out.StoreLocation(dest, RAX);
    }

    /** Leaves 0 or 1 in RAX. */
    method EmitCompare(out: Emitter, op: Ir.AluOp, right: Reg)
      requires RoomFor(out.State(), CompareCode(op, right))
      modifies out, out.buf
      ensures out.State() == Put(old(out.State()), CompareCode(op, right))
    {
      hide Put, RoomFor, CondOf;
      Parts3(out.State(), [X86.Alu(AluCmp, RAX, right)], [SetCc(CondOf(op), RAX)], [Movzx(RAX, RAX)]);
      out.EmitCmp(RAX, right);
      out.EmitSetCc(CondOf(op), RAX);
      out.EmitMovzx(RAX, RAX);
    }

    method EmitShiftOp(out: Emitter, op: Ir.AluOp, shift: ShiftOp, d: nat, a: nat, b: nat)
      requires Valid() && VregsInRange(Bin(op, d, a, b)) && ShiftOf(op) == Some(shift)
      requires RoomFor(out.State(), Selected(State(), Bin(op, d, a, b)).body)
      modifies vregMap, physRegs, out, out.buf
      ensures State() == Moved(old(State()), Bin(op, d, a, b))
      ensures out.State() == Put(old(out.State()), Selected(old(State()), Bin(op, d, a, b)).body)
    {
      hide *;
      var dest, left, right := BinaryLocations(op, d, a, b);
      ShiftParts(op, shift, dest, left, right);
      Parts3(out.State(), LoadTo(RAX, left) + LoadTo(RCX, right), [Shift(shift, RAX)], StoreFrom(dest, RAX));
      Parts(out.State(), LoadTo(RAX, left), LoadTo(RCX, right));
      out.LoadLocation(RAX, left);
      out.LoadLocation(RCX, right);
      out.EmitShiftRax(shift);
      out.StoreLocation(dest, RAX);
    }

    method EncodeMul(out: Emitter, d: nat, a: nat, b: nat)
      requires Valid() && VregsInRange(Bin(IrMul, d, a, b))
      requires RoomFor(out.State(), Selected(State(), Bin(IrMul, d, a, b)).body)
      modifies vregMap, physRegs, out, out.buf
      ensures State() == Moved(old(State()), Bin(IrMul, d, a, b))
      ensures out.State() == Put(old(out.State()), Selected(old(State()), Bin(IrMul, d, a, b)).body)
    {
      hide *;
      var dest, left, right := BinaryLocations(IrMul, d, a, b);
      MulParts(dest, left, right);
      Parts3(out.State(), LoadTo(RAX, left) + OperandCode(right, RCX), [Imul(RAX, OperandReg(right, RCX))],
        StoreFrom(dest, RAX));
      var rightReg := out.LoadBinaryOperands(RCX, left, right);
      out.EmitImul(RAX, rightReg);
      out.StoreLocation(dest, RAX);
    }

    method EncodeDiv(out: Emitter, d: nat, a: nat, b: nat)
      requires Valid() && VregsInRange(Bin(IrDiv, d, a, b))
      requires RoomFor(out.State(), Selected(State(), Bin(IrDiv, d, a, b)).body)
      modifies vregMap, physRegs, out, out.buf
      ensures State() == Moved(old(State()), Bin(IrDiv, d, a, b))
      ensures out.State() == Put(old(out.State()), Selected(old(State()), Bin(IrDiv, d, a, b)).body)
    {
      hide *;
      var dest, left, right := BinaryLocations(IrDiv, d, a, b);
      DivParts(dest, left, right);
      Parts3(out.State(), LoadTo(RAX, left) + [Cqo] + OperandCode(right, RCX), [Idiv(OperandReg(right, RCX))],
        StoreFrom(dest, RAX));
      Parts3(out.State(), LoadTo(RAX, left), [Cqo], OperandCode(right, RCX));
      out.LoadLocation(RAX, left);
      out.EmitCqo();
      var divisor := out.FetchOperand(RCX, right);
      out.EmitIdiv(divisor);
      out.StoreLocation(dest, RAX);
    }

    method EncodeUnary(out: Emitter, op: UnOp, d: nat, a: nat)
      requires Valid() && VregsInRange(Un(op, d, a)) && RoomFor(out.State(), Selected(State(), Un(op, d, a)).body)
      modifies vregMap, physRegs, out, out.buf
      ensures State() == Moved(old(State()), Un(op, d, a))
      ensures out.State() == Put(old(out.State()), Selected(old(State()), Un(op, d, a)).body)
    {
      hide *;
      var dest, src := UnaryLocations(op, d, a);
      Parts3(out.State(), LoadTo(RAX, src), UnaryCode(op), StoreFrom(dest, RAX));
      out.LoadLocation(RAX, src);
      EmitUnaryOp(out, op);
      out.StoreLocation(dest, RAX);
    }

    method EncodeMov(out: Emitter, d: nat, a: nat)
      requires Valid() && VregsInRange(Mov(d, a)) && RoomFor(out.State(), Selected(State(), Mov(d, a)).body)
      modifies vregMap, physRegs, out, out.buf
      ensures State() == Moved(old(State()), Mov(d, a))
      ensures out.State() == Put(old(out.State()), Selected(old(State()), Mov(d, a)).body)
    {
      hide Moved, Selected, Put, RoomFor, Locate, LoadTo, StoreFrom;
      MoveOperands(State(), out.State(), d, a);
      var dest := GetLocation(d);
      var src := GetLocation(a);
      if dest.InReg? && src.InReg? && dest.reg == src.reg {
        return;
      }
      Parts(out.State(), LoadTo(RAX, src), StoreFrom(dest, RAX));
      out.LoadLocation(RAX, src);
      out.StoreLocation(dest, RAX);
    }

    method EncodeConst(out: Emitter, d: nat, imm: Word)
      requires Valid() && VregsInRange(Const(d, imm)) && RoomFor(out.State(), Selected(State(), Const(d, imm)).body)
      modifies vregMap, physRegs, out, out.buf
      ensures State() == Moved(old(State()), Const(d, imm))
      ensures out.State() == Put(old(out.State()), Selected(old(State()), Const(d, imm)).body)
    {
      hide Put, RoomFor, Locate, LoadTo, StoreFrom;
      ghost var j := State();
      QueryOne(j.enc.alloc, d);
      var dest := GetLocation(d);
      Parts(out.State(), [MovImm(RAX, imm)], StoreFrom(dest, RAX));
      out.EmitMovImm(RAX, imm);
      out.StoreLocation(dest, RAX);
    }

    method EncodeLoad(out: Emitter, d: nat, slot: nat, ty: DataType)
      requires Valid() && VregsInRange(Load(d, slot, ty))
      requires RoomFor(out.State(), Selected(State(), Load(d, slot, ty)).body)
      modifies vregMap, physRegs, out, out.buf
      ensures State() == Moved(old(State()), Load(d, slot, ty))
      ensures out.State() == Put(old(out.State()), Selected(old(State()), Load(d, slot, ty)).body)
    {
      hide Put, RoomFor, Locate, LoadSized, CellOffset;
      ghost var j := State();
      QueryOne(j.enc.alloc, d);
      var dest := GetLocation(d);
      match dest
      case InReg(r) => out.EmitLoadSignExt(r, CellOffset(slot), Width(ty));
      case OnStack(disp) =>
        ghost var load := LoadSized(RAX, CellOffset(slot), Width(ty));
        assert [load] + [StoreLocal(RAX, disp)] == [load, StoreLocal(RAX, disp)];
        Parts(out.State(), [load], [StoreLocal(RAX, disp)]);
        out.EmitLoadSignExt(RAX, CellOffset(slot), Width(ty));
        out.StoreLocation(dest, RAX);
    }

    method EncodeStore(out: Emitter, slot: nat, a: nat, ty: DataType)
      requires Valid() && VregsInRange(Ir.Store(slot, a, ty))
      requires RoomFor(out.State(), Selected(State(), Ir.Store(slot, a, ty)).body)
      modifies vregMap, physRegs, out, out.buf
      ensures State() == Moved(old(State()), Ir.Store(slot, a, ty))
      ensures out.State() == Put(old(out.State()), Selected(old(State()), Ir.Store(slot, a, ty)).body)
    {
      hide Put, RoomFor, Locate, StoreSized, CellOffset;
      ghost var j := State();
      QueryOne(j.enc.alloc, a);
      var src := GetLocation(a);
      match src
      case InReg(r) => out.EmitStoreSized(r, CellOffset(slot), Width(ty));
      case OnStack(disp) =>
        ghost var store := StoreSized(RAX, CellOffset(slot), Width(ty));
        assert [LoadLocal(RAX, disp)] + [store] == [LoadLocal(RAX, disp), store];
        Parts(out.State(), [LoadLocal(RAX, disp)], [store]);
        out.LoadLocation(RAX, src);
        out.EmitStoreSized(RAX, CellOffset(slot), Width(ty));
    }

    method EncodeArg(a: nat, ghost index: nat)
      requires Valid()
      modifies this`pending
      ensures State() == Moved(old(State()), Arg(a, index))
    {
      pending := pending + [a];
    }

    /** Dispatches on the opcode. */
    method EncodeInst(out: Emitter, i: Instr)
      requires Valid() && VregsInRange(i) && forall v :: v in pending ==> v < MAX_VREGS
      requires PatchesIn(State(), out.State()) && RoomForBlock(State(), out.State(), i)
      modifies this`pending, this`patches, this`callSites, vregMap, physRegs, labelOffset, labelDefined, out, out.buf
      ensures (State(), out.State()) == StepJit(old(State()), old(out.State()), i)
    {
      hide *;
      StepCases(State(), out.State(), i);
      match i
      case Bin(op, d, a, b) => EncodeBinary(out, op, d, a, b);
      case Un(op, d, a) => EncodeUnary(out, op, d, a);
      case Mov(d, a) => EncodeMov(out, d, a);
      case Const(d, w) => EncodeConst(out, d, w);
      case Load(d, k, ty) => EncodeLoad(out, d, k, ty);
      case Store(k, a, ty) => EncodeStore(out, k, a, ty);
      case Arg(a, k) => EncodeArg(a, k);
      case CallFn(d, fn) => EncodeCall(out, d, fn);
      case Ret(a) => EncodeRet(out, a);
      case Label(id) => EncodeLabel(out, id);
      case Jmp(id) => EncodeJmp(out, id);
      case Jz(a, id) => EncodeBranch(out, a, id, true);
      case Jnz(a, id) => EncodeBranch(out, a, id, false);
    }

    method EncodeBinary(out: Emitter, op: Ir.AluOp, d: nat, a: nat, b: nat)
      requires Valid() && VregsInRange(Bin(op, d, a, b))
      requires RoomFor(out.State(), Selected(State(), Bin(op, d, a, b)).body)
      modifies vregMap, physRegs, out, out.buf
      ensures State() == Moved(old(State()), Bin(op, d, a, b))
      ensures out.State() == Put(old(out.State()), Selected(old(State()), Bin(op, d, a, b)).body)
    {
      hide Moved, Selected, RoomFor, Put, VregsInRange;
      match op
      case IrAdd => EmitStandardBinaryOp(out, op, AluAdd, d, a, b);
      case IrSub => EmitStandardBinaryOp(out, op, AluSub, d, a, b);
      case IrAnd => EmitStandardBinaryOp(out, op, AluAnd, d, a, b);
      case IrOr => EmitStandardBinaryOp(out, op, AluOr, d, a, b);
      case IrXor => EmitStandardBinaryOp(out, op, AluXor, d, a, b);
      case IrMul => EncodeMul(out, d, a, b);
      case IrDiv => EncodeDiv(out, d, a, b);
      case IrShl => EmitShiftOp(out, op, Shl, d, a, b);
      case IrSar => EmitShiftOp(out, op, Sar, d, a, b);
      case IrShr => EmitShiftOp(out, op, Shr, d, a, b);
      case IrEq => EmitComparisonOp(out, op, d, a, b);
      case IrNeq => EmitComparisonOp(out, op, d, a, b);
      case IrLt => EmitComparisonOp(out, op, d, a, b);
      case IrLe => EmitComparisonOp(out, op, d, a, b);
      case IrGt => EmitComparisonOp(out, op, d, a, b);
      case IrGe => EmitComparisonOp(out, op, d, a, b);
    }

    // --- Prologue ------------------------------------------------------------------------

    /** Saves the frame, opens the new one and moves the parameters home. */
    method EncodePrologue(out: Emitter, stackSize: nat, paramCount: nat, ghost f: IrFunc)
      requires Valid() && paramCount == f.params < MAX_VREGS && stackSize == AlignedStackSize(f)
      requires Enc() == EncState(Alloc(seq(16, _ => false), map[], f.stackCount), [])
      requires RoomFor(out.State(), Prologue(f))
      modifies vregMap, physRegs, out, out.buf
      ensures Enc() == StartState(f) && out.State() == Put(old(out.State()), Prologue(f))
    {
      hide Put, RoomFor, LocateAll, ParamCodes, ParamAlloc, ParamCode, ParamsCode, OpenCode, Prologue, PushRegsCode,
        StartState, AlignedStackSize, UpTo;
      ghost var o := out.State();
      PrologueParts(o, f);
      out.EmitPush(RBP);
      out.EmitMovRegReg(RBP, RSP);
      out.PushAll([RBX, R12, R13, R14, R15]);
      if stackSize > 0 {
        out.EmitSubRsp(Wrap32(stackSize));
      } else {
        PutNone(out.State(), OpenCode(f));
      }
      ghost var o1 := out.State();
      NoParams(o1, f);
      for i := 0 to paramCount
        invariant Enc() == EncState(ParamAlloc(f, i), [])
        invariant out.State() == Put(o1, ParamCodes(f, i))
      {
        NextParam(o1, f, i);
        var loc := GetLocation(i + 1);
        EmitParam(out, i, loc);
      }
    }

    method EmitParam(out: Emitter, i: nat, loc: Location)
      requires RoomFor(out.State(), ParamCode(i, loc))
      modifies out, out.buf
      ensures out.State() == Put(old(out.State()), ParamCode(i, loc))
    {
      hide Put, RoomFor;
      if i < REG_ARGS {
        match loc
        case InReg(r) =>
          if r != ArgRegs[i] {
            out.EmitMovRegReg(r, ArgRegs[i]);
          } else {
            PutNone(out.State(), []);
          }
        case OnStack(disp) => out.EmitStoreLocal(ArgRegs[i], disp);
      } else {
        var from := Wrap32(2 * WORD_SIZE + (i - REG_ARGS) * WORD_SIZE);
        match loc
        case InReg(r) => out.EmitLoadParam(r, from);
        case OnStack(disp) =>
          assert [LoadLocal(RAX, from)] + [StoreLocal(RAX, disp)] == [LoadLocal(RAX, from), StoreLocal(RAX, disp)];
          Parts(out.State(), [LoadLocal(RAX, from)], [StoreLocal(RAX, disp)]);
          out.EmitLoadParam(RAX, from);
          out.EmitStoreLocal(RAX, disp);
      }
    }

    // --- Calls and returns -----------------------------------------------------------

    /** Pushes the pending arguments from number `to - 1` down to `from`. */
    method PushPending(out: Emitter, from: nat, to: nat, direct: bool, ghost a: Alloc)
      requires Valid() && from <= to <= |pending| && |a.used| == 16
      requires forall v :: v in pending ==> v < MAX_VREGS
      requires Enc().alloc == AllocFrom(a, pending, to)
      requires RoomFor(out.State(), PushCodes(a, pending, from, to, direct))
      modifies vregMap, physRegs, out, out.buf
      ensures Enc().alloc == AllocFrom(a, pending, from)
      ensures out.State() == Put(old(out.State()), PushCodes(a, pending, from, to, direct))
    {
      hide *;
      ghost var o := out.State();
      PushedNone(o, a, pending, from, to, direct);
      for i := to downto from
        invariant Enc().alloc == AllocFrom(a, pending, i)
        invariant out.State() == Put(o, PushCodes(a, pending, i, to, direct))
      {
        PushNext(o, a, pending, i, from, to, direct);
        assert pending[i] in pending;
        PushOne(out, pending[i], direct);
      }
    }

    method PushOne(out: Emitter, v: nat, direct: bool)
      requires Valid() && v < MAX_VREGS && RoomFor(out.State(), PushCode(Locate(Enc().alloc, v).locs[v], direct))
      modifies vregMap, physRegs, out, out.buf
      ensures Enc().alloc == Locate(old(Enc().alloc), v)
      ensures out.State() == Put(old(out.State()), PushCode(Locate(old(Enc().alloc), v).locs[v], direct))
    {
      hide PushCode, Put, RoomFor, Locate;
      var loc := GetLocation(v);
      out.PushLocation(loc, direct);
    }

    /** The code before the placeholder of a call. */
    method EmitCallSetup(out: Emitter, ghost a: Alloc)
      requires Valid() && Enc().alloc == a
      requires forall v :: v in pending ==> v < MAX_VREGS
      requires RoomFor(out.State(), CallSetup(LocateAll(a, Reversed(pending)).locs, pending))
      modifies vregMap, physRegs, out, out.buf
      ensures Enc().alloc == LocateAll(a, Reversed(pending))
      ensures out.State() == Put(old(out.State()), CallSetup(LocateAll(a, Reversed(pending)).locs, pending))
    {
      hide LocateAll, Reversed, PushAllCode, Put, RoomFor, PopCode;
      ghost var vs := pending;
      ghost var locs := LocateAll(a, Reversed(vs)).locs;
      var stackArgs := if |pending| > REG_ARGS then |pending| - REG_ARGS else 0;
      var regArgs := if |pending| > REG_ARGS then REG_ARGS else |pending|;
      ghost var pad := if Padding(|vs|) > 0 then [SubImm(RSP, STACK_ALIGNMENT / 2)] else [];
      ghost var stack := PushAllCode(locs, vs[regArgs..], false);
      ghost var regs := PushAllCode(locs, vs[..regArgs], true);
      assert CallSetup(locs, vs) == pad + stack + regs + PopCode(ArgRegs[..regArgs]);
      Parts(out.State(), pad + stack + regs, PopCode(ArgRegs[..regArgs]));
      Parts3(out.State(), pad, stack, regs);
      if stackArgs % 2 != 0 {
        out.EmitSubRsp(STACK_ALIGNMENT / 2);
      } else {
        PutNone(out.State(), pad);
      }
      assert vs[regArgs..|vs|] == vs[regArgs..] && vs[0..regArgs] == vs[..regArgs];
      AllQueries(a, vs);
      PushPending(out, regArgs, |pending|, false, a);
      PushPending(out, 0, regArgs, true, a);
      out.PopAll(ArgRegs[..regArgs]);
    }

    method EncodeCall(out: Emitter, d: nat, fn: string)
      requires Valid() && d < MAX_VREGS && forall v :: v in pending ==> v < MAX_VREGS
      requires RoomForBlock(State(), out.State(), CallFn(d, fn))
      modifies this`pending, this`callSites, vregMap, physRegs, out, out.buf
      ensures (State(), out.State()) == Encoded(old(State()), old(out.State()), CallFn(d, fn))
    {
      hide *;
      CallParts(State(), out.State(), d, fn);
      EmitCallBody(out, d, fn);
      ClearPending();
    }

    /** Everything that a call emits; the pending arguments are still there. */
    method EmitCallBody(out: Emitter, d: nat, fn: string)
      requires Valid() && d < MAX_VREGS && forall v :: v in pending ==> v < MAX_VREGS
      requires RoomForBlock(State(), out.State(), CallFn(d, fn))
      modifies this`callSites, vregMap, physRegs, out, out.buf
      ensures State() == CallNoted(old(State()), old(out.State()), d, fn)
      ensures out.State() == Encoded(old(State()), old(out.State()), CallFn(d, fn)).1
    {
      hide Encoded, RoomForBlock, LocateAll, Locate, Reversed, CallSetup, CallCleanup, TailNow, Put, RoomFor, NoteTail;
      ghost var a := Locate(State().enc.alloc, d);
      CallParts(State(), out.State(), d, fn);
      var dest := GetLocation(d);
      EmitCallSetup(out, a);
      EmitDispatch(out, fn, |pending|, dest);
    }

    method ClearPending()
      requires Valid()
      modifies this`pending
      ensures State() == Cleared(old(State()))
    {
      pending := [];
    }

    /** The call itself, and what follows it. */
    method EmitDispatch(out: Emitter, fn: string, n: nat, dest: Location)
      requires Valid()
      requires RoomFor(out.State(), TailNow(Dispatch(fn, CallCleanup(n, dest)), State().labels, At(out.State())))
      modifies this`callSites, out, out.buf
      ensures State() == NoteTail(old(State()), Dispatch(fn, CallCleanup(n, dest)), out.buf != null,
              At(old(out.State())))
      ensures out.State() == Put(old(out.State()),
              TailNow(Dispatch(fn, CallCleanup(n, dest)), old(State()).labels, At(old(out.State()))))
    {
      hide Put, RoomFor, StoreFrom;
      ghost var after := CallCleanup(n, dest);
      assert [MovImm(RAX, PLACEHOLDER)] + [CallReg(RAX)] == [MovImm(RAX, PLACEHOLDER), CallReg(RAX)];
      Parts3(out.State(), [MovImm(RAX, PLACEHOLDER)], [CallReg(RAX)], after);
      EmitPlaceholder(out, fn);
      out.EmitCallRax();
      EmitCleanup(out, n, dest);
    }

    /** Drops the stack arguments and their padding, and fetches the result. */
    method EmitCleanup(out: Emitter, n: nat, dest: Location)
      requires RoomFor(out.State(), CallCleanup(n, dest))
      modifies out, out.buf
      ensures out.State() == Put(old(out.State()), CallCleanup(n, dest))
    {
      hide Put, RoomFor, StoreFrom;
      var stackArgs := if n > REG_ARGS then n - REG_ARGS else 0;
      ghost var adjust := if n > REG_ARGS then [AddImm(RSP, Wrap32(stackArgs * WORD_SIZE + Padding(n)))] else [];
      Parts(out.State(), adjust, StoreFrom(dest, RAX));
      if stackArgs > 0 {
        var cleanup := stackArgs * (STACK_ALIGNMENT / 2) + if stackArgs % 2 != 0 then STACK_ALIGNMENT / 2 else 0;
        out.EmitAddRsp(Wrap32(cleanup));
      } else {
        PutNone(out.State(), adjust);
      }
      out.StoreLocation(dest, RAX);
    }

    /** MOV RAX with a placeholder, whose place is recorded as a call site when writing. */
    method EmitPlaceholder(out: Emitter, fn: string)
      requires Valid() && RoomFor(out.State(), [MovImm(RAX, PLACEHOLDER)])
      modifies this`callSites, out, out.buf
      ensures State() == AddSite(old(State()), out.buf != null, At(old(out.State())) + 2, fn)
      ensures out.State() == Put(old(out.State()), [MovImm(RAX, PLACEHOLDER)])
    {
      hide Emission.Append, EncodeAll, Le;
      OneEncoded(MovImm(RAX, PLACEHOLDER));
      BytesThen(out.State(), MovImm(RAX, PLACEHOLDER), [0x48, 0xB8], Le64(PLACEHOLDER));
      Head2(out.State(), 0x48, 0xB8);
      TwoFurther(out.State(), 0x48, 0xB8);
      out.EmitU8(0x48);
      out.EmitU8(0xB8);
      if out.buf != null && |callSites| < MAX_CALL_SITES {
        callSites := callSites + [CallSite(out.at, fn)];
      }
      out.EmitU64(0xDEAD_BEEF_DEAD_BEEF);
    }

    method EncodeRet(out: Emitter, a: nat)
      requires Valid() && a < MAX_VREGS && RoomForBlock(State(), out.State(), Ret(a))
      modifies vregMap, physRegs, out, out.buf
      ensures (State(), out.State()) == Encoded(old(State()), old(out.State()), Ret(a))
    {
      hide Put, RoomFor, Locate, LoadTo, PopCode;
      ghost var j := State();
      QueryOne(j.enc.alloc, a);
      var src := GetLocation(a);
      ghost var lea := [Lea(RSP, 0 - CALLEE_SAVED_SIZE)];
      assert LoadTo(RAX, src) + (lea + PopCode([R15, R14, R13, R12, RBX, RBP])) ==
             LoadTo(RAX, src) + lea + PopCode([R15, R14, R13, R12, RBX, RBP]);
      Parts3(out.State(), LoadTo(RAX, src), lea, PopCode([R15, R14, R13, R12, RBX, RBP]));
      out.LoadLocation(RAX, src);
      out.EmitLeaRsp();
      out.PopAll([R15, R14, R13, R12, RBX, RBP]);
      out.EmitRet();
    }

    // --- Jumps and labels ------------------------------------------------------------

    /** JMP, or Jcc on `cc`. A forward jump gets a displacement of zero and a patch. */
    method EmitJump(out: Emitter, id: nat, cc: Option<Cond>)
      requires Valid() && RoomFor(out.State(), TailNow(JumpTail(id, cc), State().labels, At(out.State())))
      modifies this`patches, out, out.buf
      ensures State() == NoteTail(old(State()), JumpTail(id, cc), out.buf != null, At(old(out.State())))
      ensures out.State() == Put(old(out.State()), TailNow(JumpTail(id, cc), old(State()).labels, At(old(out.State()))))
    {
      hide Emission.Append, EncodeAll, Le, TailNow, Put, RoomFor;
      JumpParts(out.State(), State().labels, id, cc);
      if cc.None? {
        out.EmitU8(0xE9);
      } else {
        Head2(out.State(), 0x0F, 0x80 + CondCode(cc.value));
        out.EmitU8(0x0F);
        out.EmitU8(0x80 + CondCode(cc.value));
      }
      EmitDisplacement(out, id);
    }

    /** The displacement itself, if it is known; when only measuring, its size is all that counts. */
    method EmitDisplacement(out: Emitter, id: nat)
      requires Valid() && Room(out.State(), 4)
      modifies this`patches, out, out.buf
      ensures State() == AddPatch(old(State()), out.buf != null, id, At(old(out.State())))
      ensures out.buf != null ==>
                out.State() == Emission.Append(old(out.State()),
                  Le32(KnownDisplacement(old(State()).labels, id, At(old(out.State())) + 4)))
      ensures out.buf == null ==> out.State() == Measuring(old(out.count) + 4)
    {
      hide Emission.Append, Le;
      if out.buf == null {
        out.EmitU32(0);
        return;
      }
      if id < MAX_LABELS && labelDefined[id] {
        var distance := Wrap32(labelOffset[id] - (out.at + 4));
        out.EmitU32(distance % 0x1_0000_0000);
      } else {
        patches := [Patch(id, out.at)] + patches;
        out.EmitU32(0);
      }
    }

    method EncodeJmp(out: Emitter, id: nat)
      requires Valid() && RoomForBlock(State(), out.State(), Jmp(id))
      modifies this`patches, out, out.buf
      ensures (State(), out.State()) == Encoded(old(State()), old(out.State()), Jmp(id))
    {
      hide Put, TailNow;
      PutNone(out.State(), []);
      EmitJump(out, id, None);
    }

    method EncodeBranch(out: Emitter, a: nat, id: nat, onZero: bool)
      requires Valid() && a < MAX_VREGS && RoomForBlock(State(), out.State(), if onZero then Jz(a, id) else Jnz(a, id))
      modifies this`patches, vregMap, physRegs, out, out.buf
      ensures (State(), out.State()) == Encoded(old(State()), old(out.State()), if onZero then Jz(a, id)
              else Jnz(a, id))
    {
      hide Put, RoomFor, Locate, TestCode, TailNow;
      QueryOne(State().enc.alloc, a);
      var src := GetLocation(a);
      out.TestLocation(src);
      EmitJump(out, id, Some(if onZero then CondE else CondNE));
    }

    /** Places a label, and resolves and drops the patches that wait for it. */
    method EncodeLabel(out: Emitter, id: nat)
      requires Valid() && PatchesIn(State(), out.State())
      modifies this`patches, labelOffset, labelDefined, out.buf
      ensures (State(), out.State()) == LabelPlaced(old(State()), old(out.State()), id)
    {
      if id >= MAX_LABELS || out.buf == null {
        return;
      }
      labelDefined[id] := true;
      labelOffset[id] := out.at;
      assert LabelsOf(labelDefined[..], labelOffset[..]) == old(State()).labels[id := out.at];
      patches := Resolve(out, id);
    }

    /** Writes the displacement of every jump to `id`, and keeps the other patches. */
    method Resolve(out: Emitter, id: nat) returns (kept: seq<Patch>)
      requires out.buf != null && forall p :: p in patches ==> p.loc + 4 <= out.buf.Length
      modifies out.buf
      ensures kept == Unresolved(patches, id)
      ensures out.buf[..] == PatchAll(old(out.buf[..]), patches, id, out.at)
    {
      hide Overwrite, PatchAll, Unresolved, Le32;
      ghost var m := out.buf[..];
      kept := [];
      assert patches[0..] == patches;
      for k := 0 to |patches|
        invariant PatchAll(out.buf[..], patches[k..], id, out.at) == PatchAll(m, patches, id, out.at)
        invariant kept + Unresolved(patches[k..], id) == Unresolved(patches, id)
      {
        var p := patches[k];
        ResolveStep(out.buf[..], patches, k, id, out.at);
        if p.id == id {
          PatchJumpOffset(out, p.loc, out.at);
        } else {
          kept := kept + [p];
        }
      }
      ResolveEnd(out.buf[..], patches, id, out.at);
    }

    method PatchJumpOffset(out: Emitter, loc: nat, target: nat)
      requires out.buf != null && loc + 4 <= out.buf.Length
      modifies out.buf
      ensures out.buf[..] == Overwrite(old(out.buf[..]), loc, Le32(Wrap32(target - (loc + 4))))
    {
      hide Le;
      var rel: Int32 := Wrap32(target - (loc + 4));
      var n := rel % 0x1_0000_0000;
      Le4(n);
      ghost var m := out.buf[..];
      out.buf[loc] := n % 0x100;
      out.buf[loc + 1] := n / 0x100 % 0x100;
      out.buf[loc + 2] := n / 0x1_0000 % 0x100;
      out.buf[loc + 3] := n / 0x100_0000 % 0x100;
      assert out.buf[..] == Overwrite(m, loc, Le32(rel));
    }

    // --- Whole functions -----------------------------------------------------------------

    method ResetState()
      requires Valid()
      modifies this`pending, this`patches, vregMap, physRegs, labelOffset, labelDefined
      ensures State() == Jit(EncState(Alloc(seq(16, _ => false), map[], stackBase), []), map[], [], callSites)
    {
      pending, patches := [], [];
      forall l | 0 <= l < MAX_LABELS {
        labelOffset[l] := 0;
      }
      forall l | 0 <= l < MAX_LABELS {
        labelDefined[l] := false;
      }
      forall v | 0 <= v < MAX_VREGS {
        vregMap[v] := None;
      }
      forall r | 0 <= r < 16 {
        physRegs[r] := false;
      }
      assert physRegs[..] == seq(16, _ => false);
      assert MapOf(vregMap[..]) == map[];
      assert LabelsOf(labelDefined[..], labelOffset[..]) == map[];
    }

    /** One pass from the first byte of the prologue on. */
    method RunPass(out: Emitter, f: IrFunc, stackBytes: nat)
      requires Valid() && WellFormed(f) && f.labelCount < MAX_LABELS && stackBytes == AlignedStackSize(f)
      requires State() == Jit(EncState(Alloc(seq(16, _ => false), map[], f.stackCount), []), map[], [], callSites)
      requires Room(out.State(), CodeSize(f)) && out.count == 0
      modifies this`pending, this`patches, this`callSites, vregMap, physRegs, labelOffset, labelDefined, out, out.buf
      ensures (State(), out.State()) == After(f, old(callSites), old(out.State()), |f.code|)
    {
      hide After, WellFormed, PatchesIn, RoomForBlock, VregsInRange, CodeSize, StepJit, Prologue, StartState, Put,
        RoomFor, Room, AlignedStackSize;
      ghost var o := out.State();
      ghost var sites := callSites;
      StartOfPass(f, sites, o);
      EncodePrologue(out, stackBytes, f.params, f);
      for i := 0 to |f.code|
        invariant (State(), out.State()) == After(f, sites, o, i)
      {
        ReadyForInstr(f, sites, o, i);
        EncodeInst(out, f.code[i]);
      }
    }

    /**
      Compiles one function in two passes. Fails, as the original does, on too many labels,
      for want of memory, or when the registry is full; the checks that pass 2 wrote what
      pass 1 predicted cannot fail.
     */
    method CompileFunction(name: string, f: IrFunc) returns (result: Option<JitResult>)
      requires Linkable() && WellFormed(f)
      modifies this, vregMap, physRegs, labelOffset, labelDefined, code
      ensures result.None? <==>
                || f.labelCount >= MAX_LABELS || Aligned(old(top)) + CodeSize(f) > code.Length
                || |old(registry)| >= MAX_FUNCTION_COUNT
      ensures result.Some? ==> result.value == JitResult(Aligned(old(top)), CodeSize(f))
      ensures result.Some? ==> Linkable() && units == old(units) + [Unit(name, f, Aligned(old(top)))]
      ensures result.Some? ==> top == Aligned(old(top)) + CodeSize(f)
      ensures result.Some? ==> Overwritten(old(code[..]), code[..], Aligned(old(top)), FinalCode(f))
    {
      hide WellFormed, CodeSize, AlignedStackSize, FinalCode, LaidOut, UnitIn, Capped, AllSites, CallSitesOf, Overwrite;
      ghost var sites := callSites;
      ghost var m := code[..];
      ResetState();
      if f.labelCount >= MAX_LABELS {
        return None;
      }
      var predictedSize := Measure(f);
      var base := Aligned(top);
      if base + predictedSize > code.Length {
        return None;
      }
      SitesCapped(units, sites);
      var actualSize := Write(f, base, predictedSize);
      if |registry| >= MAX_FUNCTION_COUNT {
        return None;
      }
      ghost var u := Unit(name, f, base);
      var entry := CompiledFunction(name, imageBase + base, actualSize);
      NewUnit(m, units, top, u, sites);
      NewlyRegistered(registry, entry, units, u, imageBase);
      registry := registry + [entry];
      units := units + [u];
      top := base + predictedSize;
      result := Some(JitResult(base, actualSize));
    }

    /** Pass 1: the size of the code. */
    method Measure(f: IrFunc) returns (size: nat)
      requires Valid() && WellFormed(f) && f.labelCount < MAX_LABELS
      requires State() == Jit(EncState(Alloc(seq(16, _ => false), map[], stackBase), []), map[], [], callSites)
      modifies this`stackBase, this`pending, this`patches, this`callSites, vregMap, physRegs, labelOffset, labelDefined
      ensures size == CodeSize(f) && callSites == old(callSites)
    {
      hide After, WellFormed, CodeSize, AlignedStackSize;
      ghost var sites := callSites;
      stackBase := f.stackCount;
      var measure := new Emitter(null, 0);
      RunPass(measure, f, AlignedStackSize(f));
      PassState(f, sites, Measuring(0), |f.code|);
      SizeIsOffset(f);
      size := measure.count;
    }

    /** Pass 2: the code itself. */
    method Write(f: IrFunc, base: nat, predictedSize: nat) returns (size: nat)
      requires Valid() && WellFormed(f) && f.labelCount < MAX_LABELS && |callSites| <= MAX_CALL_SITES
      requires base + CodeSize(f) <= code.Length && predictedSize == CodeSize(f)
      modifies this`stackBase, this`pending, this`patches, this`callSites, vregMap, physRegs, labelOffset,
        labelDefined, code
      ensures size == CodeSize(f) == |FinalCode(f)| && patches == []
      ensures code[..] == Overwrite(old(code[..]), base, FinalCode(f))
      ensures callSites == Capped(old(callSites) + CallSitesOf(f, base, |f.code|))
    {
      hide After, WellFormed, CodeSize, AlignedStackSize, FinalCode, Capped, CallSitesOf, Overwrite;
      ghost var sites := callSites;
      ghost var m := code[..];
      ResetState();
      stackBase := f.stackCount;
      var out := new Emitter(code, base);
      RunPass(out, f, AlignedStackSize(f));
      BackpatchingResolves(f, sites, m, base);
      SitesRecorded(f, sites, m, base, |f.code|);
      size := out.at - base;
      if size > predictedSize {
        assert false;
      }
      if size != predictedSize {
        assert false;
      }
    }

    /**
      Fills in the address of every recorded call. Succeeds exactly when every called name
      has been compiled.
     */
    method LinkAll() returns (success: bool)
      requires Linkable()
      modifies code
      ensures success <==> forall s :: s in callSites ==> s.target in Addresses(registry)
      ensures LinkedMemory(old(code[..]), code[..], callSites, Addresses(registry))
    {
      hide LinkedMemory, Addresses, Overwrite, LaidOut, UnitIn, Registered, AllSites, Le;
      ghost var m := code[..];
      success := true;
      CappedOrdered(units, top);
      NothingLinked(m, callSites, Addresses(registry));
      for i := 0 to |callSites|
        invariant code.Length == |m|
        invariant LinkedMemory(m, code[..], callSites[..i], Addresses(registry))
        invariant success <==> forall k :: 0 <= k < i ==> callSites[k].target in Addresses(registry)
      {
        var site := callSites[i];
        var address := FindCompiled(site.target);
        LinkOne(m, code[..], callSites, i, top, Addresses(registry));
        if address == None {
          success := false;
        } else {
          SiteInside(callSites, i, top);
          PatchCallSite(site.loc, address.value);
        }
      }
      assert callSites[..|callSites|] == callSites;
    }

    method FindCompiled(name: string) returns (address: Option<Word>)
      ensures address == if name in Addresses(registry) then Some(Addresses(registry)[name]) else None
    {
      NoAddress(registry, name);
      for j := 0 to |registry|
        invariant forall k :: 0 <= k < j ==> registry[k].name != name
      {
        if registry[j].name == name {
          FirstAddress(registry, j);
          return Some(registry[j].address);
        }
      }
      return None;
    }

    method PatchCallSite(loc: nat, address: Word)
      requires loc + 8 <= code.Length
      modifies code
      ensures code[..] == Overwrite(old(code[..]), loc, Le64(address))
    {
      ghost var m := code[..];
      var bytes := Le64(address);
      forall k | 0 <= k < 8 {
        code[loc + k] := bytes[k];
      }
      assert code[..] == Overwrite(m, loc, bytes);
    }
  }

  /** The code stands at `base`, and nothing else has changed. */
  ghost predicate Overwritten(m: seq<Byte>, m1: seq<Byte>, base: nat, bs: seq<Byte>) {
    base + |bs| <= |m| && m1 == Overwrite(m, base, bs)
  }

  datatype JitResult = JitResult(base: nat, size: nat)

  /** The next multiple of the stack alignment, which is that of code too. */
  function Aligned(n: nat): (r: nat)
    ensures n <= r < n + STACK_ALIGNMENT && r % STACK_ALIGNMENT == 0
  {
    (n + STACK_ALIGNMENT - 1) / STACK_ALIGNMENT * STACK_ALIGNMENT
  }

  predicate Registered(r: CompiledFunction, u: Unit, imageBase: nat) {
    r.name == u.name && r.address == imageBase + u.base && r.size == CodeSize(u.f)
  }

  ghost predicate UnitIn(m: seq<Byte>, u: Unit) {
    WellFormed(u.f) && EndOf(u) <= |m| && m[u.base..EndOf(u)] == FinalCode(u.f)
  }

  lemma {:induction false} StartOfPass(f: IrFunc, sites: seq<CallSite>, o: Output)
    requires WellFormed(f) && Room(o, CodeSize(f))
    ensures RoomFor(o, Prologue(f)) && f.params < MAX_VREGS
    ensures After(f, sites, o, 0) == (Jit(StartState(f), map[], [], sites), Put(o, Prologue(f)))
  {
    hide Prologue, StartState, Put, RoomFor;
    RoomAtStart(f, o);
  }

  lemma {:induction false} ReadyForInstr(f: IrFunc, sites: seq<CallSite>, o: Output, i: nat)
    requires WellFormed(f) && f.labelCount < MAX_LABELS && i < |f.code| && Room(o, CodeSize(f)) && o.count == 0
    ensures var (j, o1) := After(f, sites, o, i);
            && VregsInRange(f.code[i]) && (forall v :: v in j.enc.pending ==> v < MAX_VREGS)
            && PatchesIn(j, o1) && RoomForBlock(j, o1, f.code[i])
            && After(f, sites, o, i + 1) == StepJit(j, o1, f.code[i])
  {
    hide WellFormed, PatchesIn, RoomForBlock, VregsInRange, CodeSize, StepJit;
    InstrInRange(f, i);
    PendingInRange(f, i);
    PassState(f, sites, o, i);
    PatchesInside(f, sites, o, i);
    RoomAt(f, sites, o, i);
  }

  lemma {:induction false} SitesCapped(us: seq<Unit>, sites: seq<CallSite>)
    requires sites == Capped(AllSites(us))
    ensures |sites| <= MAX_CALL_SITES
  {
  }

  lemma {:induction false} CappedTwice(a: seq<CallSite>, b: seq<CallSite>)
    ensures Capped(Capped(a) + b) == Capped(a + b)
  {
  }

  /** A function compiled above all others. */
  lemma {:induction false} NewUnit(m: seq<Byte>, us: seq<Unit>, top: nat, u: Unit, sites: seq<CallSite>)
    requires LaidOut(us, top) && top <= u.base && u.base + CodeSize(u.f) <= |m| && WellFormed(u.f)
    requires |FinalCode(u.f)| == CodeSize(u.f) && sites == Capped(AllSites(us))
    requires forall i :: 0 <= i < |us| ==> UnitIn(m, us[i])
    ensures LaidOut(us + [u], u.base + CodeSize(u.f))
    ensures Capped(sites + CallSitesOf(u.f, u.base, |u.f.code|)) == Capped(AllSites(us + [u]))
    ensures forall i :: 0 <= i < |us + [u]| ==> UnitIn(Overwrite(m, u.base, FinalCode(u.f)), (us + [u])[i])
  {
    hide CodeSize, FinalCode, WellFormed, Capped, CallSitesOf, UnitIn, LaidOut, Overwrite;
    CappedTwice(AllSites(us), SitesOf(u));
    assert (us + [u])[..|us + [u]| - 1] == us;
    LaidOutMore(us, top, u);
    forall i | 0 <= i < |us + [u]| ensures UnitIn(Overwrite(m, u.base, FinalCode(u.f)), (us + [u])[i]) {
      if i < |us| {
        UnitKept(m, us, top, u, i);
      } else {
        UnitThere(m, u);
      }
    }
  }

  lemma {:induction false} LaidOutMore(us: seq<Unit>, top: nat, u: Unit)
    requires LaidOut(us, top) && top <= u.base
    ensures LaidOut(us + [u], u.base + CodeSize(u.f))
  {
    hide CodeSize;
  }

  lemma {:induction false} UnitKept(m: seq<Byte>, us: seq<Unit>, top: nat, u: Unit, i: nat)
    requires LaidOut(us, top) && top <= u.base && u.base + |FinalCode(u.f)| <= |m| && i < |us| && UnitIn(m, us[i])
    ensures UnitIn(Overwrite(m, u.base, FinalCode(u.f)), us[i])
  {
    hide CodeSize, FinalCode, WellFormed;
    var m1 := Overwrite(m, u.base, FinalCode(u.f));
    assert m1[us[i].base..EndOf(us[i])] == m[us[i].base..EndOf(us[i])];
  }

  lemma {:induction false} UnitThere(m: seq<Byte>, u: Unit)
    requires u.base + CodeSize(u.f) <= |m| && |FinalCode(u.f)| == CodeSize(u.f) && WellFormed(u.f)
    ensures UnitIn(Overwrite(m, u.base, FinalCode(u.f)), u)
  {
    hide CodeSize, FinalCode, WellFormed;
    assert Overwrite(m, u.base, FinalCode(u.f))[u.base..EndOf(u)] == FinalCode(u.f);
  }

  lemma {:induction false} NewlyRegistered(registry: seq<CompiledFunction>, r: CompiledFunction, us: seq<Unit>,
                                           u: Unit, imageBase: nat)
    requires |registry| == |us| && (forall i :: 0 <= i < |us| ==> Registered(registry[i], us[i], imageBase))
    requires Registered(r, u, imageBase)
    ensures forall i :: 0 <= i < |us + [u]| ==> Registered((registry + [r])[i], (us + [u])[i], imageBase)
  {
    hide Registered;
  }

  lemma {:induction false} CappedOrdered(us: seq<Unit>, top: nat)
    requires LaidOut(us, top)
    ensures Ordered(Capped(AllSites(us)), 0, top)
  {
    hide LaidOut, AllSites;
    AllSitesOrdered(us, top);
  }

  lemma {:induction false} NothingLinked(m: seq<Byte>, sites: seq<CallSite>, addr: map<string, Word>)
    ensures LinkedMemory(m, m, sites[..0], addr)
  {
  }

  lemma {:induction false} SiteInside(sites: seq<CallSite>, i: nat, top: nat)
    requires i < |sites| && Ordered(sites, 0, top)
    ensures sites[i].loc + 8 <= top
  {
    assert sites[i] in sites;
  }
}
