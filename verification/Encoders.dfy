/**
  Register allocation and instruction selection: where each virtual register lives, and the
  machine code of each IR instruction, as functions. `JitContext` computes them in place.
 */
module Encoders {
  import opened Words
  import opened Ast
  import opened Ir
  import opened IrShape
  import opened X86

  const CALLEE_SAVED_SIZE: nat := 40
  const WORD_SIZE: nat := 8
  const STACK_ALIGNMENT: nat := 16
  const REG_ARGS: nat := 6

  const ArgRegs: seq<Reg> := [RDI, RSI, RDX, RCX, R8, R9]

  /** What a call site holds until it is linked: 0xDEADBEEFDEADBEEF. */
  const PLACEHOLDER: Word := 0xDEAD_BEEF_DEAD_BEEF - 0x1_0000_0000_0000_0000

  // --- Locations -------------------------------------------------------------------

  datatype Location = InReg(reg: Reg) | OnStack(offset: Int32)

  type Locations = map<nat, Location>

  /** `used` says which physical registers are taken; `base` is the number of local slots. */
  datatype Alloc = Alloc(used: seq<bool>, locs: Locations, base: nat)

  predicate Allocatable(r: nat) {
    r == 3 || 12 <= r <= 15
  }

  /** The first free register from `from` on that may be handed out, or 16. */
  function FirstFree(used: seq<bool>, from: nat): (r: nat)
    requires |used| == 16 && from <= 16
    ensures from <= r <= 16
    ensures r < 16 ==> Allocatable(r) && !used[r]
    ensures forall i :: from <= i < r && Allocatable(i) ==> used[i]
    decreases 16 - from
  {
    if from == 16 then 16
    else if Allocatable(from) && !used[from] then from
    else FirstFree(used, from + 1)
  }

  /** The offset from RBP of stack cell number `index`, in 32-bit arithmetic. */
  function CellOffset(index: nat): Int32 {
    Wrap32(-(CALLEE_SAVED_SIZE + WORD_SIZE + (index + 1) * WORD_SIZE))
  }

  /** Looks `v` up, giving it a location if it has none. */
  function Locate(a: Alloc, v: nat): (r: Alloc)
    requires |a.used| == 16
    ensures |r.used| == 16 && v in r.locs && r.base == a.base
    ensures forall w :: w in a.locs ==> w in r.locs && r.locs[w] == a.locs[w]
    ensures r.locs.Keys == a.locs.Keys + {v}
  {
    if v in a.locs then a
    else
      var r := FirstFree(a.used, 0);
      if r < 16 then a.(used := a.used[r := true], locs := a.locs[v := InReg(r)])
      else a.(locs := a.locs[v := OnStack(CellOffset(a.base + v))])
  }

  function LocateAll(a: Alloc, vs: seq<nat>): (r: Alloc)
    requires |a.used| == 16
    ensures |r.used| == 16 && r.base == a.base
    ensures forall w :: w in a.locs ==> w in r.locs && r.locs[w] == a.locs[w]
    ensures forall w :: w in vs ==> w in r.locs
    ensures r.locs.Keys == a.locs.Keys + set v | v in vs
    decreases |vs|
  {
    if vs == [] then a else LocateAll(Locate(a, vs[0]), vs[1..])
  }

  function LocationOf(locs: Locations, v: nat): Location {
    if v in locs then locs[v] else InReg(RAX)
  }

  // --- Instruction templates ---------------------------------------------------------

  function LoadTo(d: Reg, loc: Location): seq<Inst> {
    match loc
    case InReg(r) => if r == d then [] else [MovReg(d, r)]
    case OnStack(disp) => [LoadLocal(d, disp)]
  }

  function StoreFrom(loc: Location, s: Reg): seq<Inst> {
    match loc
    case InReg(r) => if r == s then [] else [MovReg(r, s)]
    case OnStack(disp) => [StoreLocal(s, disp)]
  }

  /** A right operand stays in its register, or is loaded into `tmp`. */
  function OperandReg(loc: Location, tmp: Reg): Reg {
    match loc
    case InReg(r) => r
    case OnStack(_) => tmp
  }

  function OperandCode(loc: Location, tmp: Reg): seq<Inst> {
    match loc
    case InReg(_) => []
    case OnStack(_) => LoadTo(tmp, loc)
  }

  function CondOf(op: Ir.AluOp): Cond {
    match op
    case IrNeq => CondNE
    case IrLt => CondL
    case IrLe => CondLE
    case IrGt => CondG
    case IrGe => CondGE
    case _ => CondE
  }

  /** The scratch register of the right operand. */
  function ScratchOf(op: Ir.AluOp): Reg {
    match op
    case IrAdd => RDX
    case IrSub => RDX
    case IrAnd => RDX
    case IrOr => RDX
    case IrXor => RDX
    case _ => RCX
  }

  predicate IsShift(op: Ir.AluOp) {
    op.IrShl? || op.IrSar? || op.IrShr?
  }

  /** The operation on RAX and the right operand's register. */
  function OperateCode(op: Ir.AluOp, right: Reg): seq<Inst> {
    match op
    case IrAdd => [Alu(AluAdd, RAX, right)]
    case IrSub => [Alu(AluSub, RAX, right)]
    case IrAnd => [Alu(AluAnd, RAX, right)]
    case IrOr => [Alu(AluOr, RAX, right)]
    case IrXor => [Alu(AluXor, RAX, right)]
    case IrMul => [Imul(RAX, right)]
    case IrDiv => [Idiv(right)]
    case IrShl => [Shift(Shl, RAX)]
    case IrSar => [Shift(Sar, RAX)]
    case IrShr => [Shift(Shr, RAX)]
    case _ => [Alu(AluCmp, RAX, right), SetCc(CondOf(op), RAX), Movzx(RAX, RAX)]
  }

  /** A shift count always goes to RCX; a dividend is extended before the divisor is fetched. */
  function BinaryCode(op: Ir.AluOp, dest: Location, left: Location, right: Location): seq<Inst> {
    LoadTo(RAX, left)
    + (if op.IrDiv? then [Cqo] else [])
    + (if IsShift(op) then LoadTo(RCX, right) else OperandCode(right, ScratchOf(op)))
    + OperateCode(op, OperandReg(right, ScratchOf(op)))
    + StoreFrom(dest, RAX)
  }

  function UnaryCode(op: UnOp): seq<Inst> {
    match op
    case IrNeg => [Neg(RAX)]
    case IrBnot => [NotReg(RAX)]
    case IrNot => [CmpImm(RAX, 0), SetCc(CondE, RAX), Movzx(RAX, RAX)]
  }

  function LoadSized(d: Reg, disp: Int32, width: nat): Inst {
    if width == 1 then LoadSx8(d, disp) else if width == 4 then LoadSx32(d, disp) else LoadLocal(d, disp)
  }

  function StoreSized(s: Reg, disp: Int32, width: nat): Inst {
    if width == 1 then StoreLow8(s, disp) else if width == 4 then StoreLow32(s, disp) else StoreLocal(s, disp)
  }

  function TestCode(loc: Location): seq<Inst> {
    match loc
    case InReg(r) => [Alu(AluTest, r, r)]
    case OnStack(_) => LoadTo(RAX, loc) + [CmpImm(RAX, 0)]
  }

  /** Pushes the value of `v`, from its register if it may be pushed directly, else through RAX. */
  function PushCode(loc: Location, direct: bool): seq<Inst> {
    match loc
    case InReg(r) => if direct then [Push(r)] else LoadTo(RAX, loc) + [Push(RAX)]
    case OnStack(_) => LoadTo(RAX, loc) + [Push(RAX)]
  }

  /** Pushes the registers `vs` from the last to the first. */
  function PushAllCode(locs: Locations, vs: seq<nat>, direct: bool): seq<Inst> {
    if vs == [] then []
    else PushAllCode(locs, vs[1..], direct) + PushCode(LocationOf(locs, vs[0]), direct)
  }

  function PushRegsCode(regs: seq<Reg>): seq<Inst> {
    if regs == [] then [] else [Push(regs[0])] + PushRegsCode(regs[1..])
  }

  function PopCode(regs: seq<Reg>): seq<Inst> {
    if regs == [] then [] else [Pop(regs[0])] + PopCode(regs[1..])
  }

  function RegArgs(n: nat): (k: nat)
    ensures k <= n && k <= 6
  {
    if n > REG_ARGS then REG_ARGS else n
  }

  /** 8 bytes of padding keep the stack aligned under an odd number of stack arguments. */
  function Padding(n: nat): nat {
    if (n - RegArgs(n)) % 2 == 1 then STACK_ALIGNMENT / 2 else 0
  }

  /** Everything before the CALL: padding, stack arguments, register arguments. */
  function CallSetup(locs: Locations, vs: seq<nat>): seq<Inst> {
    var k := RegArgs(|vs|);
    (if Padding(|vs|) > 0 then [SubImm(RSP, STACK_ALIGNMENT / 2)] else [])
    + PushAllCode(locs, vs[k..], false)
    + PushAllCode(locs, vs[..k], true)
    + PopCode(ArgRegs[..k])
  }

  function CallCleanup(n: nat, dest: Location): seq<Inst> {
    var bytes := (n - RegArgs(n)) * WORD_SIZE + Padding(n);
    (if n > REG_ARGS then [AddImm(RSP, Wrap32(bytes))] else []) + StoreFrom(dest, RAX)
  }

  function Epilogue(): seq<Inst> {
    [Lea(RSP, 0 - CALLEE_SAVED_SIZE)] + PopCode([R15, R14, R13, R12, RBX, RBP])
  }

  /** How a block of machine code ends. */
  datatype Tail =
    | Continue
    | Goto(id: nat)
    | GotoIf(cc: Cond, id: nat)
    | Dispatch(fn: string, after: seq<Inst>)
    | Leave

  datatype MachineBlock = Code(body: seq<Inst>, tail: Tail)

  /** The virtual registers an encoder asks locations for, in its order. */
  function Queries(i: Instr, pending: seq<nat>): seq<nat> {
    match i
    case Bin(_, d, a, b) => [d, a, b]
    case Un(_, d, a) => [d, a]
    case Mov(d, a) => [d, a]
    case Const(d, _) => [d]
    case Load(d, _, _) => [d]
    case Store(_, a, _) => [a]
    case CallFn(d, _) => [d] + Reversed(pending)
    case Ret(a) => [a]
    case Jz(a, _) => [a]
    case Jnz(a, _) => [a]
    case Arg(_, _) => []
    case Label(_) => []
    case Jmp(_) => []
  }

  function Reversed(vs: seq<nat>): (r: seq<nat>)
    ensures |r| == |vs| && forall v :: v in r <==> v in vs
  {
    if vs == [] then [] else Reversed(vs[1..]) + [vs[0]]
  }

  /** The machine code of one IR instruction. */
  function Select(i: Instr, pending: seq<nat>, locs: Locations): MachineBlock {
    match i
    case Bin(op, d, a, b) =>
      Code(BinaryCode(op, LocationOf(locs, d), LocationOf(locs, a), LocationOf(locs, b)), Continue)
    case Un(op, d, a) =>
      Code(LoadTo(RAX, LocationOf(locs, a)) + UnaryCode(op) + StoreFrom(LocationOf(locs, d), RAX), Continue)
    case Mov(d, a) =>
      var from, to := LocationOf(locs, a), LocationOf(locs, d);
      Code(if from.InReg? && to == from then [] else LoadTo(RAX, from) + StoreFrom(to, RAX), Continue)
    case Const(d, w) => Code([MovImm(RAX, w)] + StoreFrom(LocationOf(locs, d), RAX), Continue)
    case Load(d, k, ty) =>
      (match LocationOf(locs, d)
       case InReg(r) => Code([LoadSized(r, CellOffset(k), Width(ty))], Continue)
       case OnStack(disp) => Code([LoadSized(RAX, CellOffset(k), Width(ty)), StoreLocal(RAX, disp)], Continue))
    case Store(k, a, ty) =>
      (match LocationOf(locs, a)
       case InReg(r) => Code([StoreSized(r, CellOffset(k), Width(ty))], Continue)
       case OnStack(disp) => Code([LoadLocal(RAX, disp), StoreSized(RAX, CellOffset(k), Width(ty))], Continue))
    case Arg(_, _) => Code([], Continue)
    case CallFn(d, fn) =>
      Code(CallSetup(locs, pending), Dispatch(fn, CallCleanup(|pending|, LocationOf(locs, d))))
    case Ret(a) => Code(LoadTo(RAX, LocationOf(locs, a)) + Epilogue(), Leave)
    case Label(_) => Code([], Continue)
    case Jmp(l) => Code([], Goto(l))
    case Jz(a, l) => Code(TestCode(LocationOf(locs, a)), GotoIf(CondE, l))
    case Jnz(a, l) => Code(TestCode(LocationOf(locs, a)), GotoIf(CondNE, l))
  }

  // --- Functions ---------------------------------------------------------------------

  /** `pending` holds the arguments collected for the next call. */
  datatype EncState = EncState(alloc: Alloc, pending: seq<nat>)

  function Advance(s: EncState, i: Instr): (r: EncState)
    requires |s.alloc.used| == 16
    ensures |r.alloc.used| == 16
  {
    EncState(LocateAll(s.alloc, Queries(i, s.pending)),
             match i case Arg(a, _) => s.pending + [a] case CallFn(_, _) => [] case _ => s.pending)
  }

  function UpTo(n: nat): (vs: seq<nat>)
    ensures |vs| == n && forall i :: 0 <= i < n ==> vs[i] == i + 1
  {
    seq(n, i requires 0 <= i < n => i + 1)
  }

  function StartState(f: IrFunc): EncState {
    EncState(LocateAll(Alloc(seq(16, _ => false), map[], f.stackCount), UpTo(f.params)), [])
  }

  /** The encoder's state before instruction `i`. */
  function StateAt(f: IrFunc, i: nat): (s: EncState)
    requires i <= |f.code|
    ensures |s.alloc.used| == 16
  {
    if i == 0 then StartState(f) else Advance(StateAt(f, i - 1), f.code[i - 1])
  }

  function BlockAt(f: IrFunc, i: nat): MachineBlock
    requires i < |f.code|
  {
    Select(f.code[i], StateAt(f, i).pending, StateAt(f, i + 1).alloc.locs)
  }

  function AlignedStackSize(f: IrFunc): nat {
    var raw := (f.stackCount + f.vregCount) * WORD_SIZE;
    var usage := 2 * WORD_SIZE + CALLEE_SAVED_SIZE + raw;
    raw + if usage % STACK_ALIGNMENT == 0 then 0 else STACK_ALIGNMENT - usage % STACK_ALIGNMENT
  }

  function SaveCode(): seq<Inst> {
    [Push(RBP), MovReg(RBP, RSP)] + PushRegsCode([RBX, R12, R13, R14, R15])
  }

  /** Moves parameter `i` from where the caller put it to the home of its register. */
  function ParamCode(i: nat, loc: Location): seq<Inst> {
    if i < REG_ARGS then
      (match loc
       case InReg(r) => if r == ArgRegs[i] then [] else [MovReg(r, ArgRegs[i])]
       case OnStack(disp) => [StoreLocal(ArgRegs[i], disp)])
    else
      var from := Wrap32(2 * WORD_SIZE + (i - REG_ARGS) * WORD_SIZE);
      (match loc
       case InReg(r) => [LoadLocal(r, from)]
       case OnStack(disp) => [LoadLocal(RAX, from), StoreLocal(RAX, disp)])
  }

  /** The code for the first `n` parameters. */
  function ParamsCode(locs: Locations, n: nat): seq<Inst> {
    if n == 0 then [] else ParamsCode(locs, n - 1) + ParamCode(n - 1, LocationOf(locs, n))
  }

  function Prologue(f: IrFunc): seq<Inst> {
    SaveCode()
    + (if AlignedStackSize(f) > 0 then [SubImm(RSP, Wrap32(AlignedStackSize(f)))] else [])
    + ParamsCode(StartState(f).alloc.locs, f.params)
  }

  // --- Layout ------------------------------------------------------------------------

  function TailSize(t: Tail): nat {
    match t
    case Continue => 0
    case Goto(_) => 5
    case GotoIf(_, _) => 6
    case Dispatch(_, after) => 12 + |EncodeAll(after)|
    case Leave => 1
  }

  function BlockSize(b: MachineBlock): nat {
    |EncodeAll(b.body)| + TailSize(b.tail)
  }

  /** The offset of the code of instruction `i` in the function. */
  function Offset(f: IrFunc, i: nat): nat
    requires i <= |f.code|
  {
    if i == 0 then |EncodeAll(Prologue(f))| else Offset(f, i - 1) + BlockSize(BlockAt(f, i - 1))
  }

  function CodeSize(f: IrFunc): nat {
    Offset(f, |f.code|)
  }

  function LabelOffset(f: IrFunc, l: nat): nat {
    Offset(f, FindLabel(f.code, l, 0))
  }

  /** The displacement of a jump to `l` that ends at offset `end`. */
  function Displacement(f: IrFunc, l: nat, end: nat): Int32 {
    Wrap32(LabelOffset(f, l) - end)
  }

  /** The instructions of a block tail that starts at offset `at`, `addr` giving the address of each function. */
  function TailCode(f: IrFunc, t: Tail, at: nat, addr: map<string, Word>): seq<Inst> {
    match t
    case Continue => []
    case Goto(l) => [JmpRel(Displacement(f, l, at + 5))]
    case GotoIf(cc, l) => [JccRel(cc, Displacement(f, l, at + 6))]
    case Dispatch(fn, after) => [MovImm(RAX, if fn in addr then addr[fn] else PLACEHOLDER), CallReg(RAX)] + after
    case Leave => [RetNear]
  }

  function BlockBytes(f: IrFunc, i: nat, addr: map<string, Word>): seq<Byte>
    requires i < |f.code|
  {
    var b := BlockAt(f, i);
    EncodeAll(b.body) + EncodeAll(TailCode(f, b.tail, Offset(f, i) + |EncodeAll(b.body)|, addr))
  }

  /** The code of the first `n` instructions, prologue included: labels and addresses resolved. */
  function CodeBytes(f: IrFunc, n: nat, addr: map<string, Word>): seq<Byte>
    requires n <= |f.code|
  {
    if n == 0 then EncodeAll(Prologue(f)) else CodeBytes(f, n - 1, addr) + BlockBytes(f, n - 1, addr)
  }
}
