/** One pass of the encoder over a function, as functions on `Jit` and `Output` values. */
module Jits {
  import opened Limits
  import opened Words
  import opened Ast
  import opened Ir
  import opened IrShape
  import opened X86
  import opened Encoders
  import opened CodeLayout
  import opened Emission

  /** A jump to a label that was not placed yet: the place of its displacement. */
  datatype Patch = Patch(id: nat, loc: nat)

  /** The place of the address that a call goes to. */
  datatype CallSite = CallSite(loc: nat, target: string)

  /** `labels` holds the places of the labels seen so far; the newest patch comes first. */
  datatype Jit = Jit(enc: EncState, labels: map<nat, nat>, patches: seq<Patch>, sites: seq<CallSite>)

  /** The displacement of a jump that ends at `end`: zero while its label is unknown. */
  function KnownDisplacement(labels: map<nat, nat>, id: nat, end: nat): Int32 {
    if id in labels then Wrap32(labels[id] - end) else 0
  }

  function At(o: Output): nat {
    if o.Writing? then o.at else 0
  }

  /** The instructions of a tail that starts at `at`. */
  function TailNow(t: Tail, labels: map<nat, nat>, at: nat): seq<Inst> {
    match t
    case Continue => []
    case Goto(l) => [JmpRel(KnownDisplacement(labels, l, at + 5))]
    case GotoIf(cc, l) => [JccRel(cc, KnownDisplacement(labels, l, at + 6))]
    case Dispatch(_, after) => [MovImm(RAX, PLACEHOLDER), CallReg(RAX)] + after
    case Leave => [RetNear]
  }

  function Selected(j: Jit, i: Instr): MachineBlock
    requires |j.enc.alloc.used| == 16
  {
    Select(i, j.enc.pending, Advance(j.enc, i).alloc.locs)
  }

  /** A forward jump to `id` whose displacement is at `loc` waits for its label. */
  function AddPatch(j: Jit, writing: bool, id: nat, loc: nat): Jit {
    if writing && id !in j.labels then j.(patches := [Patch(id, loc)] + j.patches) else j
  }

  /** Call sites over the capacity are dropped in silence. */
  function AddSite(j: Jit, writing: bool, loc: nat, fn: string): Jit {
    if writing && |j.sites| < MAX_CALL_SITES then j.(sites := j.sites + [CallSite(loc, fn)]) else j
  }

  /** What a tail that starts at `at` leaves behind. */
  function NoteTail(j: Jit, t: Tail, writing: bool, at: nat): Jit {
    match t
    case Goto(l) => AddPatch(j, writing, l, at + 1)
    case GotoIf(_, l) => AddPatch(j, writing, l, at + 2)
    case Dispatch(fn, _) => AddSite(j, writing, at + 2, fn)
    case _ => j
  }

  /** Resolves the patches of `id`, whose label is at `target`. */
  function PatchAll(m: seq<Byte>, ps: seq<Patch>, id: nat, target: nat): (r: seq<Byte>)
    ensures |r| == |m|
    decreases |ps|
  {
    if ps == [] then m
    else
      var loc := ps[0].loc;
      var m1 := if ps[0].id == id && loc + 4 <= |m| then Overwrite(m, loc, Le32(Wrap32(target - (loc + 4)))) else m;
      PatchAll(m1, ps[1..], id, target)
  }

  /** The patches of other labels. */
  function Unresolved(ps: seq<Patch>, id: nat): (r: seq<Patch>)
    ensures forall p :: p in r <==> p in ps && p.id != id
    decreases |ps|
  {
    if ps == [] then [] else (if ps[0].id == id then [] else [ps[0]]) + Unresolved(ps[1..], id)
  }

  predicate PatchesIn(j: Jit, o: Output) {
    forall p :: p in j.patches ==> o.Writing? && p.loc + 4 <= |o.bytes|
  }

  /** An instruction other than a label. */
  function Encoded(j: Jit, o: Output, i: Instr): (r: (Jit, Output))
    requires |j.enc.alloc.used| == 16
    ensures |r.0.enc.alloc.used| == 16
  {
    var b := Selected(j, i);
    var o1 := Put(o, b.body);
    (NoteTail(Moved(j, i), b.tail, o.Writing?, At(o1)), Put(o1, TailNow(b.tail, j.labels, At(o1))))
  }

  /** Only a writing pass places labels, and then it resolves the jumps that wait for them. */
  function LabelPlaced(j: Jit, o: Output, id: nat): (Jit, Output)
    requires |j.enc.alloc.used| == 16
  {
    if o.Writing? && id < MAX_LABELS then
      (j.(labels := j.labels[id := o.at], patches := Unresolved(j.patches, id)),
       o.(bytes := PatchAll(o.bytes, j.patches, id, o.at)))
    else (j, o)
  }

  function StepJit(j: Jit, o: Output, i: Instr): (r: (Jit, Output))
    requires |j.enc.alloc.used| == 16
    ensures |r.0.enc.alloc.used| == 16
  {
    if i.Label? then LabelPlaced(Moved(j, i), o, i.id) else Encoded(j, o, i)
  }

  function Moved(j: Jit, i: Instr): (r: Jit)
    requires |j.enc.alloc.used| == 16
    ensures |r.enc.alloc.used| == 16
  {
    j.(enc := Advance(j.enc, i))
  }

  predicate RoomForBlock(j: Jit, o: Output, i: Instr)
    requires |j.enc.alloc.used| == 16
  {
    var b := Selected(j, i);
    var o1 := Put(o, b.body);
    RoomFor(o, b.body) && RoomFor(o1, TailNow(b.tail, j.labels, At(o1)))
  }

  // --- Facts about queries ------------------------------------------------------------

  lemma {:induction false} QueryOne(a: Alloc, v: nat)
    requires |a.used| == 16
    ensures LocateAll(a, [v]) == Locate(a, v)
  {
    hide Locate;
    assert [v][1..] == [];
  }

  lemma {:induction false} QueryTwo(a: Alloc, v: nat, w: nat)
    requires |a.used| == 16
    ensures LocateAll(a, [v, w]) == Locate(Locate(a, v), w)
  {
    hide Locate;
    assert [v, w][1..] == [w];
    QueryOne(Locate(a, v), w);
  }

  lemma {:induction false} QueryThree(a: Alloc, v: nat, w: nat, x: nat)
    requires |a.used| == 16
    ensures LocateAll(a, [v, w, x]) == Locate(Locate(Locate(a, v), w), x)
  {
    hide Locate;
    assert [v, w, x][1..] == [w, x];
    QueryTwo(Locate(a, v), w, x);
  }

  /** What a table of optional locations maps. */
  ghost function MapOf(table: seq<Option<Location>>): (m: map<nat, Location>)
    ensures forall v: nat :: v in m <==> v < |table| && table[v].Some?
    ensures forall v :: v in m ==> m[v] == table[v].value
  {
    map v: nat | v < |table| && table[v].Some? :: table[v].value
  }

  ghost function LabelsOf(defined: seq<bool>, offset: seq<nat>): (m: map<nat, nat>)
    requires |defined| == |offset|
    ensures forall l: nat :: l in m <==> l < |defined| && defined[l]
    ensures forall l :: l in m ==> m[l] == offset[l]
  {
    map l: nat | l < |defined| && defined[l] :: offset[l]
  }

  /** The locations of a binary instruction. */
  lemma {:induction false} Operands(j: Jit, op: Ir.AluOp, d: nat, a: nat, b: nat)
    requires |j.enc.alloc.used| == 16
    ensures var c := Locate(Locate(Locate(j.enc.alloc, d), a), b);
            && Moved(j, Bin(op, d, a, b)) == j.(enc := j.enc.(alloc := c))
            && Selected(j, Bin(op, d, a, b)).body == BinaryCode(op, c.locs[d], c.locs[a], c.locs[b])
  {
    hide Locate, BinaryCode;
    QueryThree(j.enc.alloc, d, a, b);
  }

  lemma {:induction false} UnaryOperands(j: Jit, op: UnOp, d: nat, a: nat)
    requires |j.enc.alloc.used| == 16
    ensures var c := Locate(Locate(j.enc.alloc, d), a);
            && Moved(j, Un(op, d, a)) == j.(enc := j.enc.(alloc := c))
            && Selected(j, Un(op, d, a)).body == LoadTo(RAX, c.locs[a]) + UnaryCode(op) + StoreFrom(c.locs[d], RAX)
  {
    hide Locate, LoadTo, StoreFrom, UnaryCode;
    QueryTwo(j.enc.alloc, d, a);
  }

  /** A move within one register needs no code. */
  lemma {:induction false} MoveOperands(j: Jit, o: Output, d: nat, a: nat)
    requires |j.enc.alloc.used| == 16 && RoomFor(o, Selected(j, Mov(d, a)).body)
    ensures var c := Locate(Locate(j.enc.alloc, d), a);
            var dest, src := c.locs[d], c.locs[a];
            var body := Selected(j, Mov(d, a)).body;
            && Moved(j, Mov(d, a)) == j.(enc := j.enc.(alloc := c))
            && (dest.InReg? && src.InReg? && dest.reg == src.reg ==> Put(o, body) == o)
            && (!(dest.InReg? && src.InReg? && dest.reg == src.reg) ==> body == LoadTo(RAX, src) + StoreFrom(dest, RAX))
  {
    hide Locate, LoadTo, StoreFrom, Put, RoomFor;
    QueryTwo(j.enc.alloc, d, a);
    if Selected(j, Mov(d, a)).body == [] {
      PutNone(o, Selected(j, Mov(d, a)).body);
    }
  }

  predicate VregsInRange(i: Instr) {
    match i
    case Bin(_, d, a, b) => d < MAX_VREGS && a < MAX_VREGS && b < MAX_VREGS
    case Un(_, d, a) => d < MAX_VREGS && a < MAX_VREGS
    case Mov(d, a) => d < MAX_VREGS && a < MAX_VREGS
    case Const(d, _) => d < MAX_VREGS
    case Load(d, _, _) => d < MAX_VREGS
    case Store(_, a, _) => a < MAX_VREGS
    case CallFn(d, _) => d < MAX_VREGS
    case Ret(a) => a < MAX_VREGS
    case Jz(a, _) => a < MAX_VREGS
    case Jnz(a, _) => a < MAX_VREGS
    case Arg(a, _) => a < MAX_VREGS
    case Label(_) => true
    case Jmp(_) => true
  }

  function AluOf(op: Ir.AluOp): Option<X86.AluOp> {
    match op
    case IrAdd => Some(AluAdd)
    case IrSub => Some(AluSub)
    case IrAnd => Some(AluAnd)
    case IrOr => Some(AluOr)
    case IrXor => Some(AluXor)
    case _ => None
  }

  function ShiftOf(op: Ir.AluOp): Option<ShiftOp> {
    match op
    case IrShl => Some(Shl)
    case IrSar => Some(Sar)
    case IrShr => Some(Shr)
    case _ => None
  }

  predicate IsComparison(op: Ir.AluOp) {
    op.IrEq? || op.IrNeq? || op.IrLt? || op.IrLe? || op.IrGt? || op.IrGe?
  }

  function CompareCode(op: Ir.AluOp, r: Reg): seq<Inst> {
    [X86.Alu(AluCmp, RAX, r)] + [SetCc(CondOf(op), RAX)] + [Movzx(RAX, RAX)]
  }

  lemma {:induction false} StandardParts(op: Ir.AluOp, alu: X86.AluOp, dest: Location, left: Location, right: Location)
    requires AluOf(op) == Some(alu)
    ensures BinaryCode(op, dest, left, right)
         == LoadTo(RAX, left) + OperandCode(right, RDX) + [X86.Alu(alu, RAX, OperandReg(right, RDX))]
           + StoreFrom(dest, RAX)
  {
    hide LoadTo, StoreFrom, OperandCode, OperandReg;
  }

  lemma {:induction false} ComparisonParts(op: Ir.AluOp, dest: Location, left: Location, right: Location)
    requires IsComparison(op)
    ensures BinaryCode(op, dest, left, right)
         == LoadTo(RAX, left) + OperandCode(right, RCX) + CompareCode(op, OperandReg(right, RCX)) + StoreFrom(dest, RAX)
  {
    hide LoadTo, StoreFrom, OperandCode, OperandReg, CondOf;
  }

  lemma {:induction false} ShiftParts(op: Ir.AluOp, shift: ShiftOp, dest: Location, left: Location, right: Location)
    requires ShiftOf(op) == Some(shift)
    ensures BinaryCode(op, dest, left, right)
         == LoadTo(RAX, left) + LoadTo(RCX, right) + [Shift(shift, RAX)] + StoreFrom(dest, RAX)
  {
    hide LoadTo, StoreFrom, OperandCode, OperandReg;
  }

  lemma {:induction false} MulParts(dest: Location, left: Location, right: Location)
    ensures BinaryCode(IrMul, dest, left, right)
         == LoadTo(RAX, left) + OperandCode(right, RCX) + [Imul(RAX, OperandReg(right, RCX))] + StoreFrom(dest, RAX)
  {
    hide LoadTo, StoreFrom, OperandCode, OperandReg;
  }

  lemma {:induction false} DivParts(dest: Location, left: Location, right: Location)
    ensures BinaryCode(IrDiv, dest, left, right)
         == LoadTo(RAX, left) + [Cqo] + OperandCode(right, RCX) + [Idiv(OperandReg(right, RCX))] + StoreFrom(dest, RAX)
  {
    hide LoadTo, StoreFrom, OperandCode, OperandReg;
  }

  function JumpHead(cc: Option<Cond>): seq<Byte> {
    match cc
    case None => [0xE9]
    case Some(c) => [0x0F, 0x80 + CondCode(c)]
  }

  lemma {:induction false} JumpBytes(cc: Option<Cond>, rel: Int32)
    ensures Encode(if cc.None? then JmpRel(rel) else JccRel(cc.value, rel)) == JumpHead(cc) + Le32(rel)
  {
    hide Le32;
  }

  lemma {:induction false} MeasuredTwice(o: Output, bs: seq<Byte>, n: nat)
    ensures o.Measuring? ==> forall cs: seq<Byte> :: |cs| == n ==>
              Emission.Append(Emission.Append(o, bs), cs) == Measuring(Emission.Append(o, bs).count + n)
  {
  }

  lemma {:induction false} JumpParts(o: Output, labels: map<nat, nat>, id: nat, cc: Option<Cond>)
    requires RoomFor(o, TailNow(JumpTail(id, cc), labels, At(o)))
    ensures var o1 := Emission.Append(o, JumpHead(cc));
            && Room(o, 4 + |JumpHead(cc)|)
            && (o.Writing? ==> Put(o, TailNow(JumpTail(id, cc), labels, At(o)))
                               == Emission.Append(o1, Le32(KnownDisplacement(labels, id, At(o1) + 4))))
            && (o.Measuring? ==> Put(o, TailNow(JumpTail(id, cc), labels, At(o))) == Measuring(o1.count + 4))
  {
    hide Le32, EncodeAll, Emission.Append, Encode, KnownDisplacement;
    var rel := KnownDisplacement(labels, id, At(o) + TailSize(JumpTail(id, cc)));
    var jump := if cc.None? then JmpRel(rel) else JccRel(cc.value, rel);
    assert TailNow(JumpTail(id, cc), labels, At(o)) == [jump];
    OneEncoded(jump);
    JumpBytes(cc, rel);
    AppendTwice(o, JumpHead(cc), Le32(rel));
    MeasuredTwice(o, JumpHead(cc), 4);
  }

  /** A step, by the kind of the instruction. */
  lemma {:induction false} StepCases(j: Jit, o: Output, i: Instr)
    requires |j.enc.alloc.used| == 16 && RoomForBlock(j, o, i) && VregsInRange(i)
    ensures i.Label? ==> StepJit(j, o, i) == LabelPlaced(j, o, i.id)
    ensures i.Jmp? || i.Jz? || i.Jnz? || i.CallFn? || i.Ret? ==> StepJit(j, o, i) == Encoded(j, o, i)
    ensures i.CallFn? ==> i.dest < MAX_VREGS
    ensures i.Ret? || i.Jz? || i.Jnz? ==> i.src1 < MAX_VREGS
    ensures i.Bin? || i.Un? || i.Mov? || i.Const? || i.Load? || i.Store? ==>
              StepJit(j, o, i) == (Moved(j, i), Put(o, Selected(j, i).body)) && RoomFor(o, Selected(j, i).body)
    ensures i.Arg? ==> StepJit(j, o, i) == (Moved(j, i), o)
  {
    hide Put, RoomFor, LocateAll, BinaryCode, UnaryCode, LoadTo, StoreFrom, CallSetup, CallCleanup;
    NothingAsked(j.enc.alloc);
    if i.Arg? {
      PutNone(o, []);
    }
    if i.Bin? || i.Un? || i.Mov? || i.Const? || i.Load? || i.Store? || i.Arg? {
      PutNone(Put(o, Selected(j, i).body), []);
    }
  }

  lemma {:induction false} NothingAsked(a: Alloc)
    requires |a.used| == 16
    ensures LocateAll(a, []) == a
  {
  }

  function JumpTail(id: nat, cc: Option<Cond>): Tail {
    match cc
    case None => Goto(id)
    case Some(c) => GotoIf(c, id)
  }

  lemma {:induction false} ResolveStep(m: seq<Byte>, ps: seq<Patch>, k: nat, id: nat, target: nat)
    requires k < |ps| && forall p :: p in ps ==> p.loc + 4 <= |m|
    ensures var rest := ps[k + 1..];
            && Unresolved(ps[k..], id) == (if ps[k].id == id then [] else [ps[k]]) + Unresolved(rest, id)
            && PatchAll(m, ps[k..], id, target)
               == if ps[k].id == id then PatchAll(Overwrite(m, ps[k].loc, Le32(Wrap32(target - (ps[k].loc + 4)))),
                 rest, id, target)
                  else PatchAll(m, rest, id, target)
  {
    hide Overwrite, Le32, Wrap32;
    assert ps[k..][0] == ps[k] && ps[k..][1..] == ps[k + 1..];
  }

  lemma {:induction false} ResolveEnd(m: seq<Byte>, ps: seq<Patch>, id: nat, target: nat)
    ensures Unresolved(ps[|ps|..], id) == [] && PatchAll(m, ps[|ps|..], id, target) == m
  {
  }

  lemma {:induction false} PutNone(o: Output, xs: seq<Inst>)
    requires RoomFor(o, xs) && xs == []
    ensures Put(o, xs) == o
  {
    NothingEncoded();
    PutNothing(o);
  }

  lemma {:induction false} TwoFurther(o: Output, a: Byte, b: Byte)
    ensures At(Emission.Append(Emission.Append(o, [a]), [b])) == if o.Writing? then At(o) + 2 else 0
  {
  }

  /** The allocation after the pending arguments from number `i` on were asked for. */
  function AllocFrom(a: Alloc, vs: seq<nat>, i: nat): (r: Alloc)
    requires |a.used| == 16 && i <= |vs|
    ensures |r.used| == 16
  {
    LocateAll(a, Reversed(vs[i..]))
  }

  /** The pushes of arguments `from` to `to - 1`, read with the final locations. */
  function PushCodes(a: Alloc, vs: seq<nat>, from: nat, to: nat, direct: bool): seq<Inst>
    requires |a.used| == 16 && from <= to <= |vs|
  {
    PushAllCode(LocateAll(a, Reversed(vs)).locs, vs[from..to], direct)
  }

  lemma {:induction false} AllQueries(a: Alloc, vs: seq<nat>)
    requires |a.used| == 16
    ensures AllocFrom(a, vs, |vs|) == a && AllocFrom(a, vs, 0) == LocateAll(a, Reversed(vs))
  {
    assert vs[0..] == vs && vs[|vs|..] == [];
  }

  /** What encoding a call comes to. */
  lemma {:induction false} CallParts(j: Jit, o: Output, d: nat, fn: string)
    requires |j.enc.alloc.used| == 16 && RoomForBlock(j, o, CallFn(d, fn))
    ensures var a := Locate(j.enc.alloc, d);
            var a1 := LocateAll(a, Reversed(j.enc.pending));
            var setup := CallSetup(a1.locs, j.enc.pending);
            var tail := Dispatch(fn, CallCleanup(|j.enc.pending|, a.locs[d]));
            var o1 := Put(o, setup);
            && RoomFor(o, setup) && RoomFor(o1, TailNow(tail, j.labels, At(o1)))
            && Encoded(j, o, CallFn(d, fn)).1 == Put(o1, TailNow(tail, j.labels, At(o1)))
            && CallNoted(j, o, d, fn) == NoteTail(j.(enc := EncState(a1, j.enc.pending)), tail, o.Writing?, At(o1))
    ensures Encoded(j, o, CallFn(d, fn)) == (Cleared(CallNoted(j, o, d, fn)), Encoded(j, o, CallFn(d, fn)).1)
  {
    hide LocateAll, Locate, Reversed, CallSetup, CallCleanup, TailNow, Put, RoomFor;
    QueriesOfCall(j.enc.alloc, d, j.enc.pending);
  }

  function Cleared(j: Jit): Jit {
    j.(enc := j.enc.(pending := []))
  }

  /** The state when a call has been emitted and its arguments not yet forgotten. */
  function CallNoted(j: Jit, o: Output, d: nat, fn: string): Jit
    requires |j.enc.alloc.used| == 16
  {
    var a := Locate(j.enc.alloc, d);
    var a1 := LocateAll(a, Reversed(j.enc.pending));
    var o1 := Put(o, CallSetup(a1.locs, j.enc.pending));
    NoteTail(j.(enc := EncState(a1, j.enc.pending)), Dispatch(fn, CallCleanup(|j.enc.pending|, a.locs[d])), o.Writing?,
      At(o1))
  }

  // --- Facts about the prologue -----------------------------------------------------------

  function OpenCode(f: IrFunc): seq<Inst> {
    if AlignedStackSize(f) > 0 then [SubImm(RSP, Wrap32(AlignedStackSize(f)))] else []
  }

  /** The allocation after the first `i` parameters. */
  function ParamAlloc(f: IrFunc, i: nat): (a: Alloc)
    ensures |a.used| == 16
  {
    LocateAll(Alloc(seq(16, _ => false), map[], f.stackCount), UpTo(i))
  }

  /** The code of the first `i` parameters, read with the final locations. */
  function ParamCodes(f: IrFunc, i: nat): seq<Inst> {
    ParamsCode(ParamAlloc(f, f.params).locs, i)
  }

  lemma {:induction false} PrologueParts(o: Output, f: IrFunc)
    requires RoomFor(o, Prologue(f))
    ensures var o1 := Put(o, [Push(RBP)]);
            var o2 := Put(o1, [MovReg(RBP, RSP)]);
            var o3 := Put(o2, PushRegsCode([RBX, R12, R13, R14, R15]));
            var o4 := Put(o3, OpenCode(f));
            && RoomFor(o, [Push(RBP)]) && RoomFor(o1, [MovReg(RBP, RSP)])
            && RoomFor(o2, PushRegsCode([RBX, R12, R13, R14, R15])) && RoomFor(o3, OpenCode(f))
            && RoomFor(o4, ParamCodes(f, f.params)) && Put(o4, ParamCodes(f, f.params)) == Put(o, Prologue(f))
    ensures StartState(f) == EncState(ParamAlloc(f, f.params), [])
    ensures AlignedStackSize(f) > 0 ==> OpenCode(f) == [SubImm(RSP, Wrap32(AlignedStackSize(f)))]
    ensures AlignedStackSize(f) == 0 ==> OpenCode(f) == []
  {
    hide Put, RoomFor, ParamsCode, LocateAll, UpTo, AlignedStackSize, PushRegsCode;
    var pushes := PushRegsCode([RBX, R12, R13, R14, R15]);
    assert [Push(RBP)] + [MovReg(RBP, RSP)] == [Push(RBP), MovReg(RBP, RSP)];
    Parts3(o, [Push(RBP)] + [MovReg(RBP, RSP)] + pushes, OpenCode(f), ParamCodes(f, f.params));
    Parts3(o, [Push(RBP)], [MovReg(RBP, RSP)], pushes);
  }

  lemma {:induction false} NoParams(o: Output, f: IrFunc)
    requires RoomFor(o, ParamCodes(f, f.params))
    ensures Put(o, ParamCodes(f, 0)) == o
    ensures ParamAlloc(f, 0) == Alloc(seq(16, _ => false), map[], f.stackCount)
  {
    NothingEncoded();
    PutNothing(o);
  }

  lemma {:induction false} ParamsPrefix(locs: Locations, i: nat, n: nat) returns (rest: seq<Inst>)
    requires i <= n
    ensures ParamsCode(locs, n) == ParamsCode(locs, i) + rest
    decreases n
  {
    hide ParamCode;
    if i == n {
      rest := [];
    } else {
      rest := ParamsPrefix(locs, i, n - 1);
      rest := rest + ParamCode(n - 1, LocationOf(locs, n));
    }
  }

  lemma {:induction false} NextParam(o: Output, f: IrFunc, i: nat)
    requires i < f.params && RoomFor(o, ParamCodes(f, f.params))
    ensures var b := Locate(ParamAlloc(f, i), i + 1);
            var o1 := Put(o, ParamCodes(f, i));
            && b == ParamAlloc(f, i + 1)
            && RoomFor(o1, ParamCode(i, b.locs[i + 1]))
            && Put(o1, ParamCode(i, b.locs[i + 1])) == Put(o, ParamCodes(f, i + 1))
  {
    hide Put, RoomFor, ParamCode, Locate, LocateAll, UpTo;
    var start := Alloc(seq(16, _ => false), map[], f.stackCount);
    var locs := ParamAlloc(f, f.params).locs;
    UpToMore(i, i + 1);
    UpToMore(i + 1, f.params);
    assert UpTo(i + 1)[i..] == [i + 1];
    LocateMore(start, UpTo(i), [i + 1]);
    QueryOne(ParamAlloc(f, i), i + 1);
    LocateMore(start, UpTo(i + 1), UpTo(f.params)[i + 1..]);
    var rest := ParamsPrefix(locs, i + 1, f.params);
    Parts(o, ParamsCode(locs, i + 1), rest);
    Parts(o, ParamsCode(locs, i), ParamCode(i, LocationOf(locs, i + 1)));
  }

  lemma {:induction false} UpToMore(i: nat, n: nat)
    requires i <= n
    ensures UpTo(n) == UpTo(i) + UpTo(n)[i..]
  {
    assert UpTo(n)[..i] == UpTo(i);
  }

  lemma {:induction false} LocateMore(a: Alloc, vs: seq<nat>, ws: seq<nat>)
    requires |a.used| == 16
    ensures LocateAll(a, vs + ws) == LocateAll(LocateAll(a, vs), ws)
    decreases |vs|
  {
    hide Locate;
    if vs == [] {
      assert vs + ws == ws;
    } else {
      assert (vs + ws)[1..] == vs[1..] + ws;
      LocateMore(Locate(a, vs[0]), vs[1..], ws);
    }
  }

  lemma {:induction false} ReversedSplit(vs: seq<nat>, i: nat)
    requires i <= |vs|
    ensures Reversed(vs) == Reversed(vs[i..]) + Reversed(vs[..i])
    decreases i
  {
    if i > 0 {
      ReversedSplit(vs[1..], i - 1);
      assert vs[1..][i - 1..] == vs[i..] && vs[1..][..i - 1] == vs[..i][1..];
    } else {
      assert vs[0..] == vs && vs[..0] == [];
    }
  }

  lemma {:induction false} QueriesOfCall(a: Alloc, d: nat, vs: seq<nat>)
    requires |a.used| == 16
    ensures LocateAll(a, [d] + Reversed(vs)) == LocateAll(Locate(a, d), Reversed(vs))
    ensures d in LocateAll(a, [d] + Reversed(vs)).locs
  {
    hide Locate;
    LocateMore(a, [d], Reversed(vs));
    QueryOne(a, d);
  }

  lemma {:induction false} PushedNone(o: Output, a: Alloc, vs: seq<nat>, from: nat, to: nat, direct: bool)
    requires |a.used| == 16 && from <= to <= |vs| && RoomFor(o, PushCodes(a, vs, from, to, direct))
    ensures Put(o, PushCodes(a, vs, to, to, direct)) == o
  {
    hide PushCode, LocateAll, Reversed;
    assert vs[to..to] == [];
    NothingEncoded();
    PutNothing(o);
  }

  lemma {:induction false} PushSplit(locs: Locations, vs: seq<nat>, i: nat, direct: bool)
    requires i <= |vs|
    ensures PushAllCode(locs, vs, direct) == PushAllCode(locs, vs[i..], direct) + PushAllCode(locs, vs[..i], direct)
    decreases i
  {
    hide PushCode;
    if i > 0 {
      PushSplit(locs, vs[1..], i - 1, direct);
      assert vs[1..][i - 1..] == vs[i..] && vs[1..][..i - 1] == vs[..i][1..];
    } else {
      assert vs[0..] == vs && vs[..0] == [];
    }
  }

  lemma {:induction false} PushCodesSplit(a: Alloc, vs: seq<nat>, from: nat, i: nat, to: nat, direct: bool)
    requires |a.used| == 16 && from <= i <= to <= |vs|
    ensures PushCodes(a, vs, from, to, direct) == PushCodes(a, vs, i, to, direct) + PushCodes(a, vs, from, i, direct)
  {
    hide PushAllCode, LocateAll, Reversed;
    PushSplit(LocateAll(a, Reversed(vs)).locs, vs[from..to], i - from, direct);
    assert vs[from..to][i - from..] == vs[i..to] && vs[from..to][..i - from] == vs[from..i];
  }

  lemma {:induction false} PushCodesOne(a: Alloc, vs: seq<nat>, i: nat, direct: bool)
    requires |a.used| == 16 && i < |vs|
    ensures PushCodes(a, vs, i, i + 1, direct) == PushCode(LocationOf(LocateAll(a, Reversed(vs)).locs, vs[i]), direct)
  {
    hide LocateAll, Reversed, PushCode, LocationOf;
    var one := vs[i..i + 1];
    var locs := LocateAll(a, Reversed(vs)).locs;
    assert one == [vs[i]] && one[1..] == [];
    assert PushAllCode(locs, [], direct) == [];
    assert PushAllCode(locs, one, direct) == [] + PushCode(LocationOf(locs, one[0]), direct);
  }

  /** One more argument pushed. */
  lemma {:induction false} PushNext(o: Output, a: Alloc, vs: seq<nat>, i: nat, from: nat, to: nat, direct: bool)
    requires |a.used| == 16 && from <= i < to <= |vs|
    requires RoomFor(o, PushCodes(a, vs, from, to, direct))
    ensures var o1 := Put(o, PushCodes(a, vs, i + 1, to, direct));
            var b := Locate(AllocFrom(a, vs, i + 1), vs[i]);
            && b == AllocFrom(a, vs, i)
            && RoomFor(o1, PushCode(b.locs[vs[i]], direct))
            && Put(o1, PushCode(b.locs[vs[i]], direct)) == Put(o, PushCodes(a, vs, i, to, direct))
  {
    hide *;
    PushCodesSplit(a, vs, from, i, to, direct);
    Parts(o, PushCodes(a, vs, i, to, direct), PushCodes(a, vs, from, i, direct));
    PushCodesSplit(a, vs, i, i + 1, to, direct);
    PushCodesOne(a, vs, i, direct);
    NextQuery(a, vs, i);
    Parts(o, PushCodes(a, vs, i + 1, to, direct), PushCodes(a, vs, i, i + 1, direct));
  }

  lemma {:induction false} NextQuery(a: Alloc, vs: seq<nat>, i: nat)
    requires |a.used| == 16 && i < |vs|
    ensures var b := Locate(AllocFrom(a, vs, i + 1), vs[i]);
            b == AllocFrom(a, vs, i) && LocationOf(LocateAll(a, Reversed(vs)).locs, vs[i]) == b.locs[vs[i]]
  {
    hide Locate, LocateAll, Reversed;
    ReversedNext(vs, i);
    LocateMore(a, Reversed(vs[i + 1..]), [vs[i]]);
    QueryOne(AllocFrom(a, vs, i + 1), vs[i]);
    ReversedSplit(vs, i);
    LocateMore(a, Reversed(vs[i..]), Reversed(vs[..i]));
  }

  lemma {:induction false} ReversedNext(vs: seq<nat>, i: nat)
    requires i < |vs|
    ensures Reversed(vs[i..]) == Reversed(vs[i + 1..]) + [vs[i]]
  {
    assert vs[i..][1..] == vs[i + 1..];
  }

  lemma {:induction false} MapOfAt(table: seq<Option<Location>>, v: nat)
    requires v < |table|
    ensures v in MapOf(table) <==> table[v].Some?
    ensures table[v].Some? ==> MapOf(table)[v] == table[v].value
  {
  }

  lemma {:induction false} MapOfPut(table: seq<Option<Location>>, v: nat, loc: Location)
    requires v < |table|
    ensures MapOf(table[v := Some(loc)]) == MapOf(table)[v := loc]
  {
  }

  lemma {:induction false} LocateIs(a: Alloc, v: nat)
    requires |a.used| == 16
    ensures v in a.locs ==> Locate(a, v) == a
    ensures v !in a.locs ==>
              var r := FirstFree(a.used, 0);
              Locate(a, v) == if r < 16 then a.(used := a.used[r := true], locs := a.locs[v := InReg(r)])
                              else a.(locs := a.locs[v := OnStack(CellOffset(a.base + v))])
  {
  }

  lemma {:induction false} FirstFreeIs(used: seq<bool>, from: nat, r: nat)
    requires |used| == 16 && from <= r < 16 && Allocatable(r) && !used[r]
    requires forall i :: from <= i < r && Allocatable(i) ==> used[i]
    ensures FirstFree(used, from) == r
    decreases r - from
  {
    if from < r {
      FirstFreeIs(used, from + 1, r);
    }
  }

  lemma {:induction false} NoneFree(used: seq<bool>, from: nat)
    requires |used| == 16 && from <= 16 && forall i :: from <= i < 16 && Allocatable(i) ==> used[i]
    ensures FirstFree(used, from) == 16
    decreases 16 - from
  {
    if from < 16 {
      NoneFree(used, from + 1);
    }
  }
}
