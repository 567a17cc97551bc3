/**
  The x86-64 instructions the back end emits, their bytes, and a decoder for them
  (Intel 64 and IA-32 Architectures Software Developer's Manual, volume 2,
  sections 2.1.3 and 2.2.1).
 */
module X86 {
  import opened Words

  type Byte = b: int | 0 <= b < 0x100
  type Int8 = i: int | -0x80 <= i < 0x80
  type Int32 = i: int | -0x8000_0000 <= i < 0x8000_0000
  type Reg = r: int | 0 <= r < 16

  const RAX: Reg := 0
  const RCX: Reg := 1
  const RDX: Reg := 2
  const RBX: Reg := 3
  const RSP: Reg := 4
  const RBP: Reg := 5
  const RSI: Reg := 6
  const RDI: Reg := 7
  const R8: Reg := 8
  const R9: Reg := 9
  const R12: Reg := 12
  const R13: Reg := 13
  const R14: Reg := 14
  const R15: Reg := 15

  datatype AluOp = AluAdd | AluOr | AluAnd | AluSub | AluXor | AluCmp | AluTest
  datatype ShiftOp = Shl | Shr | Sar
  datatype Cond = CondE | CondNE | CondL | CondGE | CondLE | CondG

  /** Memory operands are always `[rbp + disp]`. */
  datatype Inst =
    | MovReg(dst: Reg, src: Reg)
    | StoreLocal(src: Reg, disp: Int32)
    | LoadLocal(dst: Reg, disp: Int32)
    | StoreLow8(src: Reg, disp: Int32)
    | StoreLow32(src: Reg, disp: Int32)
    | LoadSx8(dst: Reg, disp: Int32)
    | LoadSx32(dst: Reg, disp: Int32)
    | MovImm(dst: Reg, imm: Word)
    | Alu(op: AluOp, dst: Reg, src: Reg)
    | Imul(dst: Reg, src: Reg)
    | SetCc(cc: Cond, dst: Reg)
    | Movzx(dst: Reg, src: Reg)
    | Push(src: Reg)
    | Pop(dst: Reg)
    | AddImm(dst: Reg, imm32: Int32)
    | SubImm(dst: Reg, imm32: Int32)
    | CmpImm(dst: Reg, imm8: Int8)
    | Cqo
    | Idiv(src: Reg)
    | Neg(dst: Reg)
    | NotReg(dst: Reg)
    | Shift(shift: ShiftOp, dst: Reg)
    | Lea(dst: Reg, disp8: Int8)
    | RetNear
    | CallReg(src: Reg)
    | JmpRel(rel: Int32)
    | JccRel(cc: Cond, rel: Int32)

  // --- Bytes -----------------------------------------------------------------------

  /** `n` in `k` bytes, least significant first. */
  function Le(n: nat, k: nat): (bs: seq<Byte>)
    ensures |bs| == k
  {
    if k == 0 then [] else [n % 0x100] + Le(n / 0x100, k - 1)
  }

  function FromLe(bs: seq<Byte>): nat {
    if bs == [] then 0 else bs[0] + 0x100 * FromLe(bs[1..])
  }

  function Le32(i: Int32): (bs: seq<Byte>)
    ensures |bs| == 4
  {
    Le(i % 0x1_0000_0000, 4)
  }

  function FromLe32(bs: seq<Byte>): Int32
    requires |bs| == 4
  {
    Wrap32(FromLe(bs))
  }

  function Le64(w: Word): (bs: seq<Byte>)
    ensures |bs| == 8
  {
    Le(Unsigned(w), 8)
  }

  function ByteOf(i: Int8): Byte {
    i % 0x100
  }

  // --- Encoding --------------------------------------------------------------------

  function High(r: Reg): nat {
    if r >= 8 then 1 else 0
  }

  /** REX.W with the R bit of the ModRM reg field and the B bit of its rm field. */
  function Rex(rm: Reg, reg: Reg): Byte {
    0x48 + 4 * High(reg) + High(rm)
  }

  /** REX without W, with R for the register of a byte store. */
  function RexLow(reg: Reg): Byte {
    0x40 + 4 * High(reg)
  }

  /** REX without W, with B: it names SPL..DIL and R8B..R15B. */
  function RexByte(rm: Reg): Byte {
    0x40 + High(rm)
  }

  function ModReg(rm: Reg, reg: Reg): Byte {
    0xC0 + 8 * (reg % 8) + rm % 8
  }

  /** ModRM for `[rbp + disp32]`. */
  function ModLocal(reg: Reg): Byte {
    0x80 + 8 * (reg % 8) + 5
  }

  /** ModRM for `[rbp + disp8]`. */
  function ModLocal8(reg: Reg): Byte {
    0x40 + 8 * (reg % 8) + 5
  }

  function AluByte(op: AluOp): Byte {
    match op
    case AluAdd => 0x01
    case AluOr => 0x09
    case AluAnd => 0x21
    case AluSub => 0x29
    case AluXor => 0x31
    case AluCmp => 0x39
    case AluTest => 0x85
  }

  function CondCode(cc: Cond): nat {
    match cc
    case CondE => 0x4
    case CondNE => 0x5
    case CondL => 0xC
    case CondGE => 0xD
    case CondLE => 0xE
    case CondG => 0xF
  }

  function ShiftExt(op: ShiftOp): nat {
    match op
    case Shl => 4
    case Shr => 5
    case Sar => 7
  }

  function Encode(i: Inst): (bs: seq<Byte>)
    ensures 1 <= |bs| <= 10
  {
    match i
    case MovReg(d, s) => [Rex(d, s), 0x89, ModReg(d, s)]
    case StoreLocal(s, disp) => [Rex(0, s), 0x89, ModLocal(s)] + Le32(disp)
    case LoadLocal(d, disp) => [Rex(0, d), 0x8B, ModLocal(d)] + Le32(disp)
    case StoreLow8(s, disp) => [RexLow(s), 0x88, ModLocal(s)] + Le32(disp)
    case StoreLow32(s, disp) => (if s >= 8 then [0x44] else []) + [0x89, ModLocal(s)] + Le32(disp)
    case LoadSx8(d, disp) => [Rex(0, d), 0x0F, 0xBE, ModLocal(d)] + Le32(disp)
    case LoadSx32(d, disp) => [Rex(0, d), 0x63, ModLocal(d)] + Le32(disp)
    case MovImm(d, w) => [Rex(d, 0), 0xB8 + d % 8] + Le64(w)
    case Alu(op, d, s) => [Rex(d, s), AluByte(op), ModReg(d, s)]
    case Imul(d, s) => [Rex(s, d), 0x0F, 0xAF, ModReg(s, d)]
    case SetCc(cc, d) => (if d >= 4 then [RexByte(d)] else []) + [0x0F, 0x90 + CondCode(cc), ModReg(d, 0)]
    case Movzx(d, s) => [Rex(s, d), 0x0F, 0xB6, ModReg(s, d)]
    case Push(r) => (if r >= 8 then [0x41] else []) + [0x50 + r % 8]
    case Pop(r) => (if r >= 8 then [0x41] else []) + [0x58 + r % 8]
    case AddImm(d, n) => [Rex(d, 0), 0x81, ModReg(d, 0)] + Le32(n)
    case SubImm(d, n) => [Rex(d, 0), 0x81, ModReg(d, 5)] + Le32(n)
    case CmpImm(d, n) => [Rex(d, 0), 0x83, ModReg(d, 7), ByteOf(n)]
    case Cqo => [0x48, 0x99]
    case Idiv(s) => [Rex(s, 0), 0xF7, ModReg(s, 7)]
    case Neg(d) => [Rex(d, 0), 0xF7, ModReg(d, 3)]
    case NotReg(d) => [Rex(d, 0), 0xF7, ModReg(d, 2)]
    case Shift(op, d) => [Rex(d, 0), 0xD3, ModReg(d, ShiftExt(op))]
    case Lea(d, disp) => [Rex(0, d), 0x8D, ModLocal8(d), ByteOf(disp)]
    case RetNear => [0xC3]
    case CallReg(s) => (if s >= 8 then [0x41] else []) + [0xFF, ModReg(s, 2)]
    case JmpRel(rel) => [0xE9] + Le32(rel)
    case JccRel(cc, rel) => [0x0F, 0x80 + CondCode(cc)] + Le32(rel)
  }

  function EncodeAll(xs: seq<Inst>): seq<Byte> {
    if xs == [] then [] else Encode(xs[0]) + EncodeAll(xs[1..])
  }

  // --- Decoding --------------------------------------------------------------------

  /** The fields of a REX prefix: W, R and B. */
  datatype Prefix = Prefix(present: bool, w: bool, r: nat, b: nat)

  predicate IsRex(b: Byte) {
    0x40 <= b < 0x50
  }

  function PrefixOf(b: Byte): Prefix {
    Prefix(true, b / 8 % 2 == 1, b / 4 % 2, b % 2)
  }

  function ModField(b: Byte): nat {
    b / 64
  }

  function RegField(b: Byte): nat {
    b / 8 % 8
  }

  function RmField(b: Byte): nat {
    b % 8
  }

  type Decoded = Option<(Inst, nat)>

  /** The first instruction in `bs` and its length. */
  function Decode(bs: seq<Byte>): Decoded {
    if bs == [] then None
    else if IsRex(bs[0]) then Longer(DecodeOp(bs[1..], PrefixOf(bs[0])), 1)
    else DecodeOp(bs, Prefix(false, false, 0, 0))
  }

  function Longer(d: Decoded, n: nat): Decoded {
    match d
    case Some((i, k)) => Some((i, k + n))
    case None => None
  }

  function Reg4(field: nat, high: nat): Reg {
    (field % 8 + 8 * high) % 16
  }

  function ByteToAlu(b: Byte): Option<AluOp> {
    if b == 0x01 then Some(AluAdd)
    else if b == 0x09 then Some(AluOr)
    else if b == 0x21 then Some(AluAnd)
    else if b == 0x29 then Some(AluSub)
    else if b == 0x31 then Some(AluXor)
    else if b == 0x39 then Some(AluCmp)
    else if b == 0x85 then Some(AluTest)
    else None
  }

  function CodeToCond(n: nat): Option<Cond> {
    if n == 0x4 then Some(CondE)
    else if n == 0x5 then Some(CondNE)
    else if n == 0xC then Some(CondL)
    else if n == 0xD then Some(CondGE)
    else if n == 0xE then Some(CondLE)
    else if n == 0xF then Some(CondG)
    else None
  }

  function DecodeOp(bs: seq<Byte>, p: Prefix): Decoded {
    if bs == [] then None
    else
      var op := bs[0];
      if op == 0x0F then DecodeTwoByte(bs, p)
      else if op == 0xC3 && !p.present then Some((RetNear, 1))
      else if op == 0x99 && p.w then Some((Cqo, 1))
      else if 0x50 <= op < 0x58 && !p.w then Some((Push(Reg4(op - 0x50, p.b)), 1))
      else if 0x58 <= op < 0x60 && !p.w then Some((Pop(Reg4(op - 0x58, p.b)), 1))
      else if 0xB8 <= op < 0xC0 && p.w then
        if |bs| < 9 then None else Some((MovImm(Reg4(op - 0xB8, p.b), Wrap(FromLe(bs[1..9]))), 9))
      else if op == 0xE9 && !p.present then
        if |bs| < 5 then None else Some((JmpRel(FromLe32(bs[1..5])), 5))
      else if |bs| < 2 then None
      else if ModField(bs[1]) == 3 then DecodeRegForm(bs, p)
      else DecodeLocalForm(bs, p)
  }

  /** ModRM with two registers, or a register and an opcode extension. */
  function DecodeRegForm(bs: seq<Byte>, p: Prefix): Decoded
    requires |bs| >= 2 && ModField(bs[1]) == 3
  {
    var op := bs[0];
    var ext := RegField(bs[1]);
    var rm := Reg4(RmField(bs[1]), p.b);
    var reg := Reg4(ext, p.r);
    if op == 0xFF && ext == 2 && !p.w then Some((CallReg(rm), 2))
    else if !p.w then None
    else if op == 0x89 then Some((MovReg(rm, reg), 2))
    else if ByteToAlu(op).Some? then Some((Alu(ByteToAlu(op).value, rm, reg), 2))
    else if op == 0x81 && |bs| >= 6 && ext == 0 then Some((AddImm(rm, FromLe32(bs[2..6])), 6))
    else if op == 0x81 && |bs| >= 6 && ext == 5 then Some((SubImm(rm, FromLe32(bs[2..6])), 6))
    else if op == 0x83 && |bs| >= 3 && ext == 7 then Some((CmpImm(rm, Wrap8(bs[2])), 3))
    else if op == 0xF7 && ext == 7 then Some((Idiv(rm), 2))
    else if op == 0xF7 && ext == 3 then Some((Neg(rm), 2))
    else if op == 0xF7 && ext == 2 then Some((NotReg(rm), 2))
    else if op == 0xD3 && ext == 4 then Some((Shift(Shl, rm), 2))
    else if op == 0xD3 && ext == 5 then Some((Shift(Shr, rm), 2))
    else if op == 0xD3 && ext == 7 then Some((Shift(Sar, rm), 2))
    else None
  }

  /** ModRM for `[rbp + disp8]` or `[rbp + disp32]`. */
  function DecodeLocalForm(bs: seq<Byte>, p: Prefix): Decoded
    requires |bs| >= 2
  {
    var op := bs[0];
    var mod := ModField(bs[1]);
    var reg := Reg4(RegField(bs[1]), p.r);
    if RmField(bs[1]) != 5 || p.b != 0 then None
    else if mod == 1 then
      if op == 0x8D && p.w && |bs| >= 3 then Some((Lea(reg, Wrap8(bs[2])), 3)) else None
    else if mod != 2 || |bs| < 6 then None
    else
      var disp := FromLe32(bs[2..6]);
      if op == 0x89 && p.w then Some((StoreLocal(reg, disp), 6))
      else if op == 0x89 then Some((StoreLow32(reg, disp), 6))
      else if op == 0x8B && p.w then Some((LoadLocal(reg, disp), 6))
      else if op == 0x88 && p.present && !p.w then Some((StoreLow8(reg, disp), 6))
      else if op == 0x63 && p.w then Some((LoadSx32(reg, disp), 6))
      else None
  }

  function DecodeTwoByte(bs: seq<Byte>, p: Prefix): Decoded
    requires |bs| >= 1
  {
    if |bs| < 3 then None
    else
      var op := bs[1];
      if 0x80 <= op < 0x90 && !p.present && |bs| >= 6 then
        (match CodeToCond(op - 0x80)
         case Some(cc) => Some((JccRel(cc, FromLe32(bs[2..6])), 6))
         case None => None)
      else if 0x90 <= op < 0xA0 && ModField(bs[2]) == 3 && !p.w && (p.present || RmField(bs[2]) < 4) then
        (match CodeToCond(op - 0x90)
         case Some(cc) => Some((SetCc(cc, Reg4(RmField(bs[2]), p.b)), 3))
         case None => None)
      else if op == 0xAF && p.w && ModField(bs[2]) ==
        3 then Some((Imul(Reg4(RegField(bs[2]), p.r), Reg4(RmField(bs[2]), p.b)), 3))
      else if op == 0xB6 && p.w && ModField(bs[2]) ==
        3 then Some((Movzx(Reg4(RegField(bs[2]), p.r), Reg4(RmField(bs[2]), p.b)), 3))
      else if op == 0xBE && p.w && p.b == 0 && ModField(bs[2]) == 2 && RmField(bs[2]) == 5 && |bs| >= 7 then
        Some((LoadSx8(Reg4(RegField(bs[2]), p.r), FromLe32(bs[3..7])), 7))
      else None
  }

  // --- Round trip ------------------------------------------------------------------

  function Pow256(k: nat): nat {
    if k == 0 then 1 else 0x100 * Pow256(k - 1)
  }

  lemma {:induction false} LeRoundTrip(n: nat, k: nat)
    requires n < Pow256(k)
    ensures FromLe(Le(n, k)) == n
  {
    if k > 0 {
      LeRoundTrip(n / 0x100, k - 1);
      assert Le(n, k)[1..] == Le(n / 0x100, k - 1);
    }
  }

  lemma {:induction false} Pow256At()
    ensures Pow256(4) == 0x1_0000_0000 && Pow256(8) == TWO64
  {
    assert Pow256(2) == 0x1_0000;
    assert Pow256(4) == 0x1_0000_0000;
    assert Pow256(6) == 0x1_0000_0000_0000;
  }

  lemma {:induction false} Le32RoundTrip(i: Int32)
    ensures FromLe32(Le32(i)) == i
  {
    hide Le, FromLe, Pow256;
    Pow256At();
    LeRoundTrip(i % 0x1_0000_0000, 4);
  }

  lemma {:induction false} Le64RoundTrip(w: Word)
    ensures Wrap(FromLe(Le64(w))) == w
  {
    hide Le, FromLe, Pow256, Wrap, Unsigned;
    UnsignedBelow(w);
    Pow256At();
    LeRoundTrip(Unsigned(w), 8);
    WrapUnsigned(w);
  }

  lemma {:induction false} PrefixFields(rm: Reg, reg: Reg)
    ensures IsRex(Rex(rm, reg)) && PrefixOf(Rex(rm, reg)) == Prefix(true, true, High(reg), High(rm))
    ensures IsRex(RexLow(reg)) && PrefixOf(RexLow(reg)) == Prefix(true, false, High(reg), 0)
    ensures IsRex(RexByte(rm)) && PrefixOf(RexByte(rm)) == Prefix(true, false, 0, High(rm))
    ensures PrefixOf(0x41) == Prefix(true, false, 0, 1) && PrefixOf(0x44) == Prefix(true, false, 1, 0)
    ensures IsRex(0x48) && PrefixOf(0x48) == Prefix(true, true, 0, 0)
    ensures forall b: Byte :: IsRex(b) ==> 0x40 <= b < 0x50
  {
  }

  lemma {:induction false} Fields(mod: nat, q: nat, m: nat)
    requires mod < 4 && q < 8 && m < 8
    ensures var b := 64 * mod + 8 * q + m; b / 64 == mod && b / 8 % 8 == q && b % 8 == m
  {
    var b := 64 * mod + 8 * q + m;
    assert b / 8 == 8 * mod + q;
  }

  lemma {:induction false} ModFields(rm: Reg, reg: Reg)
    ensures var b := ModReg(rm, reg);
            ModField(b) == 3 && RegField(b) == reg % 8 && RmField(b) == rm % 8
    ensures ModField(ModLocal(reg)) == 2 && RegField(ModLocal(reg)) == reg % 8 && RmField(ModLocal(reg)) == 5
    ensures ModField(ModLocal8(reg)) == 1 && RegField(ModLocal8(reg)) == reg % 8 && RmField(ModLocal8(reg)) == 5
  {
    Fields(3, reg % 8, rm % 8);
    Fields(2, reg % 8, 5);
    Fields(1, reg % 8, 5);
  }

  lemma {:induction false} RegFields(r: Reg)
    ensures Reg4(r % 8, High(r)) == r && (High(r) == 0 <==> r < 8) && (High(r) == 1 <==> r >= 8)
  {
  }

  predicate Decodes(i: Inst, rest: seq<Byte>) {
    Decode(Encode(i) + rest) == Some((i, |Encode(i)|))
  }

  lemma {:induction false} ShortDecodes(i: Inst, rest: seq<Byte>)
    requires i.Push? || i.Pop? || i.RetNear? || i.Cqo? || i.JmpRel? || i.MovImm?
    ensures Decodes(i, rest)
  {
    hide DecodeRegForm, DecodeLocalForm, DecodeTwoByte, Le, FromLe, Rex, PrefixOf, Reg4, High, Wrap, Wrap32, Unsigned;
    var bs := Encode(i) + rest;
    match i
    case MovImm(d, w) =>
      PrefixFields(d, 0);
      RegFields(d);
      RegFields(0);
      Le64RoundTrip(w);
      assert bs[2..10] == Le64(w) == bs[1..][1..9];
    case JmpRel(n) => Le32RoundTrip(n); assert bs[1..5] == Le32(n);
    case Push(r) => PrefixFields(r, 0); RegFields(r);
    case Pop(r) => PrefixFields(r, 0); RegFields(r);
    case Cqo => PrefixFields(0, 0);
    case _ =>
  }

  lemma {:induction false} TwoRegsDecode(i: Inst, rest: seq<Byte>)
    requires i.MovReg? || i.Alu?
    ensures Decodes(i, rest)
  {
    hide DecodeLocalForm, DecodeTwoByte, Le, FromLe, Rex, PrefixOf, Reg4, High, ModReg, ModField, RegField, RmField;
    PrefixFields(i.dst, i.src);
    ModFields(i.dst, i.src);
    RegFields(i.dst);
    RegFields(i.src);
  }

  lemma {:induction false} GroupThreeDecodes(i: Inst, rest: seq<Byte>)
    requires i.Idiv? || i.Neg? || i.NotReg?
    ensures Decodes(i, rest)
  {
    hide DecodeLocalForm, DecodeTwoByte, Le, FromLe, Rex, PrefixOf, Reg4, High, ModReg, ModField, RegField, RmField;
    var r := if i.Idiv? then i.src else i.dst;
    PrefixFields(r, 0);
    ModFields(r, if i.Idiv? then 7 else if i.Neg? then 3 else 2);
    RegFields(r);
    RegFields(0);
  }

  lemma {:induction false} ShiftDecodes(i: Inst, rest: seq<Byte>)
    requires i.Shift? || i.CallReg? || i.CmpImm?
    ensures Decodes(i, rest)
  {
    hide Decode;
    match i
    case Shift(op, d) => ShiftRegDecodes(op, d, rest);
    case CallReg(s) => CallRegDecodes(s, rest);
    case CmpImm(d, n) => CmpImmDecodes(d, n, rest);
    case _ =>
  }

  lemma {:induction false} ShiftRegDecodes(op: ShiftOp, d: Reg, rest: seq<Byte>)
    ensures Decodes(Shift(op, d), rest)
  {
    hide DecodeLocalForm, DecodeTwoByte, Le, FromLe, Rex, PrefixOf, Reg4, High, ModReg, ModField, RegField, RmField;
    PrefixFields(d, 0);
    ModFields(d, ShiftExt(op));
    RegFields(d);
  }

  lemma {:induction false} CallRegDecodes(s: Reg, rest: seq<Byte>)
    ensures Decodes(CallReg(s), rest)
  {
    hide DecodeLocalForm, DecodeTwoByte, Le, FromLe, Rex, PrefixOf, Reg4, High, ModReg, ModField, RegField, RmField;
    PrefixFields(s, 0);
    ModFields(s, 2);
    RegFields(s);
    RegFields(0);
  }

  lemma {:induction false} CmpImmDecodes(d: Reg, n: Int8, rest: seq<Byte>)
    ensures Decodes(CmpImm(d, n), rest)
  {
    hide DecodeLocalForm, DecodeTwoByte, Le, FromLe, Rex, PrefixOf, Reg4, High, ModReg, ModField, RegField, RmField;
    PrefixFields(d, 0);
    ModFields(d, 7);
    RegFields(d);
  }

  lemma {:induction false} ImmediateDecodes(i: Inst, rest: seq<Byte>)
    requires i.AddImm? || i.SubImm?
    ensures Decodes(i, rest)
  {
    hide DecodeLocalForm, DecodeTwoByte, Le, FromLe, Wrap32, Rex, PrefixOf, Reg4, High, ModReg, ModField, RegField,
      RmField;
    var bs := Encode(i) + rest;
    PrefixFields(i.dst, 0);
    ModFields(i.dst, if i.AddImm? then 0 else 5);
    RegFields(i.dst);
    RegFields(0);
    Le32RoundTrip(i.imm32);
    assert bs[3..7] == Le32(i.imm32) == bs[1..][2..6];
  }

  lemma {:induction false} LocalDecodes(i: Inst, rest: seq<Byte>)
    requires i.StoreLocal? || i.LoadLocal? || i.StoreLow8? || i.LoadSx32?
    ensures Decodes(i, rest)
  {
    hide DecodeRegForm, DecodeTwoByte, Le, FromLe, Wrap32, Rex, RexLow, PrefixOf, Reg4, High, ModLocal, ModField,
      RegField, RmField;
    var bs := Encode(i) + rest;
    var r := if i.StoreLocal? || i.StoreLow8? then i.src else i.dst;
    PrefixFields(0, r);
    ModFields(0, r);
    RegFields(r);
    RegFields(0);
    Le32RoundTrip(i.disp);
    assert bs[3..7] == Le32(i.disp) == bs[1..][2..6];
  }

  lemma {:induction false} Store32Decodes(i: Inst, rest: seq<Byte>)
    requires i.StoreLow32? || i.Lea?
    ensures Decodes(i, rest)
  {
    hide DecodeRegForm, DecodeTwoByte, Le, FromLe, Wrap32, Rex, PrefixOf, Reg4, High, ModLocal, ModLocal8, ModField,
      RegField, RmField;
    var bs := Encode(i) + rest;
    var r := if i.StoreLow32? then i.src else i.dst;
    PrefixFields(0, r);
    ModFields(0, r);
    RegFields(r);
    RegFields(0);
    if i.StoreLow32? {
      Le32RoundTrip(i.disp);
      if i.src >= 8 {
        assert bs[3..7] == Le32(i.disp) == bs[1..][2..6];
      } else {
        assert bs[2..6] == Le32(i.disp);
      }
    }
  }

  lemma {:induction false} TwoByteDecodes(i: Inst, rest: seq<Byte>)
    requires i.Imul? || i.Movzx? || i.SetCc? || i.LoadSx8? || i.JccRel?
    ensures Decodes(i, rest)
  {
    hide DecodeRegForm, DecodeLocalForm, Le, FromLe, Wrap32, Rex, RexByte, PrefixOf, Reg4, High, ModReg, ModLocal,
      ModField, RegField, RmField;
    var bs := Encode(i) + rest;
    RegFields(0);
    match i
    case LoadSx8(d, disp) =>
      PrefixFields(0, d);
      ModFields(0, d);
      RegFields(d);
      Le32RoundTrip(disp);
      assert bs[4..8] == Le32(disp) == bs[1..][3..7];
    case JccRel(cc, n) => Le32RoundTrip(n); assert bs[2..6] == Le32(n);
    case SetCc(_, d) =>
      PrefixFields(d, 0);
      ModFields(d, 0);
      RegFields(d);
    case Imul(d, s) =>
      PrefixFields(s, d);
      ModFields(s, d);
      RegFields(d);
      RegFields(s);
    case Movzx(d, s) =>
      PrefixFields(s, d);
      ModFields(s, d);
      RegFields(d);
      RegFields(s);
  }

  /** Decoding the bytes of an instruction, whatever follows them, gives the instruction back. */
  lemma {:induction false} DecodeEncode(i: Inst, rest: seq<Byte>)
    ensures Decodes(i, rest)
  {
    hide Decodes;
    if i.Push? || i.Pop? || i.RetNear? || i.Cqo? || i.JmpRel? || i.MovImm? {
      ShortDecodes(i, rest);
    } else if i.MovReg? || i.Alu? {
      TwoRegsDecode(i, rest);
    } else if i.Idiv? || i.Neg? || i.NotReg? {
      GroupThreeDecodes(i, rest);
    } else if i.Shift? || i.CallReg? || i.CmpImm? {
      ShiftDecodes(i, rest);
    } else if i.AddImm? || i.SubImm? {
      ImmediateDecodes(i, rest);
    } else if i.StoreLocal? || i.LoadLocal? || i.StoreLow8? || i.LoadSx32? {
      LocalDecodes(i, rest);
    } else if i.StoreLow32? || i.Lea? {
      Store32Decodes(i, rest);
    } else {
      TwoByteDecodes(i, rest);
    }
  }

  function DecodeAll(bs: seq<Byte>): Option<seq<Inst>>
    decreases |bs|
  {
    if bs == [] then Some([])
    else
      match Decode(bs)
      case None => None
      case Some((i, n)) =>
        if n == 0 || n > |bs| then None
        else
          match DecodeAll(bs[n..])
          case None => None
          case Some(rest) => Some([i] + rest)
  }

  /** Emitted code has one reading: decoding any concatenation of instructions gives exactly them. */
  lemma {:induction false} UniquelyDecodable(xs: seq<Inst>)
    ensures DecodeAll(EncodeAll(xs)) == Some(xs)
    decreases |xs|
  {
    hide Decode, Encode;
    if xs != [] {
      var bs, rest := Encode(xs[0]), EncodeAll(xs[1..]);
      DecodeEncode(xs[0], rest);
      assert (bs + rest)[|bs|..] == rest;
      UniquelyDecodable(xs[1..]);
      assert [xs[0]] + xs[1..] == xs;
    }
  }
}
