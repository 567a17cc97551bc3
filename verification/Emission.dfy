/**
  The byte emitters. They write through a cursor into the code memory, or only count,
  when the cursor has no memory: the same code measures a function and writes it.
 */
module Emission {
  import opened Words
  import opened X86
  import opened CodeLayout
  import opened Encoders

  // --- Output as a value -------------------------------------------------------------

  /** `bytes` is the whole code memory, `at` the place of the next byte, `count` the bytes so far. */
  datatype Output =
    | Measuring(count: nat)
    | Writing(bytes: seq<Byte>, at: nat, count: nat)

  predicate Room(o: Output, n: nat) {
    o.Writing? ==> o.at + n <= |o.bytes|
  }

  function Overwrite(m: seq<Byte>, at: nat, bs: seq<Byte>): (r: seq<Byte>)
    requires at + |bs| <= |m|
    ensures |r| == |m|
    ensures forall k :: 0 <= k < |m| ==> r[k] == if at <= k < at + |bs| then bs[k - at] else m[k]
  {
    m[..at] + bs + m[at + |bs|..]
  }

  /** Out of room, nothing is written. */
  function Append(o: Output, bs: seq<Byte>): (r: Output)
    ensures r.count == o.count + |bs|
    ensures r.Writing? == o.Writing?
    ensures r.Writing? ==> r.at == o.at + |bs| && |r.bytes| == |o.bytes|
    ensures forall n {:trigger Room(r, n)} :: Room(o, |bs| + n) ==> Room(r, n)
  {
    match o
    case Measuring(n) => Measuring(n + |bs|)
    case Writing(m, at, n) =>
      Writing(if at + |bs| <= |m| then Overwrite(m, at, bs) else m, at + |bs|, n + |bs|)
  }

  function Put(o: Output, xs: seq<Inst>): Output {
    Append(o, EncodeAll(xs))
  }

  predicate RoomFor(o: Output, xs: seq<Inst>) {
    Room(o, |EncodeAll(xs)|)
  }

  lemma {:induction false} AppendTwice(o: Output, a: seq<Byte>, b: seq<Byte>)
    requires Room(o, |a| + |b|)
    ensures Append(Append(o, a), b) == Append(o, a + b)
    ensures Room(o, |a|) && Room(Append(o, a), |b|)
  {
    if o.Writing? {
      assert Overwrite(Overwrite(o.bytes, o.at, a), o.at + |a|, b) == Overwrite(o.bytes, o.at, a + b);
    }
  }

  lemma {:induction false} AppendNothing(o: Output)
    requires Room(o, 0)
    ensures Append(o, []) == o
  {
    if o.Writing? {
      assert Overwrite(o.bytes, o.at, []) == o.bytes;
    }
  }

  /** Emitting bytes one by one is emitting the instruction that they encode. */
  lemma {:induction false} Bytes2(o: Output, i: Inst, a: Byte, b: Byte)
    requires RoomFor(o, [i]) && Encode(i) == [a, b]
    ensures Room(o, 2) && Append(Append(o, [a]), [b]) == Put(o, [i])
  {
    hide Append, Encode, EncodeAll;
    OneEncoded(i);
    AppendTwice(o, [a], [b]);
    assert [a] + [b] == [a, b];
  }

  lemma {:induction false} Bytes3(o: Output, i: Inst, a: Byte, b: Byte, c: Byte)
    requires RoomFor(o, [i]) && Encode(i) == [a, b, c]
    ensures Room(o, 3) && Append(Append(Append(o, [a]), [b]), [c]) == Put(o, [i])
  {
    hide Append, Encode, EncodeAll;
    OneEncoded(i);
    AppendTwice(o, [a, b], [c]);
    AppendTwice(o, [a], [b]);
    assert [a] + [b] == [a, b] && [a, b] + [c] == [a, b, c];
  }

  lemma {:induction false} Bytes4(o: Output, i: Inst, a: Byte, b: Byte, c: Byte, d: Byte)
    requires RoomFor(o, [i]) && Encode(i) == [a, b, c, d]
    ensures Room(o, 4) && Append(Append(Append(Append(o, [a]), [b]), [c]), [d]) == Put(o, [i])
  {
    hide Append, Encode, EncodeAll;
    OneEncoded(i);
    AppendTwice(o, [a, b, c], [d]);
    AppendTwice(o, [a, b], [c]);
    AppendTwice(o, [a], [b]);
    assert [a] + [b] == [a, b] && [a, b] + [c] == [a, b, c] && [a, b, c] + [d] == [a, b, c, d];
  }

  /** Up to four bytes of opcode and then an immediate or displacement. */
  lemma {:induction false} BytesThen(o: Output, i: Inst, head: seq<Byte>, tail: seq<Byte>)
    requires RoomFor(o, [i]) && Encode(i) == head + tail
    ensures Room(o, |head| + |tail|) && Append(Append(o, head), tail) == Put(o, [i])
  {
    hide Append, Encode, EncodeAll;
    OneEncoded(i);
    AppendTwice(o, head, tail);
  }

  lemma {:induction false} Head2(o: Output, a: Byte, b: Byte)
    requires Room(o, 2)
    ensures Append(Append(o, [a]), [b]) == Append(o, [a, b])
  {
    AppendTwice(o, [a], [b]);
    assert [a] + [b] == [a, b];
  }

  lemma {:induction false} Head3(o: Output, a: Byte, b: Byte, c: Byte)
    requires Room(o, 3)
    ensures Append(Append(Append(o, [a]), [b]), [c]) == Append(o, [a, b, c])
  {
    AppendTwice(o, [a, b], [c]);
    AppendTwice(o, [a], [b]);
    assert [a] + [b] == [a, b] && [a, b] + [c] == [a, b, c];
  }

  lemma {:induction false} Head4(o: Output, a: Byte, b: Byte, c: Byte, d: Byte)
    requires Room(o, 4)
    ensures Append(Append(Append(Append(o, [a]), [b]), [c]), [d]) == Append(o, [a, b, c, d])
  {
    Head3(o, a, b, c);
    AppendTwice(o, [a, b, c], [d]);
    assert [a, b, c] + [d] == [a, b, c, d];
  }

  /** The parts of a template, one after the other. */
  lemma {:induction false} Parts(o: Output, xs: seq<Inst>, ys: seq<Inst>)
    requires RoomFor(o, xs + ys)
    ensures RoomFor(o, xs) && RoomFor(Put(o, xs), ys)
    ensures Put(Put(o, xs), ys) == Put(o, xs + ys)
  {
    hide Append, EncodeAll;
    EncodeAllAppend(xs, ys);
    AppendTwice(o, EncodeAll(xs), EncodeAll(ys));
  }

  lemma {:induction false} Parts3(o: Output, xs: seq<Inst>, ys: seq<Inst>, zs: seq<Inst>)
    requires RoomFor(o, xs + ys + zs)
    ensures RoomFor(o, xs) && RoomFor(Put(o, xs), ys) && RoomFor(Put(Put(o, xs), ys), zs)
    ensures Put(Put(Put(o, xs), ys), zs) == Put(o, xs + ys + zs)
  {
    hide Append, EncodeAll, Put, RoomFor;
    Parts(o, xs + ys, zs);
    Parts(o, xs, ys);
  }

  lemma {:induction false} PutNothing(o: Output)
    requires Room(o, 0)
    ensures Put(o, []) == o && RoomFor(o, [])
  {
    AppendNothing(o);
  }

  lemma {:induction false} Le4(n: nat)
    ensures Le(n, 4) == [n % 0x100, n / 0x100 % 0x100, n / 0x1_0000 % 0x100, n / 0x100_0000 % 0x100]
  {
    assert n / 0x100 / 0x100 == n / 0x1_0000;
    assert n / 0x1_0000 / 0x100 == n / 0x100_0000;
    assert Le(n, 4) == [n % 0x100] + Le(n / 0x100, 3);
    assert Le(n / 0x100, 3) == [n / 0x100 % 0x100] + Le(n / 0x1_0000, 2);
    assert Le(n / 0x1_0000, 2) == [n / 0x1_0000 % 0x100] + Le(n / 0x100_0000, 1);
    assert Le(n / 0x100_0000, 1) == [n / 0x100_0000 % 0x100] + Le(n / 0x100_0000 / 0x100, 0);
  }

  lemma {:induction false} Le8(n: nat)
    ensures Le(n, 8) == Le(n % 0x1_0000_0000, 4) + Le(n / 0x1_0000_0000, 4)
  {
    var low, h := n % 0x1_0000_0000, n / 0x1_0000_0000;
    Le4(low);
    SecondByte(low, h);
    ThirdByte(low, h);
    FourthByte(low, h);
    Shifts(n);
    FirstByte(low, h);
    assert n == 0x1_0000_0000 * h + low;
    assert Le(n, 8) == [n % 0x100] + Le(n / 0x100, 7);
    assert Le(n / 0x100, 7) == [n / 0x100 % 0x100] + Le(n / 0x1_0000, 6);
    assert Le(n / 0x1_0000, 6) == [n / 0x1_0000 % 0x100] + Le(n / 0x100_0000, 5);
    assert Le(n / 0x100_0000, 5) == [n / 0x100_0000 % 0x100] + Le(n / 0x1_0000_0000, 4);
  }

  lemma {:induction false} Shifts(n: nat)
    ensures n / 0x100 / 0x100 == n / 0x1_0000 && n / 0x1_0000 / 0x100 == n / 0x100_0000
    ensures n / 0x100_0000 / 0x100 == n / 0x1_0000_0000
  {
  }

  lemma {:induction false} FirstByte(low: nat, h: nat)
    ensures (0x1_0000_0000 * h + low) % 0x100 == low % 0x100
  {
    assert 0x1_0000_0000 * h + low == 0x100 * (0x100_0000 * h + low / 0x100) + low % 0x100;
  }

  lemma {:induction false} SecondByte(low: nat, h: nat)
    ensures (0x1_0000_0000 * h + low) / 0x100 % 0x100 == low / 0x100 % 0x100
  {
    assert (0x1_0000_0000 * h + low) / 0x100 == 0x100_0000 * h + low / 0x100;
  }

  lemma {:induction false} ThirdByte(low: nat, h: nat)
    ensures (0x1_0000_0000 * h + low) / 0x1_0000 % 0x100 == low / 0x1_0000 % 0x100
  {
    var q, r := low / 0x1_0000, low % 0x1_0000;
    assert 0x1_0000_0000 * h + low == 0x1_0000 * (0x1_0000 * h + q) + r;
    assert (0x1_0000_0000 * h + low) / 0x1_0000 == 0x1_0000 * h + q;
  }

  lemma {:induction false} FourthByte(low: nat, h: nat)
    ensures (0x1_0000_0000 * h + low) / 0x100_0000 % 0x100 == low / 0x100_0000 % 0x100
  {
    assert (0x1_0000_0000 * h + low) / 0x100_0000 == 0x100 * h + low / 0x100_0000;
  }

  // --- The emitters --------------------------------------------------------------------

  class Emitter {
    /** The code memory, or null to measure. */
    const buf: array?<Byte>
    var at: nat
    var count: nat

    constructor (buf: array?<Byte>, at: nat)
      ensures this.buf == buf
      ensures State() == if buf == null then Measuring(0) else Writing(buf[..], at, 0)
    {
      this.buf := buf;
      this.at := at;
      this.count := 0;
    }

    ghost function State(): Output
      reads this, buf
    {
      if buf == null then Measuring(count) else Writing(buf[..], at, count)
    }

    method EmitU8(b: Byte)
      requires Room(State(), 1)
      modifies this, buf
      ensures State() == Append(old(State()), [b])
    {
      if buf != null {
        ghost var m := buf[..];
        buf[at] := b;
        assert buf[..] == Overwrite(m, at, [b]);
        at := at + 1;
      }
      count := count + 1;
    }

    method EmitU32(n: nat)
      requires n < 0x1_0000_0000 && Room(State(), 4)
      modifies this, buf
      ensures State() == Append(old(State()), Le(n, 4))
    {
      hide Le, Append;
      Le4(n);
      Head4(State(), n % 0x100, n / 0x100 % 0x100, n / 0x1_0000 % 0x100, n / 0x100_0000 % 0x100);
      EmitU8(n % 0x100);
      EmitU8(n / 0x100 % 0x100);
      EmitU8(n / 0x1_0000 % 0x100);
      EmitU8(n / 0x100_0000 % 0x100);
    }

    method EmitU64(n: nat)
      requires n < 0x1_0000_0000_0000_0000 && Room(State(), 8)
      modifies this, buf
      ensures State() == Append(old(State()), Le(n, 8))
    {
      hide Le, Append;
      Le8(n);
      AppendTwice(State(), Le(n % 0x1_0000_0000, 4), Le(n / 0x1_0000_0000, 4));
      EmitU32(n % 0x1_0000_0000);
      EmitU32(n / 0x1_0000_0000);
    }
  
    method EmitStoreLocal(src: Reg, disp: Int32)
      requires RoomFor(State(), [StoreLocal(src, disp)])
      modifies this, buf
      ensures State() == Put(old(State()), [StoreLocal(src, disp)])
    {
      hide Append, EncodeAll, Le;
      OneEncoded(StoreLocal(src, disp));
      BytesThen(State(), StoreLocal(src, disp), [Rex(0, src), 0x89, ModLocal(src)], Le32(disp));
      Head3(State(), Rex(0, src), 0x89, ModLocal(src));
      EmitU8(Rex(0, src));
      EmitU8(0x89);
      EmitU8(ModLocal(src));
      EmitU32(disp % 0x1_0000_0000);
    }

    method EmitLoadParam(dst: Reg, disp: Int32)
      requires RoomFor(State(), [LoadLocal(dst, disp)])
      modifies this, buf
      ensures State() == Put(old(State()), [LoadLocal(dst, disp)])
    {
      hide Append, EncodeAll, Le;
      OneEncoded(LoadLocal(dst, disp));
      BytesThen(State(), LoadLocal(dst, disp), [Rex(0, dst), 0x8B, ModLocal(dst)], Le32(disp));
      Head3(State(), Rex(0, dst), 0x8B, ModLocal(dst));
      EmitU8(Rex(0, dst));
      EmitU8(0x8B);
      EmitU8(ModLocal(dst));
      EmitU32(disp % 0x1_0000_0000);
    }

    method EmitMovImm(dst: Reg, imm: Word)
      requires RoomFor(State(), [MovImm(dst, imm)])
      modifies this, buf
      ensures State() == Put(old(State()), [MovImm(dst, imm)])
    {
      hide Append, EncodeAll, Le;
      OneEncoded(MovImm(dst, imm));
      BytesThen(State(), MovImm(dst, imm), [Rex(dst, 0), 0xB8 + dst % 8], Le64(imm));
      Head2(State(), Rex(dst, 0), 0xB8 + dst % 8);
      EmitU8(Rex(dst, 0));
      EmitU8(0xB8 + dst % 8);
      EmitU64(Unsigned(imm));
    }

    method EmitAlu(op: AluOp, dst: Reg, src: Reg)
      requires RoomFor(State(), [Alu(op, dst, src)])
      modifies this, buf
      ensures State() == Put(old(State()), [Alu(op, dst, src)])
    {
      hide Append, EncodeAll, Le;
      OneEncoded(Alu(op, dst, src));
      Bytes3(State(), Alu(op, dst, src), Rex(dst, src), AluByte(op), ModReg(dst, src));
      EmitU8(Rex(dst, src));
      EmitU8(AluByte(op));
      EmitU8(ModReg(dst, src));
    }

    method EmitImul(dst: Reg, src: Reg)
      requires RoomFor(State(), [Imul(dst, src)])
      modifies this, buf
      ensures State() == Put(old(State()), [Imul(dst, src)])
    {
      hide Append, EncodeAll, Le;
      OneEncoded(Imul(dst, src));
      Bytes4(State(), Imul(dst, src), Rex(src, dst), 0x0F, 0xAF, ModReg(src, dst));
      EmitU8(Rex(src, dst));
      EmitU8(0x0F);
      EmitU8(0xAF);
      EmitU8(ModReg(src, dst));
    }

    method EmitMovRegReg(dst: Reg, src: Reg)
      requires RoomFor(State(), [MovReg(dst, src)])
      modifies this, buf
      ensures State() == Put(old(State()), [MovReg(dst, src)])
    {
      hide Append, EncodeAll, Le;
      OneEncoded(MovReg(dst, src));
      Bytes3(State(), MovReg(dst, src), Rex(dst, src), 0x89, ModReg(dst, src));
      EmitU8(Rex(dst, src));
      EmitU8(0x89);
      EmitU8(ModReg(dst, src));
    }

    method EmitCmp(dst: Reg, src: Reg)
      requires RoomFor(State(), [Alu(AluCmp, dst, src)])
      modifies this, buf
      ensures State() == Put(old(State()), [Alu(AluCmp, dst, src)])
    {
      hide Append, EncodeAll, Le;
      OneEncoded(Alu(AluCmp, dst, src));
      Bytes3(State(), Alu(AluCmp, dst, src), Rex(dst, src), 0x39, ModReg(dst, src));
      EmitU8(Rex(dst, src));
      EmitU8(0x39);
      EmitU8(ModReg(dst, src));
    }

    method EmitSetCc(cc: Cond, dst: Reg)
      requires RoomFor(State(), [SetCc(cc, dst)])
      modifies this, buf
      ensures State() == Put(old(State()), [SetCc(cc, dst)])
    {
      hide Append, EncodeAll, Le;
      OneEncoded(SetCc(cc, dst));
      if dst >= 4 {
        Bytes4(State(), SetCc(cc, dst), RexByte(dst), 0x0F, 0x90 + CondCode(cc), ModReg(dst, 0));
        EmitU8(RexByte(dst));
      } else {
        Bytes3(State(), SetCc(cc, dst), 0x0F, 0x90 + CondCode(cc), ModReg(dst, 0));
      }
      EmitU8(0x0F);
      EmitU8(0x90 + CondCode(cc));
      EmitU8(ModReg(dst, 0));
    }

    method EmitMovzx(dst: Reg, src: Reg)
      requires RoomFor(State(), [Movzx(dst, src)])
      modifies this, buf
      ensures State() == Put(old(State()), [Movzx(dst, src)])
    {
      hide Append, EncodeAll, Le;
      OneEncoded(Movzx(dst, src));
      Bytes4(State(), Movzx(dst, src), Rex(src, dst), 0x0F, 0xB6, ModReg(src, dst));
      EmitU8(Rex(src, dst));
      EmitU8(0x0F);
      EmitU8(0xB6);
      EmitU8(ModReg(src, dst));
    }

    method EmitTest(dst: Reg, src: Reg)
      requires RoomFor(State(), [Alu(AluTest, dst, src)])
      modifies this, buf
      ensures State() == Put(old(State()), [Alu(AluTest, dst, src)])
    {
      hide Append, EncodeAll, Le;
      OneEncoded(Alu(AluTest, dst, src));
      Bytes3(State(), Alu(AluTest, dst, src), Rex(dst, src), 0x85, ModReg(dst, src));
      EmitU8(Rex(dst, src));
      EmitU8(0x85);
      EmitU8(ModReg(dst, src));
    }

    method EmitPush(reg: Reg)
      requires RoomFor(State(), [Push(reg)])
      modifies this, buf
      ensures State() == Put(old(State()), [Push(reg)])
    {
      hide Append, EncodeAll, Le;
      OneEncoded(Push(reg));
      if reg >= 8 {
        Bytes2(State(), Push(reg), 0x41, 0x50 + reg % 8);
        EmitU8(0x41);
      } else {
        assert Encode(Push(reg)) == [0x50 + reg % 8];
      }
      EmitU8(0x50 + reg % 8);
    }

    method EmitPop(reg: Reg)
      requires RoomFor(State(), [Pop(reg)])
      modifies this, buf
      ensures State() == Put(old(State()), [Pop(reg)])
    {
      hide Append, EncodeAll, Le;
      OneEncoded(Pop(reg));
      if reg >= 8 {
        Bytes2(State(), Pop(reg), 0x41, 0x58 + reg % 8);
        EmitU8(0x41);
      } else {
        assert Encode(Pop(reg)) == [0x58 + reg % 8];
      }
      EmitU8(0x58 + reg % 8);
    }

    method EmitLoadSignExt(dst: Reg, disp: Int32, size: nat)
      requires RoomFor(State(), [LoadSized(dst, disp, size)])
      modifies this, buf
      ensures State() == Put(old(State()), [LoadSized(dst, disp, size)])
    {
      hide Append, EncodeAll, Le;
      OneEncoded(LoadSized(dst, disp, size));
      if size == 1 || size == 4 {
        ghost var o := State();
        EmitU8(Rex(0, dst));
        if size == 1 {
          BytesThen(o, LoadSx8(dst, disp), [Rex(0, dst), 0x0F, 0xBE, ModLocal(dst)], Le32(disp));
          Head4(o, Rex(0, dst), 0x0F, 0xBE, ModLocal(dst));
          EmitU8(0x0F);
          EmitU8(0xBE);
        } else {
          BytesThen(o, LoadSx32(dst, disp), [Rex(0, dst), 0x63, ModLocal(dst)], Le32(disp));
          Head3(o, Rex(0, dst), 0x63, ModLocal(dst));
          EmitU8(0x63);
        }
        EmitU8(ModLocal(dst));
        EmitU32(disp % 0x1_0000_0000);
      } else {
        EmitLoadParam(dst, disp);
      }
    }

    method EmitStoreSized(src: Reg, disp: Int32, size: nat)
      requires RoomFor(State(), [StoreSized(src, disp, size)])
      modifies this, buf
      ensures State() == Put(old(State()), [StoreSized(src, disp, size)])
    {
      hide Append, EncodeAll, Le;
      OneEncoded(StoreSized(src, disp, size));
      if size == 1 {
        BytesThen(State(), StoreLow8(src, disp), [RexLow(src), 0x88, ModLocal(src)], Le32(disp));
        Head3(State(), RexLow(src), 0x88, ModLocal(src));
        EmitU8(RexLow(src));
        EmitU8(0x88);
        EmitU8(ModLocal(src));
        EmitU32(disp % 0x1_0000_0000);
      } else if size == 4 {
        if src >= 8 {
          BytesThen(State(), StoreLow32(src, disp), [0x44, 0x89, ModLocal(src)], Le32(disp));
          Head3(State(), 0x44, 0x89, ModLocal(src));
          EmitU8(0x44);
        } else {
          BytesThen(State(), StoreLow32(src, disp), [0x89, ModLocal(src)], Le32(disp));
          Head2(State(), 0x89, ModLocal(src));
        }
        EmitU8(0x89);
        EmitU8(ModLocal(src));
        EmitU32(disp % 0x1_0000_0000);
      } else {
        EmitStoreLocal(src, disp);
      }
    }

    // --- Sequences written out in the encoders ------------------------------------------

    method EmitSubRsp(n: Int32)
      requires RoomFor(State(), [SubImm(RSP, n)])
      modifies this, buf
      ensures State() == Put(old(State()), [SubImm(RSP, n)])
    {
      hide Append, EncodeAll;
      OneEncoded(SubImm(RSP, n));
      BytesThen(State(), SubImm(RSP, n), [0x48, 0x81, 0xC0 + 8 * 5 + 4], Le32(n));
      Head3(State(), 0x48, 0x81, 0xC0 + 8 * 5 + 4);
      EmitU8(0x48);
      EmitU8(0x81);
      EmitU8(0xC0 + 8 * 5 + 4);
      EmitU32(n % 0x1_0000_0000);
    }

    method EmitAddRsp(n: Int32)
      requires RoomFor(State(), [AddImm(RSP, n)])
      modifies this, buf
      ensures State() == Put(old(State()), [AddImm(RSP, n)])
    {
      hide Append, EncodeAll;
      OneEncoded(AddImm(RSP, n));
      BytesThen(State(), AddImm(RSP, n), [0x48, 0x81, 0xC0 + 8 * 0 + 4], Le32(n));
      Head3(State(), 0x48, 0x81, 0xC0 + 8 * 0 + 4);
      EmitU8(0x48);
      EmitU8(0x81);
      EmitU8(0xC0 + 8 * 0 + 4);
      EmitU32(n % 0x1_0000_0000);
    }

    method EmitCmpRaxZero()
      requires RoomFor(State(), [CmpImm(RAX, 0)])
      modifies this, buf
      ensures State() == Put(old(State()), [CmpImm(RAX, 0)])
    {
      hide Append, EncodeAll;
      OneEncoded(CmpImm(RAX, 0));
      Bytes4(State(), CmpImm(RAX, 0), 0x48, 0x83, 0xC0 + 8 * 7, 0);
      EmitU8(0x48);
      EmitU8(0x83);
      EmitU8(0xC0 + 8 * 7);
      EmitU8(0);
    }

    method EmitCqo()
      requires RoomFor(State(), [Cqo])
      modifies this, buf
      ensures State() == Put(old(State()), [Cqo])
    {
      hide Append, EncodeAll;
      OneEncoded(Cqo);
      Bytes2(State(), Cqo, 0x48, 0x99);
      EmitU8(0x48);
      EmitU8(0x99);
    }

    method EmitIdiv(divisor: Reg)
      requires RoomFor(State(), [Idiv(divisor)])
      modifies this, buf
      ensures State() == Put(old(State()), [Idiv(divisor)])
    {
      hide Append, EncodeAll;
      OneEncoded(Idiv(divisor));
      Bytes3(State(), Idiv(divisor), 0x48 + High(divisor), 0xF7, 0xC0 + 8 * 7 + divisor % 8);
      EmitU8(0x48 + High(divisor));
      EmitU8(0xF7);
      EmitU8(0xC0 + 8 * 7 + divisor % 8);
    }

    method EmitNegRax()
      requires RoomFor(State(), [Neg(RAX)])
      modifies this, buf
      ensures State() == Put(old(State()), [Neg(RAX)])
    {
      hide Append, EncodeAll;
      OneEncoded(Neg(RAX));
      Bytes3(State(), Neg(RAX), 0x48, 0xF7, 0xC0 + 8 * 3);
      EmitU8(0x48);
      EmitU8(0xF7);
      EmitU8(0xC0 + 8 * 3);
    }

    method EmitNotRax()
      requires RoomFor(State(), [NotReg(RAX)])
      modifies this, buf
      ensures State() == Put(old(State()), [NotReg(RAX)])
    {
      hide Append, EncodeAll;
      OneEncoded(NotReg(RAX));
      Bytes3(State(), NotReg(RAX), 0x48, 0xF7, 0xC0 + 8 * 2);
      EmitU8(0x48);
      EmitU8(0xF7);
      EmitU8(0xC0 + 8 * 2);
    }

    method EmitShiftRax(op: ShiftOp)
      requires RoomFor(State(), [Shift(op, RAX)])
      modifies this, buf
      ensures State() == Put(old(State()), [Shift(op, RAX)])
    {
      hide Append, EncodeAll;
      OneEncoded(Shift(op, RAX));
      Bytes3(State(), Shift(op, RAX), 0x48, 0xD3, 0xC0 + 8 * ShiftExt(op));
      EmitU8(0x48);
      EmitU8(0xD3);
      EmitU8(0xC0 + 8 * ShiftExt(op));
    }

    method EmitLeaRsp()
      requires RoomFor(State(), [Lea(RSP, 0 - CALLEE_SAVED_SIZE)])
      modifies this, buf
      ensures State() == Put(old(State()), [Lea(RSP, 0 - CALLEE_SAVED_SIZE)])
    {
      hide Append, EncodeAll;
      OneEncoded(Lea(RSP, 0 - CALLEE_SAVED_SIZE));
      Bytes4(State(), Lea(RSP, 0 - CALLEE_SAVED_SIZE), 0x48, 0x8D, 0x40 + 8 * 4 + 5, 0x100 - CALLEE_SAVED_SIZE);
      EmitU8(0x48);
      EmitU8(0x8D);
      EmitU8(0x40 + 8 * 4 + 5);
      EmitU8(0x100 - CALLEE_SAVED_SIZE);
    }

    method EmitRet()
      requires RoomFor(State(), [RetNear])
      modifies this, buf
      ensures State() == Put(old(State()), [RetNear])
    {
      hide Append, EncodeAll;
      OneEncoded(RetNear);
      EmitU8(0xC3);
    }

    method EmitCallRax()
      requires RoomFor(State(), [CallReg(RAX)])
      modifies this, buf
      ensures State() == Put(old(State()), [CallReg(RAX)])
    {
      hide Append, EncodeAll;
      OneEncoded(CallReg(RAX));
      Bytes2(State(), CallReg(RAX), 0xFF, 0xC0 + 8 * 2);
      EmitU8(0xFF);
      EmitU8(0xC0 + 8 * 2);
    }

    // --- Locations -----------------------------------------------------------------------

    method LoadLocation(dst: Reg, loc: Location)
      requires RoomFor(State(), LoadTo(dst, loc))
      modifies this, buf
      ensures State() == Put(old(State()), LoadTo(dst, loc))
    {
      hide Append, EncodeAll;
      match loc
      case InReg(r) =>
        if r != dst {
          EmitMovRegReg(dst, r);
        } else {
          PutNothing(State());
        }
      case OnStack(disp) => EmitLoadParam(dst, disp);
    }

    method StoreLocation(loc: Location, src: Reg)
      requires RoomFor(State(), StoreFrom(loc, src))
      modifies this, buf
      ensures State() == Put(old(State()), StoreFrom(loc, src))
    {
      hide Append, EncodeAll;
      match loc
      case InReg(r) =>
        if r != src {
          EmitMovRegReg(r, src);
        } else {
          PutNothing(State());
        }
      case OnStack(disp) => EmitStoreLocal(src, disp);
    }

    method LoadBinaryOperands(tmp: Reg, left: Location, right: Location) returns (rightReg: Reg)
      requires RoomFor(State(), LoadTo(RAX, left) + OperandCode(right, tmp))
      modifies this, buf
      ensures State() == Put(old(State()), LoadTo(RAX, left) + OperandCode(right, tmp))
      ensures rightReg == OperandReg(right, tmp)
    {
      hide Append, EncodeAll;
      Parts(State(), LoadTo(RAX, left), OperandCode(right, tmp));
      LoadLocation(RAX, left);
      rightReg := FetchOperand(tmp, right);
    }

    /** A right operand that is not in a register goes to `tmp`. */
    method FetchOperand(tmp: Reg, right: Location) returns (rightReg: Reg)
      requires RoomFor(State(), OperandCode(right, tmp))
      modifies this, buf
      ensures State() == Put(old(State()), OperandCode(right, tmp))
      ensures rightReg == OperandReg(right, tmp)
    {
      hide Append, EncodeAll;
      match right
      case InReg(r) =>
        PutNothing(State());
        rightReg := r;
      case OnStack(_) =>
        LoadLocation(tmp, right);
        rightReg := tmp;
    }

    /** TEST or CMP of a location against zero. */
    method TestLocation(loc: Location)
      requires RoomFor(State(), TestCode(loc))
      modifies this, buf
      ensures State() == Put(old(State()), TestCode(loc))
    {
      hide Append, EncodeAll;
      match loc
      case InReg(r) => EmitTest(r, r);
      case OnStack(_) =>
        Parts(State(), LoadTo(RAX, loc), [CmpImm(RAX, 0)]);
        LoadLocation(RAX, loc);
        EmitCmpRaxZero();
    }

    method PushLocation(loc: Location, direct: bool)
      requires RoomFor(State(), PushCode(loc, direct))
      modifies this, buf
      ensures State() == Put(old(State()), PushCode(loc, direct))
    {
      hide Append, EncodeAll;
      if direct && loc.InReg? {
        EmitPush(loc.reg);
      } else {
        Parts(State(), LoadTo(RAX, loc), [Push(RAX)]);
        LoadLocation(RAX, loc);
        EmitPush(RAX);
      }
    }

    method PopAll(regs: seq<Reg>)
      requires RoomFor(State(), PopCode(regs))
      modifies this, buf
      ensures State() == Put(old(State()), PopCode(regs))
    {
      hide Append, EncodeAll, Put, RoomFor, PopCode;
      ghost var o := State();
      assert regs[0..] == regs;
      for i := 0 to |regs|
        invariant RoomFor(State(), PopCode(regs[i..]))
        invariant Put(State(), PopCode(regs[i..])) == Put(o, PopCode(regs))
      {
        PopFirst(State(), regs[i..]);
        assert regs[i..][1..] == regs[i + 1..];
        EmitPop(regs[i]);
      }
      assert regs[|regs|..] == [];
      PoppedAll(State());
    }

    method PushAll(regs: seq<Reg>)
      requires RoomFor(State(), PushRegsCode(regs))
      modifies this, buf
      ensures State() == Put(old(State()), PushRegsCode(regs))
    {
      hide Append, EncodeAll, Put, RoomFor, PushRegsCode;
      ghost var o := State();
      assert regs[0..] == regs;
      for i := 0 to |regs|
        invariant RoomFor(State(), PushRegsCode(regs[i..]))
        invariant Put(State(), PushRegsCode(regs[i..])) == Put(o, PushRegsCode(regs))
      {
        PushFirst(State(), regs[i..]);
        assert regs[i..][1..] == regs[i + 1..];
        EmitPush(regs[i]);
      }
      assert regs[|regs|..] == [];
      PushedAll(State());
    }
  }

  lemma {:induction false} PopFirst(o: Output, regs: seq<Reg>)
    requires regs != [] && RoomFor(o, PopCode(regs))
    ensures RoomFor(o, [Pop(regs[0])]) && RoomFor(Put(o, [Pop(regs[0])]), PopCode(regs[1..]))
    ensures Put(Put(o, [Pop(regs[0])]), PopCode(regs[1..])) == Put(o, PopCode(regs))
  {
    hide Append, EncodeAll, Put, RoomFor;
    Parts(o, [Pop(regs[0])], PopCode(regs[1..]));
  }

  lemma {:induction false} PoppedAll(o: Output)
    requires RoomFor(o, PopCode([]))
    ensures Put(o, PopCode([])) == o
  {
    NothingEncoded();
    PutNothing(o);
  }

  lemma {:induction false} PushFirst(o: Output, regs: seq<Reg>)
    requires regs != [] && RoomFor(o, PushRegsCode(regs))
    ensures RoomFor(o, [Push(regs[0])]) && RoomFor(Put(o, [Push(regs[0])]), PushRegsCode(regs[1..]))
    ensures Put(Put(o, [Push(regs[0])]), PushRegsCode(regs[1..])) == Put(o, PushRegsCode(regs))
  {
    hide Append, EncodeAll, Put, RoomFor;
    Parts(o, [Push(regs[0])], PushRegsCode(regs[1..]));
  }

  lemma {:induction false} PushedAll(o: Output)
    requires RoomFor(o, PushRegsCode([]))
    ensures Put(o, PushRegsCode([])) == o
  {
    NothingEncoded();
    PutNothing(o);
  }
}
