/** What the arithmetic of words means, in terms of integers and of bits. */
module WordLaws {
  import opened Words
  import opened Ast
  import opened Tokens
  import opened Numerals

  function Abs(i: int): nat {
    if i < 0 then -i else i
  }

  /** Division cuts off toward zero: what is left has the sign of the dividend. */
  lemma {:induction false} DivisionLaw(a: int, b: int)
    requires b != 0
    ensures var r := a - TruncDiv(a, b) * b; Abs(r) < Abs(b) && (r == 0 || (r < 0 <==> a < 0))
  {
    var x: int, y: int := Abs(a), Abs(b);
    var q: int := x / y;
    assert x == q * y + x % y;
    SignedProduct(a, b, q);
    assert TruncDiv(a, b) == if (a < 0) == (b < 0) then q else 0 - q;
  }

  lemma {:induction false} SignedProduct(a: int, b: int, q: int)
    ensures (if (a < 0) == (b < 0) then q else 0 - q) * b == if a < 0 then 0 - q * Abs(b) else q * Abs(b)
  {
  }

  /** Wrapping keeps the residue and comes into range. */
  lemma {:induction false} WrapLaw(i: int)
    ensures (i - Wrap(i)) % TWO64 == 0 && MIN64 <= Wrap(i) <= MAX64
    ensures (i - Wrap32(i)) % 0x1_0000_0000 == 0 && -0x8000_0000 <= Wrap32(i) <= 0x7FFF_FFFF
    ensures (i - Wrap8(i)) % 0x100 == 0 && -0x80 <= Wrap8(i) <= 0x7F
  {
    SameResidue(i, TWO64);
    SameResidue(i, 0x1_0000_0000);
    SameResidue(i, 0x100);
  }

  lemma {:induction false} SameResidue(i: int, m: int)
    requires m > 0
    ensures (i - i % m) % m == 0 && (i - (i % m - m)) % m == 0
  {
    var q := i / m;
    assert i == m * q + i % m;
    MultipleOf(q, m);
    MultipleOf(q + 1, m);
    assert m * (q + 1) == m * q + m;
  }

  lemma {:induction false} MultipleOf(q: int, m: int)
    requires m > 0
    ensures (m * q) % m == 0
  {
    var r := (m * q) % m;
    var p := (m * q) / m;
    assert m * q == m * p + r;
    if p < q {
      assert m * (q - p) == m * q - m * p;
      Grows(m, q - p);
    } else if p > q {
      assert m * (p - q) == m * p - m * q;
      Grows(m, p - q);
    }
  }

  lemma {:induction false} Grows(m: nat, d: nat)
    requires d >= 1
    ensures m * d >= m
  {
  }

  /** A local of one or four bytes keeps the residue of its size; others keep everything. */
  lemma {:induction false} NarrowLaw(w: Word, t: DataType)
    ensures var v := Narrow(w, Width(t));
            if TypeSize(t) == 1 then (w - v) % 0x100 == 0 && -0x80 <= v <= 0x7F
            else if TypeSize(t) == 4 then (w - v) % 0x1_0000_0000 == 0 && -0x8000_0000 <= v <= 0x7FFF_FFFF
            else v == w
  {
    WrapLaw(w);
  }

  /** A sized store leaves the rest of its cell alone, and a load of that size gives the value back. */
  lemma {:induction false} StoreLaw(cell: int, w: Word)
    ensures StoreCell(cell, w, 1) / 0x100 == cell / 0x100 && (StoreCell(cell, w, 1) - w) % 0x100 == 0
    ensures StoreCell(cell, w, 4) / 0x1_0000_0000 == cell / 0x1_0000_0000
    ensures (StoreCell(cell, w, 4) - w) % 0x1_0000_0000 == 0
    ensures StoreCell(cell, w, 8) == w
  {
    LowPart(cell, w, 0x100);
    LowPart(cell, w, 0x1_0000_0000);
  }

  lemma {:induction false} LowPart(cell: int, w: int, m: int)
    requires m > 0
    ensures var c := cell - cell % m + w % m; c / m == cell / m && (c - w) % m == 0
  {
    var q, p := cell / m, w / m;
    var c := cell - cell % m + w % m;
    assert cell == m * q + cell % m && w == m * p + w % m;
    assert c == m * q + w % m;
    DivisionIs(c, m, q, w % m);
    assert c - w == m * (q - p);
    MultipleOf(q - p, m);
  }

  lemma {:induction false} DivisionIs(c: int, m: int, q: int, r: int)
    requires m > 0 && 0 <= r < m && c == m * q + r
    ensures c / m == q
  {
    var q1 := c / m;
    var r1 := c % m;
    assert c == m * q1 + r1;
    if q1 < q {
      assert m * (q - q1) == m * q - m * q1;
      Grows(m, q - q1);
    } else if q1 > q {
      assert m * (q1 - q) == m * q1 - m * q;
      Grows(m, q1 - q);
    }
  }

  // --- Shifts --------------------------------------------------------------------------------

  /** Shifting left multiplies, modulo 2^64; counts are taken modulo 64. */
  lemma {:induction false} ShiftLeftLaw(a: Word, b: int)
    ensures 0 <= b < 64 ==> (a * Pow2(b) - ShiftLeft(a, b)) % TWO64 == 0
    ensures ShiftLeft(a, b + 64) == ShiftLeft(a, b)
  {
    WrapLaw(a * Pow2(b % 64));
  }

  /** Shifting right divides and rounds down, with the sign or without it. */
  lemma {:induction false} ShiftRightLaw(a: Word, b: int)
    ensures 0 <= b < 64 ==>
              var q := ShiftRightSigned(a, b); q * Pow2(b) <= a < (q + 1) * Pow2(b)
    ensures 0 <= b < 64 ==>
              var q := AsUnsigned(ShiftRightUnsigned(a, b)); q * Pow2(b) <= AsUnsigned(a) < (q + 1) * Pow2(b)
    ensures ShiftRightSigned(a, b + 64) == ShiftRightSigned(a, b)
    ensures ShiftRightUnsigned(a, b + 64) == ShiftRightUnsigned(a, b)
  {
    hide Pow2, Wrap;
    assert (b + 64) % 64 == b % 64;
    if 0 <= b < 64 {
      var p := Pow2(b);
      assert b % 64 == b;
      QuotientOf(a, p);
      InRangeStays(a / p);
      QuotientOf(AsUnsigned(a), p);
      WrappedBack(AsUnsigned(a) / p);
      UnsignedIs(a);
    }
  }

  lemma {:induction false} InRangeStays(i: int)
    requires InRange(i)
    ensures Wrap(i) == i
  {
  }

  lemma {:induction false} UnsignedIs(w: Word)
    ensures Unsigned(w) == AsUnsigned(w) < TWO64
  {
  }

  function AsUnsigned(w: Word): nat {
    if w < 0 then w + TWO64 else w
  }

  lemma {:induction false} QuotientOf(a: int, p: nat)
    requires p > 0
    ensures (a / p) * p <= a < (a / p + 1) * p
    ensures if a >= 0 then 0 <= a / p <= a else a <= a / p < 0
  {
    var q := a / p;
    assert a == p * q + a % p;
    assert (q + 1) * p == p * q + p;
    if q >= 0 {
      Scales(p, q);
    } else {
      Scales(p, 0 - q);
      Scales(p, 0 - q - 1);
      assert p * (0 - q - 1) == 0 - p * q - p;
    }
  }

  lemma {:induction false} Scales(p: nat, q: nat)
    requires p > 0
    ensures p * q >= q
  {
  }

  // --- Bits ----------------------------------------------------------------------------------

  /** Bit `i` of a word, counted from the lowest. */
  predicate BitAt(w: Word, i: nat) {
    AsUnsigned(w) / Pow2(i) % 2 == 1
  }

  predicate BitMeaning(op: BitOp, x: bool, y: bool) {
    match op
    case BitAnd => x && y
    case BitOr => x || y
    case BitXor => x != y
  }

  /** Bitwise operators work on each bit by itself. */
  lemma {:induction false} BitwiseLaw(op: BitOp, a: Word, b: Word, i: nat)
    requires i < 64
    ensures BitAt(Bitwise(op, a, b), i) <==> BitMeaning(op, BitAt(a, i), BitAt(b, i))
  {
    hide Bits, Pow2, Wrap;
    UnsignedIs(a);
    UnsignedIs(b);
    var n := Bits(op, Unsigned(a), Unsigned(b), 64);
    BitsBelow(op, Unsigned(a), Unsigned(b), 64);
    Pow2At64();
    WrappedBack(n);
    BitsAt(op, Unsigned(a), Unsigned(b), 64, i);
  }

  lemma {:induction false} WrappedBack(n: nat)
    requires n < TWO64
    ensures AsUnsigned(Wrap(n)) == n
  {
  }

  lemma {:induction false} BitsBelow(op: BitOp, a: nat, b: nat, n: nat)
    ensures Bits(op, a, b, n) < Pow2(n)
  {
    if n > 0 {
      BitsBelow(op, a / 2, b / 2, n - 1);
    }
  }

  lemma {:induction false} BitsAt(op: BitOp, a: nat, b: nat, n: nat, i: nat)
    requires i < n
    ensures Bits(op, a, b, n) / Pow2(i) % 2 == 1 <==> BitMeaning(op, a / Pow2(i) % 2 == 1, b / Pow2(i) % 2 == 1)
    decreases i
  {
    var m := Bits(op, a / 2, b / 2, n - 1);
    var c := Bits(op, a, b, n);
    assert c == Bit(op, a, b) + 2 * m;
    if i > 0 {
      BitsAt(op, a / 2, b / 2, n - 1, i - 1);
      Halves(c, Pow2(i - 1));
      Halves(a, Pow2(i - 1));
      Halves(b, Pow2(i - 1));
      assert c / 2 == m;
    }
  }

  lemma {:induction false} Halves(a: nat, p: nat)
    requires p > 0
    ensures a / (2 * p) == a / 2 / p
  {
    var h := a / 2;
    var q, r := h / p, h % p;
    assert h == p * q + r;
    var s := a - 2 * h;
    assert 0 <= s < 2 && a == 2 * (p * q) + (2 * r + s);
    assert a == (2 * p) * q + (2 * r + s);
    QuotientIs(a, 2 * p, q, 2 * r + s);
  }

  lemma {:induction false} QuotientIs(a: nat, p: nat, q: nat, r: nat)
    requires r < p && a == p * q + r
    ensures a / p == q
  {
    RemainderIs(a, p, q, r);
    var q1 := a / p;
    assert a == p * q1 + a % p;
    assert p * q1 == p * q;
    if q1 < q {
      MulMono(p, q1 + 1, q);
      MulNext(p, q1);
    } else if q < q1 {
      MulMono(p, q + 1, q1);
      MulNext(p, q);
    }
  }

  /** Inverting all bits of a word. */
  lemma {:induction false} ComplementLaw(a: Word)
    ensures Complement(a) == 0 - 1 - a
  {
  }

  // --- Types ---------------------------------------------------------------------------------

  /** The size in bytes is in the name, where the name has a number; the others are those of C. */
  lemma {:induction false} SizesAreNamed(t: DataType)
    ensures var name := TypeName(t);
            if t in {Int64, Int32, Int16, Int8} then name == "int" + Decimal(8 * TypeSize(t))
            else if t in {UInt64, UInt32, UInt16, UInt8} then name == "uint" + Decimal(8 * TypeSize(t))
            else TypeSize(t) == if t == Int then 4 else if t == Long then 8 else if t == Void then 0 else 1
    ensures IsUnsigned(t) <==> TypeName(t)[0] == 'u' || t == Bool
  {
    hide Decimal;
    DecimalSizes();
  }

  lemma {:induction false} DecimalSizes()
    ensures Decimal(8) == "8" && Decimal(16) == "16" && Decimal(32) == "32" && Decimal(64) == "64"
  {
    assert Decimal(1) == "1" && Decimal(3) == "3" && Decimal(6) == "6";
  }
}
