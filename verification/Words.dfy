/**
  64-bit machine words and the arithmetic that the source language, the IR and the
  processor share. A word is an `int64_t`; every operator wraps modulo 2^64.
 */
module Words {

  const MIN64: int := -0x8000_0000_0000_0000
  const MAX64: int := 0x7FFF_FFFF_FFFF_FFFF
  const TWO64: int := 0x1_0000_0000_0000_0000

  type Word = w: int | MIN64 <= w <= MAX64

  datatype Option<+T> = None | Some(value: T)

  predicate InRange(i: int) {
    MIN64 <= i <= MAX64
  }

  /** The signed representative of `i` modulo 2^64. */
  function Wrap(i: int): Word {
    var u := i % TWO64;
    if u > MAX64 then u - TWO64 else u
  }

  function Wrap32(i: int): (w: Word)
    ensures -0x8000_0000 <= w < 0x8000_0000
  {
    var u := i % 0x1_0000_0000;
    if u >= 0x8000_0000 then u - 0x1_0000_0000 else u
  }

  function Wrap8(i: int): Word {
    var u := i % 0x100;
    if u >= 0x80 then u - 0x100 else u
  }

  function Unsigned(i: int): nat {
    i % TWO64
  }

  function FromBool(b: bool): Word {
    if b then 1 else 0
  }

  function Pow2(n: nat): nat
    ensures Pow2(n) > 0
  {
    if n == 0 then 1 else 2 * Pow2(n - 1)
  }

  /** Division truncating toward zero, as C and IDIV do. */
  function TruncDiv(a: int, b: int): int
    requires b != 0
  {
    var x := if a < 0 then 0 - a else a;
    var y := if b < 0 then 0 - b else b;
    if (a < 0) == (b < 0) then x / y else -(x / y)
  }

  /** A division traps exactly when the divisor is 0 or the quotient does not fit. */
  function Divide(a: Word, b: Word): Option<Word> {
    if b == 0 || !InRange(TruncDiv(a, b)) then None else Some(TruncDiv(a, b))
  }

  /** The two trapping operand patterns of a signed 64-bit division. */
  lemma {:induction false} DivideTraps(a: Word, b: Word)
    ensures Divide(a, b) == None <==> b == 0 || (a == MIN64 && b == -1)
  {
    if b != 0 {
      var x: int := if a < 0 then 0 - a else a;
      var y: int := if b < 0 then 0 - b else b;
      QuotientBound(x, y);
    }
  }

  lemma {:induction false} QuotientBound(x: nat, y: nat)
    requires y > 0
    ensures 0 <= x / y <= x
    ensures y >= 2 ==> 2 * (x / y) <= x
    ensures y == 1 ==> x / y == x
  {
    var q := x / y;
    assert x == q * y + x % y;
    if y >= 2 {
      assert q * y >= q * 2 by { MulMono(q, 2, y); }
    } else {
      assert y == 1;
    }
  }

  /** There is one quotient and one remainder. */
  lemma {:induction false} RemainderIs(n: nat, size: nat, q: nat, r: nat)
    requires r < size && n == size * q + r
    ensures n % size == r
  {
    var q1, r1 := n / size, n % size;
    assert n == size * q1 + r1;
    if q1 < q {
      MulMono(size, q1 + 1, q);
      MulNext(size, q1);
    } else if q < q1 {
      MulMono(size, q + 1, q1);
      MulNext(size, q);
    }
  }

  lemma {:induction false} MulNext(a: nat, b: nat)
    ensures a * (b + 1) == a * b + a
  {
  }

  lemma {:induction false} MulMono(q: nat, a: int, b: int)
    requires a <= b
    ensures q * a <= q * b
  {
  }

  datatype BitOp = BitAnd | BitOr | BitXor

  /** One bit of a bitwise operator. */
  function Bit(op: BitOp, a: nat, b: nat): nat {
    match op
    case BitAnd => if a % 2 == 1 && b % 2 == 1 then 1 else 0
    case BitOr => if a % 2 == 1 || b % 2 == 1 then 1 else 0
    case BitXor => if a % 2 != b % 2 then 1 else 0
  }

  /** The low `n` bits of `a op b`. */
  function Bits(op: BitOp, a: nat, b: nat, n: nat): nat {
    if n == 0 then 0 else Bit(op, a, b) + 2 * Bits(op, a / 2, b / 2, n - 1)
  }

  function Bitwise(op: BitOp, a: int, b: int): Word {
    Wrap(Bits(op, Unsigned(a), Unsigned(b), 64))
  }

  /** `x & x` is `x`: what makes TEST r, r a comparison of r with zero. */
  lemma {:induction false} AndSelf(a: Word)
    ensures Bitwise(BitAnd, a, a) == a
  {
    hide Bits, Wrap, Unsigned, Pow2;
    UnsignedBelow(a);
    Pow2At64();
    BitsSelf(Unsigned(a), 64);
    WrapUnsigned(a);
  }

  lemma {:induction false} WrapUnsigned(w: Word)
    ensures Wrap(Unsigned(w)) == w
  {
  }

  lemma {:induction false} UnsignedBelow(w: Word)
    ensures 0 <= Unsigned(w) < TWO64
  {
  }

  lemma {:induction false} BitsSelf(a: nat, n: nat)
    requires a < Pow2(n)
    ensures Bits(BitAnd, a, a, n) == a
  {
    if n > 0 {
      BitsSelf(a / 2, n - 1);
    }
  }

  lemma {:induction false} Pow2Add(m: nat, n: nat)
    ensures Pow2(m + n) == Pow2(m) * Pow2(n)
  {
    if m > 0 {
      Pow2Add(m - 1, n);
      assert Pow2(m + n) == 2 * (Pow2(m - 1) * Pow2(n));
    }
  }

  lemma {:induction false} Pow2At64()
    ensures Pow2(64) == TWO64
  {
    hide Pow2;
    Pow2At16();
    Pow2Add(16, 16);
    Pow2Add(32, 32);
  }

  lemma {:induction false} Pow2At16()
    ensures Pow2(16) == 0x1_0000
  {
    assert Pow2(4) == 16;
    assert Pow2(8) == 256;
    assert Pow2(12) == 4096;
  }

  /** Shift counts are taken modulo 64, as the processor masks CL. */
  function ShiftLeft(a: int, b: int): Word {
    Wrap(a * Pow2(b % 64))
  }

  function ShiftRightSigned(a: int, b: int): Word {
    Wrap(a / Pow2(b % 64))
  }

  function ShiftRightUnsigned(a: int, b: int): Word {
    Wrap(Unsigned(a) / Pow2(b % 64))
  }

  function Complement(a: int): Word {
    Wrap(0 - a - 1)
  }

  // --- Sized cells -------------------------------------------------------------

  /** The value that a local of `width` bytes keeps of `w`. */
  function Narrow(w: Word, width: nat): Word {
    if width == 1 then Wrap8(w) else if width == 4 then Wrap32(w) else w
  }

  /** An 8-byte cell after a `width`-byte store at its base: the other bytes stay. */
  function StoreCell(cell: int, w: int, width: nat): int {
    if width == 1 then cell - cell % 0x100 + w % 0x100
    else if width == 4 then cell - cell % 0x1_0000_0000 + w % 0x1_0000_0000
    else w
  }

  /** The sign-extending `width`-byte load at the base of a cell. */
  function LoadCell(cell: int, width: nat): int {
    if width == 1 then Wrap8(cell) else if width == 4 then Wrap32(cell) else cell
  }

  lemma {:induction false} StoreThenLoad(cell: int, w: Word, width: nat)
    ensures LoadCell(StoreCell(cell, w, width), width) == Narrow(w, width)
  {
    hide Wrap8, Wrap32;
    LowByte(cell, w % 0x100);
    LowHalf(cell, w % 0x1_0000_0000);
    NarrowModulo(StoreCell(cell, w, width), w);
  }

  lemma {:induction false} NarrowModulo(a: int, b: int)
    ensures a % 0x100 == b % 0x100 ==> Wrap8(a) == Wrap8(b)
    ensures a % 0x1_0000_0000 == b % 0x1_0000_0000 ==> Wrap32(a) == Wrap32(b)
  {
  }

  lemma {:induction false} LowByte(cell: int, r: nat)
    requires r < 0x100
    ensures (cell - cell % 0x100 + r) % 0x100 == r
  {
    assert cell - cell % 0x100 == 0x100 * (cell / 0x100);
  }

  lemma {:induction false} LowHalf(cell: int, r: nat)
    requires r < 0x1_0000_0000
    ensures (cell - cell % 0x1_0000_0000 + r) % 0x1_0000_0000 == r
  {
    assert cell - cell % 0x1_0000_0000 == 0x1_0000_0000 * (cell / 0x1_0000_0000);
  }

  // --- Comparison flags --------------------------------------------------------

  datatype Flags = Flags(zf: bool, sf: bool, of: bool)

  /** The flags after subtracting `b` from `a`. */
  function SubFlags(a: int, b: int): Flags {
    var d := Wrap(a - b);
    Flags(d == 0, d < 0, d != a - b)
  }

  /** For words, the flag conditions of CMP are the signed order. */
  lemma {:induction false} FlagsDecideOrder(a: Word, b: Word)
    ensures var f := SubFlags(a, b); (f.zf <==> a == b) && (f.sf != f.of <==> a < b)
  {
  }
}
