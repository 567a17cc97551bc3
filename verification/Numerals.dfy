/** Numerals: the digits of a number are read as that number, up to the largest word. */
module Numerals {
  import opened Words
  import opened Ast
  import opened Lexing

  /** The decimal digits of `n`, without leading zeros. */
  function Decimal(n: nat): (s: string)
    ensures s != []
  {
    (if n < 10 then [] else Decimal(n / 10)) + ["0123456789"[n % 10]]
  }

  function Zeros(n: nat): string {
    seq(n, _ => '0')
  }

  lemma {:induction false} DigitIsRead(d: nat)
    requires d < 10
    ensures DigitOf("0123456789"[d]) == d && Digit("0123456789"[d])
  {
    assert "0123456789" == ['0', '1', '2', '3', '4', '5', '6', '7', '8', '9'];
  }

  lemma {:induction false} DigitsMore(text: string, c: char)
    ensures Digits(text + [c]) == 10 * Digits(text) + DigitOf(c)
  {
    assert (text + [c])[..|text|] == text;
  }

  lemma {:induction false} DecimalDigits(n: nat)
    ensures Digits(Decimal(n)) == n && forall i :: 0 <= i < |Decimal(n)| ==> Digit(Decimal(n)[i])
  {
    hide DigitOf, Digits, Digit;
    DigitIsRead(n % 10);
    var front := if n < 10 then [] else Decimal(n / 10);
    DigitsMore(front, "0123456789"[n % 10]);
    if n < 10 {
      NoDigits();
    } else {
      DecimalDigits(n / 10);
    }
  }

  lemma {:induction false} NoDigits()
    ensures Digits([]) == 0
  {
  }

  lemma {:induction false} ZerosFirst(z: nat, text: string)
    ensures Digits(Zeros(z) + text) == Digits(text)
    decreases |text| + z
  {
    hide DigitOf;
    if text == [] {
      assert Zeros(z) + text == Zeros(z);
      if z > 0 {
        assert Zeros(z) == Zeros(z - 1) + ['0'];
        DigitsMore(Zeros(z - 1), '0');
        assert Zeros(z - 1) + [] == Zeros(z - 1);
        ZerosFirst(z - 1, []);
        DigitIsRead(0);
      }
    } else {
      var front, c := text[..|text| - 1], text[|text| - 1];
      assert Zeros(z) + text == (Zeros(z) + front) + [c];
      DigitsMore(Zeros(z) + front, c);
      ZerosFirst(z, front);
    }
  }

  /** The numeral of `n`, with any number of zeros before it, has the value `n`, or the largest word. */
  lemma {:induction false} NumeralIsRead(n: nat, z: nat)
    ensures NumberValue(Zeros(z) + Decimal(n)) == if n <= MAX64 then n else MAX64
  {
    DecimalDigits(n);
    ZerosFirst(z, Decimal(n));
  }

  lemma {:induction false} DigitIs(c: char) returns (d: nat)
    requires Digit(c)
    ensures d < 10 && c == "0123456789"[d] && Decimal(d) == [c]
  {
    d := c as int - '0' as int;
    assert "0123456789" == ['0', '1', '2', '3', '4', '5', '6', '7', '8', '9'];
  }

  lemma {:induction false} DecimalMore(m: nat, d: nat)
    requires m > 0 && d < 10
    ensures Decimal(10 * m + d) == Decimal(m) + ["0123456789"[d]]
  {
    var n := 10 * m + d;
    assert n / 10 == m && n % 10 == d;
  }

  lemma {:induction false} ZeroMore(z: nat)
    ensures Zeros(z) + Decimal(0) == Zeros(z + 1)
  {
    assert Decimal(0) == ['0'];
  }

  /** There are no other numerals. */
  lemma {:induction false} NumeralsAreThese(text: string) returns (n: nat, z: nat)
    requires text != [] && forall i :: 0 <= i < |text| ==> Digit(text[i])
    ensures text == Zeros(z) + Decimal(n)
    decreases |text|
  {
    hide Decimal, Digit, Zeros;
    var front, c := text[..|text| - 1], text[|text| - 1];
    var d := DigitIs(c);
    assert text == front + [c];
    if front == [] {
      n, z := d, 0;
      NoZeros(Decimal(d));
    } else {
      var m, z0 := NumeralsAreThese(front);
      if m == 0 {
        n, z := d, z0 + 1;
        ZeroMore(z0);
      } else {
        n, z := 10 * m + d, z0;
        DecimalMore(m, d);
        assert Zeros(z0) + Decimal(m) + [c] == Zeros(z0) + (Decimal(m) + [c]);
      }
    }
  }

  lemma {:induction false} NoZeros(s: string)
    ensures Zeros(0) + s == s
  {
  }
}
