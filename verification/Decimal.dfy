/** Decimal text: what snprintf("%d") writes and what Lua's tonumber reads back. */
module Decimal {
  import opened Common

  function Digit(d: nat): (c: Byte)
    requires d < 10
    ensures IsDigit(c) && DigitValue(c) == d
  {
    ('0' as int + d) as char
  }

  predicate IsDigit(c: Byte) {
    '0' <= c <= '9'
  }

  function DigitValue(c: Byte): (d: nat)
    requires IsDigit(c)
    ensures d < 10
  {
    c as int - '0' as int
  }

  predicate AllDigits(s: Bytes) {
    forall i :: 0 <= i < |s| ==> IsDigit(s[i])
  }

  /** The decimal text of a natural number, most significant digit first. */
  function Show(n: nat): (s: Bytes)
    ensures s != [] && AllDigits(s)
  {
    if n < 10 then [Digit(n)] else Show(n / 10) + [Digit(n % 10)]
  }

  function Value(s: Bytes): nat
    requires AllDigits(s)
  {
    if s == [] then 0 else 10 * Value(s[..|s| - 1]) + DigitValue(s[|s| - 1])
  }

  /** Lua's tonumber on the texts the encoder can write, and nil on everything else. */
  function ToNumber(s: Bytes): Option<nat> {
    if s != [] && AllDigits(s) then Some(Value(s)) else None
  }

  lemma {:induction false} ToNumberOfShow(n: nat)
    ensures ToNumber(Show(n)) == Some(n)
  {
    if n < 10 {
      var s := [Digit(n)];
      assert s[..0] == [] && Value(s) == 10 * Value(s[..0]) + DigitValue(s[0]);
    } else {
      ToNumberOfShow(n / 10);
      assert Show(n)[..|Show(n)| - 1] == Show(n / 10);
    }
  }

  function Zeros(n: nat): Bytes {
    seq(n, _ => '0')
  }

  lemma {:induction false} DigitsAreANumber(s: Bytes) returns (z: nat)
    requires s != [] && AllDigits(s)
    ensures s == Zeros(z) + Show(Value(s))
  {
    var a, d := s[..|s| - 1], s[|s| - 1];
    assert Digit(DigitValue(d)) == d;
    if a == [] {
      z := 0;
      assert s == [d] && Zeros(0) + Show(Value(s)) == [d];
    } else {
      var y := DigitsAreANumber(a);
      if Value(a) == 0 {
        z := y + 1;
        assert Zeros(y) + ['0'] == Zeros(y + 1);
      } else {
        z := y;
        var v := Value(s);
        assert v >= 10 && v / 10 == Value(a) && v % 10 == DigitValue(d);
        assert Show(v) == Show(Value(a)) + [d];
      }
    }
  }

  lemma {:induction false} ZerosInFront(n: nat, z: nat)
    ensures ToNumber(Zeros(z) + Show(n)) == Some(n)
    decreases n
  {
    var s := Zeros(z) + Show(n);
    var a := s[..|s| - 1];
    if n < 10 {
      assert a == Zeros(z);
      ZerosAreZero(z);
      assert s[|s| - 1] == Digit(n);
    } else {
      assert Show(n) == Show(n / 10) + [Digit(n % 10)];
      assert a == Zeros(z) + Show(n / 10) && s[|s| - 1] == Digit(n % 10);
      ZerosInFront(n / 10, z);
    }
  }

  lemma {:induction false} ZerosAreZero(z: nat)
    ensures AllDigits(Zeros(z)) && Value(Zeros(z)) == 0
  {
    if z == 0 {
    } else {
      ZerosAreZero(z - 1);
      assert Zeros(z)[..z - 1] == Zeros(z - 1);
    }
  }

  /** A text reads as a number if and only if it is that number's decimal text, with any zeros in front. */
  lemma {:induction false} ReadsExactlyTheNumber(s: Bytes, n: nat)
    ensures ToNumber(s) == Some(n) <==> exists z :: s == Zeros(z) + Show(n)
  {
    if ToNumber(s) == Some(n) {
      var z := DigitsAreANumber(s);
    }
    if z: nat :| s == Zeros(z) + Show(n) {
      ZerosInFront(n, z);
    }
  }
}
