/** Decimal numbers as the source prints and parses them (Rust's `u32`). */
module Decimals {
  import opened Wrappers

  const U32_LIMIT: nat := 0x1_0000_0000

  predicate IsDigit(c: char) { '0' <= c <= '9' }

  function DigitValue(c: char): (value: nat)
    requires IsDigit(c)
  {
    c as int - '0' as int
  }

  function DigitChar(value: nat): (c: char)
    requires value < 10
  {
    (value + '0' as int) as char
  }

  predicate AllDigits(s: string) {
    forall i :: 0 <= i < |s| ==> IsDigit(s[i])
  }

  function Value(s: string): nat
    requires AllDigits(s)
  {
    if s == "" then 0 else 10 * Value(s[..|s| - 1]) + DigitValue(s[|s| - 1])
  }

  function Print(n: nat): (s: string)
    ensures s != "" && AllDigits(s)
  {
    if n < 10 then [DigitChar(n)] else Print(n / 10) + [DigitChar(n % 10)]
  }

  /** At least one digit, after an optional plus sign, with a value that fits. */
  function ParseU32(s: string): Option<nat> {
    var digits := if s != "" && s[0] == '+' then s[1..] else s;
    if digits == "" || !AllDigits(digits) || Value(digits) >= U32_LIMIT then None else Some(Value(digits))
  }

  lemma {:induction false} PrintedValue(n: nat)
    ensures Value(Print(n)) == n
  {
    var s := Print(n);
    if n >= 10 {
      PrintedValue(n / 10);
      assert s[..|s| - 1] == Print(n / 10);
    } else {
      assert Value(s[..|s| - 1]) == 0;
    }
  }

  lemma {:induction false} PrintThenParse(n: nat)
    ensures ParseU32(Print(n)) == if n < U32_LIMIT then Some(n) else None
  {
    PrintedValue(n);
    assert IsDigit(Print(n)[0]);
  }

  function Zeros(z: nat): (s: string)
    ensures |s| == z && forall i :: 0 <= i < z ==> s[i] == '0'
  {
    seq(z, _ => '0')
  }

  /** A number may be written with a plus sign and zeros in front. */
  ghost predicate Writes(s: string, n: nat) {
    exists z: nat :: s == Zeros(z) + Print(n) || s == "+" + (Zeros(z) + Print(n))
  }

  lemma {:induction false} ZerosAreNothing(z: nat, digits: string)
    requires AllDigits(digits)
    ensures AllDigits(Zeros(z) + digits) && Value(Zeros(z) + digits) == Value(digits)
    decreases z + |digits|
  {
    var s := Zeros(z) + digits;
    if digits != "" {
      ZerosAreNothing(z, digits[..|digits| - 1]);
      assert s[..|s| - 1] == Zeros(z) + digits[..|digits| - 1];
    } else if z > 0 {
      ZerosAreNothing(z - 1, "");
      assert s[..|s| - 1] == Zeros(z - 1) + "";
    }
  }

  lemma {:induction false} PrintOfValue(digits: string)
    requires AllDigits(digits) && digits != "" && (digits[0] != '0' || |digits| == 1)
    ensures Print(Value(digits)) == digits
  {
    var front, last := digits[..|digits| - 1], digits[|digits| - 1];
    if front != "" {
      PrintOfValue(front);
      assert Value(front) != 0 by {
        assert Print(Value(front))[0] != '0';
      }
      assert Value(digits) / 10 == Value(front) && Value(digits) % 10 == DigitValue(last);
    }
  }

  lemma {:induction false} ZerosInFront(digits: string) returns (z: nat)
    requires AllDigits(digits) && digits != ""
    ensures digits == Zeros(z) + Print(Value(digits))
  {
    if digits[0] != '0' || |digits| == 1 {
      z := 0;
      PrintOfValue(digits);
    } else {
      var rest := digits[1..];
      z := ZerosInFront(rest);
      assert digits == Zeros(1) + rest;
      ZerosAreNothing(1, rest);
      assert Zeros(1) + Zeros(z) == Zeros(z + 1);
      z := z + 1;
    }
  }

  lemma {:induction false} ZerosParse(z: nat, n: nat)
    requires n < U32_LIMIT
    ensures ParseU32(Zeros(z) + Print(n)) == Some(n)
    ensures ParseU32("+" + (Zeros(z) + Print(n))) == Some(n)
  {
    var digits := Zeros(z) + Print(n);
    ZerosAreNothing(z, Print(n));
    PrintedValue(n);
    assert IsDigit(digits[0]);
    assert ("+" + digits)[1..] == digits;
  }

  /** Which texts parse, and to what. */
  lemma {:induction false} ParsesIff(s: string, n: nat)
    ensures ParseU32(s) == Some(n) <==> n < U32_LIMIT && Writes(s, n)
  {
    if ParseU32(s) == Some(n) {
      var digits := if s != "" && s[0] == '+' then s[1..] else s;
      var z := ZerosInFront(digits);
      assert s == digits || s == "+" + digits;
    }
    if n < U32_LIMIT && Writes(s, n) {
      var z: nat :| s == Zeros(z) + Print(n) || s == "+" + (Zeros(z) + Print(n));
      ZerosParse(z, n);
    }
  }
}
