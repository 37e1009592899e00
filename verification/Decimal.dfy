/** Decimal text of integers, as printed by Rust's `to_string` and read by `parse::<i64>`. */
module Decimal {
  import opened Wrappers

  const I64_MIN: int := -0x8000_0000_0000_0000
  const I64_MAX: int := 0x7fff_ffff_ffff_ffff

  predicate IsDigit(c: char) {
    '0' <= c <= '9'
  }

  predicate AllDigits(s: string) {
    forall i :: 0 <= i < |s| ==> IsDigit(s[i])
  }

  function DigitValue(c: char): nat
    requires IsDigit(c)
  {
    c as int - '0' as int
  }

  function OfNat(n: nat): (s: string)
    ensures s != [] && AllDigits(s)
    ensures n != 0 ==> s[0] != '0'
    ensures n < 10 ==> |s| == 1
  {
    var last := ('0' as int + n % 10) as char;
    if n < 10 then [last] else OfNat(n / 10) + [last]
  }

  function OfInt(n: int): string {
    if n < 0 then "-" + OfNat(-n) else OfNat(n)
  }

  /** The value of a digit string, most significant digit first. */
  function NatValue(s: string): nat
    requires AllDigits(s)
  {
    if s == [] then 0 else 10 * NatValue(s[..|s| - 1]) + DigitValue(s[|s| - 1])
  }

  /** `str::parse::<i64>`: an optional sign, at least one digit, and a value in range. */
  function ParseI64(s: string): Option<int> {
    var negative := s != [] && s[0] == '-';
    var digits := if s != [] && (s[0] == '-' || s[0] == '+') then s[1..] else s;
    if digits == [] || !AllDigits(digits) then None
    else
      var magnitude: int := NatValue(digits);
      var n := if negative then -magnitude else magnitude;
      if I64_MIN <= n <= I64_MAX then Some(n) else None
  }

  lemma {:induction false} NatValueOfNat(n: nat)
    ensures NatValue(OfNat(n)) == n
  {
    if n >= 10 {
      NatValueOfNat(n / 10);
      assert OfNat(n)[..|OfNat(n)| - 1] == OfNat(n / 10);
    }
  }

  /** Without leading zeros a numeral is determined by its value. */
  lemma {:induction false} OfNatOfValue(s: string)
    requires s != [] && AllDigits(s) && s[0] != '0'
    ensures NatValue(s) > 0 && OfNat(NatValue(s)) == s
    decreases |s|
  {
    var front := s[..|s| - 1];
    assert s == front + [s[|s| - 1]];
    if front != [] {
      OfNatOfValue(front);
    }
  }

  lemma {:induction false} ParseOfInt(n: int)
    requires I64_MIN <= n <= I64_MAX
    ensures ParseI64(OfInt(n)) == Some(n)
  {
    NatValueOfNat(if n < 0 then -n else n);
    if n < 0 {
      assert OfInt(n)[1..] == OfNat(-n);
    }
  }

  /** A plus sign may stand in front. */
  lemma PlusIsRead(n: nat)
    requires n <= I64_MAX
    ensures ParseI64("+" + OfNat(n)) == Some(n)
  {
    assert ("+" + OfNat(n))[1..] == OfNat(n);
    NatValueOfNat(n);
  }

  lemma {:induction false} OfNatInjective(m: nat, n: nat)
    requires OfNat(m) == OfNat(n)
    ensures m == n
  {
    NatValueOfNat(m);
    NatValueOfNat(n);
  }

  /** Larger numbers never have shorter numerals. */
  lemma {:induction false} OfNatMonotone(m: nat, n: nat)
    requires m <= n
    ensures |OfNat(m)| <= |OfNat(n)|
  {
    if m >= 10 {
      OfNatMonotone(m / 10, n / 10);
    }
  }
}
