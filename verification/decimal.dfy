/** Reading an unsigned 8-bit decimal number from text, as Rust's
    `str::parse::<u8>` does: an optional single `+`, then one or more ASCII
    digits whose value is at most 255. Leading zeros are allowed. */
module Decimal {
  import opened Wrappers

  predicate IsDigit(c: char) {
    '0' <= c <= '9'
  }

  predicate AllDigits(s: string) {
    forall i :: 0 <= i < |s| ==> IsDigit(s[i])
  }

  function DigitValue(c: char): (d: nat)
    requires IsDigit(c)
    ensures d < 10
  {
    c as int - '0' as int
  }

  /** The value of a digit string, read most significant digit first. */
  function Value(s: string): nat
    requires AllDigits(s)
  {
    if s == [] then 0 else Value(s[..|s| - 1]) * 10 + DigitValue(s[|s| - 1])
  }

  /** `str::parse::<u8>`: `None` stands for every `ParseIntError`. */
  function ParseU8(s: string): (r: Option<nat>)
    ensures r.Some? ==> r.value < 256
  {
    var digits := if |s| > 0 && s[0] == '+' then s[1..] else s;
    if digits != [] && AllDigits(digits) && Value(digits) < 256 then Some(Value(digits)) else None
  }

  /** The digit character for `d`. */
  function DigitChar(d: nat): (c: char)
    requires d < 10
    ensures IsDigit(c) && DigitValue(c) == d
  {
    ('0' as int + d) as char
  }

  /** The decimal text of `n`, without leading zeros. */
  function DecimalText(n: nat): (s: string)
    ensures s != [] && AllDigits(s)
    ensures s[0] == '0' ==> n == 0
  {
    if n < 10 then [DigitChar(n)] else DecimalText(n / 10) + [DigitChar(n % 10)]
  }

  /** Reading a digit string appends its last digit to the value of the rest. */
  lemma ValueSnoc(s: string, c: char)
    requires AllDigits(s) && IsDigit(c)
    ensures AllDigits(s + [c])
    ensures Value(s + [c]) == Value(s) * 10 + DigitValue(c)
  {
    assert (s + [c])[..|s|] == s;
  }

  /** Reading the decimal text of `n` gives `n`. */
  lemma {:induction false} ValueOfDecimalText(n: nat)
    ensures Value(DecimalText(n)) == n
  {
    if n >= 10 {
      ValueOfDecimalText(n / 10);
      ValueSnoc(DecimalText(n / 10), DigitChar(n % 10));
    }
  }

  /** Every `u8` written in decimal parses back to itself. */
  lemma ParseDecimalText(n: nat)
    requires n < 256
    ensures ParseU8(DecimalText(n)) == Some(n)
  {
    ValueOfDecimalText(n);
  }

  /** A leading zero does not change the value of a digit string. */
  lemma {:induction false} LeadingZeroValue(s: string)
    requires AllDigits(s)
    ensures AllDigits(['0'] + s)
    ensures Value(['0'] + s) == Value(s)
  {
    if s != [] {
      var init := s[..|s| - 1];
      LeadingZeroValue(init);
      assert (['0'] + s)[..|s|] == ['0'] + init;
    }
  }

  /** Leading zeros are accepted and ignored. */
  lemma ParseLeadingZero(s: string)
    requires s != [] && AllDigits(s)
    ensures ParseU8(['0'] + s) == ParseU8(s)
  {
    LeadingZeroValue(s);
  }

  /** One leading `+` is accepted and ignored; a second is not. */
  lemma ParsePlusSign(s: string)
    requires s == [] || s[0] != '+'
    ensures ParseU8(['+'] + s) == ParseU8(s)
    ensures ParseU8(['+', '+'] + s) == None
  {
    assert (['+'] + s)[1..] == s;
    assert (['+', '+'] + s)[1..] == ['+'] + s;
  }

  /** A digit string without a leading zero has value at least `10^(k-1)`
      for its length `k`; so such a string of four or more digits is never
      a `u8`. */
  lemma {:induction false} ValueLowerBound(s: string)
    requires s != [] && AllDigits(s) && s[0] != '0'
    ensures Value(s) >= Power10(|s| - 1)
    ensures |s| >= 4 ==> ParseU8(s) == None
  {
    if |s| > 1 {
      ValueLowerBound(s[..|s| - 1]);
    }
    if |s| >= 4 {
      Power10Grows(|s| - 1);
    }
  }

  function Power10(k: nat): (p: nat)
    ensures p >= 1
  {
    if k == 0 then 1 else 10 * Power10(k - 1)
  }

  lemma {:induction false} Power10Grows(k: nat)
    requires k >= 3
    ensures Power10(k) >= 1000
  {
    if k > 3 {
      Power10Grows(k - 1);
    }
  }

  /** The text of a two-digit number is its tens digit, then its units digit. */
  lemma TwoDigitText(n: nat)
    requires 10 <= n < 100
    ensures DecimalText(n) == [DigitChar(n / 10), DigitChar(n % 10)]
  {
  }
}
