/** Decimal numbers as Go prints and parses them, for 64-bit integers. */
module Decimal {

  const MAX := 0x7FFF_FFFF_FFFF_FFFF
  const MIN := -0x8000_0000_0000_0000

  predicate IsDigit(c: char) {
    '0' <= c <= '9'
  }

  predicate AllDigits(s: string) {
    forall i | 0 <= i < |s| :: IsDigit(s[i])
  }

  function DigitOf(d: nat): char
    requires d < 10
  {
    '0' + d as char
  }

  // The digits of a number, without leading zeros.
  function Digits(n: nat): string {
    if n < 10 then [DigitOf(n)] else Digits(n / 10) + [DigitOf(n % 10)]
  }

  function Value(s: string): nat
    requires AllDigits(s)
  {
    if s == "" then 0 else 10 * Value(s[..|s| - 1]) + (s[|s| - 1] - '0') as nat
  }

  /** The %d form. */
  function Format(x: int): string {
    if x < 0 then "-" + Digits(-x) else Digits(x)
  }

  // Without its sign, if it has one.
  function Unsigned(s: string): string {
    if s != "" && s[0] in {'+', '-'} then s[1..] else s
  }

  /** strconv.ParseInt in base 10 with 64 bits, and strconv.Atoi: a value, and whether it is right.
      Malformed text gives 0; a number out of range gives the nearest number in range. */
  function ParseInt(s: string): (int, bool) {
    var u := Unsigned(s);
    if u == "" || !AllDigits(u) then (0, false)
    else
      var x: int := if s[0] == '-' then 0 - Value(u) else Value(u);
      if x < MIN then (MIN, false) else if x > MAX then (MAX, false) else (x, true)
  }

  lemma {:induction false} DigitsValue(n: nat)
    ensures Digits(n) != "" && AllDigits(Digits(n)) && Value(Digits(n)) == n
  {
    if n < 10 {
      assert Digits(n)[..0] == "";
    } else {
      DigitsValue(n / 10);
      assert Digits(n)[..|Digits(n / 10)|] == Digits(n / 10);
    }
  }

  /** Printing and parsing give every 64-bit number back, and the nearest end of the range, with a
      failure, for any other. */
  lemma ParseFormat(x: int)
    ensures ParseInt(Format(x)) ==
      if x < MIN then (MIN, false) else if x > MAX then (MAX, false) else (x, true)
  {
    if x < 0 {
      DigitsValue(-x);
      assert Unsigned(Format(x)) == Digits(-x);
    } else {
      DigitsValue(x);
      assert IsDigit(Digits(x)[0]);
    }
  }

  /** The last digit is written last, and no number starts with a zero but zero itself. */
  lemma {:induction false} DigitsAreDecimal(n: nat, d: nat)
    requires n > 0 && d < 10
    ensures Digits(10 * n + d) == Digits(n) + ["0123456789"[d]]
    ensures Digits(n) != "" && Digits(n)[0] != '0'
  {
    assert (10 * n + d) / 10 == n && (10 * n + d) % 10 == d;
    if n >= 10 {
      DigitsAreDecimal(n / 10, n % 10);
    }
  }

  function Zeros(k: nat): string {
    seq(k, i => '0')
  }

  lemma {:induction false} LeadingZeros(k: nat, s: string)
    requires AllDigits(s)
    ensures AllDigits(Zeros(k) + s) && Value(Zeros(k) + s) == Value(s)
  {
    if s == "" {
      assert Zeros(k) + s == Zeros(k);
      if k > 0 {
        assert Zeros(k)[..k - 1] == Zeros(k - 1);
        LeadingZeros(k - 1, "");
        assert Zeros(k - 1) + "" == Zeros(k - 1);
      }
    } else {
      LeadingZeros(k, s[..|s| - 1]);
      assert (Zeros(k) + s)[..k + |s| - 1] == Zeros(k) + s[..|s| - 1];
    }
  }

  lemma ParseDigits(t: string)
    requires t != "" && AllDigits(t) && Value(t) <= MAX
    ensures ParseInt(t) == (Value(t), true) && ParseInt("+" + t) == (Value(t), true)
  {
    assert IsDigit(t[0]);
    assert ("+" + t)[1..] == t && ("+" + t)[0] == '+';
  }

  /** A plus sign and leading zeros are understood. */
  lemma ParsePadded(k: nat, n: nat)
    requires n <= MAX
    ensures ParseInt(Zeros(k) + Digits(n)) == (n, true) && ParseInt("+" + (Zeros(k) + Digits(n))) == (n, true)
  {
    DigitsValue(n);
    LeadingZeros(k, Digits(n));
    ParseDigits(Zeros(k) + Digits(n));
  }

  /** Anything with a character other than a digit after the first, with a first one that is neither a
      digit nor a sign, or without any digit gives zero and a failure. */
  lemma ParseMalformed(s: string)
    requires s in ["", "+", "-"] || (!IsDigit(s[0]) && s[0] !in "+-") || exists i | 0 < i < |s| :: !IsDigit(s[i])
    ensures ParseInt(s) == (0, false)
  {
    if i :| 0 < i < |s| && !IsDigit(s[i]) {
      assert Unsigned(s) == s || Unsigned(s)[i - 1] == s[i];
    }
  }

  lemma FormatIsPlain(x: int, c: char)
    requires !IsDigit(c) && c != '-'
    ensures c !in Format(x)
  {
    DigitsValue(if x < 0 then -x else x);
  }
}
