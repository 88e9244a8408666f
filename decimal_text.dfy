/** Decimal rendering of integers, as Python's `str(int)` (and an f-string
    `{n}` on an `int`) writes them: an optional `-`, then the digits with no
    leading zero. The reminder body uses it for the mileage column. */
module DecimalText {

  predicate IsDigit(c: char) {
    '0' <= c <= '9'
  }

  function DigitChar(d: nat): (c: char)
    requires d < 10
    ensures IsDigit(c) && c as int - '0' as int == d
  {
    ('0' as int + d) as char
  }

  /** The digits of `n`, most significant first. */
  function Digits(n: nat): string
    decreases n
  {
    if n < 10 then [DigitChar(n)] else Digits(n / 10) + [DigitChar(n % 10)]
  }

  /** `str(n)` for a Python `int`: it starts with `-` exactly for a negative
      number and otherwise with a digit, the rest is digits with no leading
      zero unless the number is 0, and it reads back as `n`. */
  function IntText(n: int): (s: string)
    ensures |s| > 0
    ensures s[0] == '-' || IsDigit(s[0])
    ensures s[0] == '-' <==> n < 0
    ensures s[0] == '-' ==> |s| > 1
    ensures forall i :: (if s[0] == '-' then 1 else 0) <= i < |s| ==> IsDigit(s[i])
    ensures var k := if s[0] == '-' then 1 else 0; s[k] == '0' ==> |s| == k + 1
    ensures TextValue(s) == n
  {
    if n < 0 then
      DigitsRoundTrip(-n);
      var s := "-" + Digits(-n);
      assert s[1..] == Digits(-n);
      s
    else
      DigitsRoundTrip(n);
      Digits(n)
  }

  /** The number a string of digits denotes (the reading direction, used to
      state what `Digits` writes). */
  function DigitsValue(s: string): nat
    requires forall i :: 0 <= i < |s| ==> IsDigit(s[i])
    decreases |s|
  {
    if |s| == 0 then 0
    else
      assert IsDigit(s[|s| - 1]);
      DigitsValue(s[..|s| - 1]) * 10 + (s[|s| - 1] as int - '0' as int)
  }

  /** The integer a rendered text denotes: a leading `-` negates the digits. */
  function TextValue(s: string): int
    requires |s| > 0
    requires s[0] == '-' ==> |s| > 1
    requires forall i :: (if s[0] == '-' then 1 else 0) <= i < |s| ==> IsDigit(s[i])
  {
    if s[0] == '-' then -(DigitsValue(s[1..]) as int) else DigitsValue(s)
  }

  /** `Digits` writes a non-empty string of digits, with no leading zero
      unless it is "0", whose value is `n`. */
  lemma {:induction false} DigitsRoundTrip(n: nat)
    ensures |Digits(n)| > 0
    ensures forall i :: 0 <= i < |Digits(n)| ==> IsDigit(Digits(n)[i])
    ensures Digits(n)[0] == '0' ==> n == 0
    ensures DigitsValue(Digits(n)) == n
  {
    if n >= 10 {
      DigitsRoundTrip(n / 10);
      var s := Digits(n);
      assert s[..|s| - 1] == Digits(n / 10);
      assert s[0] == Digits(n / 10)[0];
    }
  }
}
