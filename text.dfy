/**
  Decimal text of integers as the app prints it: Kotlin's `Int.toString()`
  (used by string templates) and the `%02d` conversion of `String.format`,
  together with a parser for decimal text, which is what lets the printed
  forms be stated as round trips.
 */
module Text {
  import opened Types

  predicate IsDigit(c: char) {
    '0' <= c <= '9'
  }

  predicate AllDigits(s: string) {
    forall i :: 0 <= i < |s| ==> IsDigit(s[i])
  }

  function DigitValue(c: char): (d: nat)
    requires IsDigit(c)
    ensures d < 10
  {
    c as int - '0' as int
  }

  function DigitChar(d: nat): (c: char)
    requires d < 10
    ensures IsDigit(c) && DigitValue(c) == d
  {
    ('0' as int + d) as char
  }

  /** The value of a string of decimal digits, most significant digit first. */
  function DecimalValue(s: string): nat
    requires AllDigits(s)
  {
    if s == [] then 0 else DecimalValue(s[..|s| - 1]) * 10 + DigitValue(s[|s| - 1])
  }

  /** Reads an optionally negative decimal integer; `None` for anything else. */
  function ParseInt(s: string): Option<int> {
    if |s| > 1 && s[0] == '-' && AllDigits(s[1..]) then Some(-(DecimalValue(s[1..]) as int))
    else if |s| > 0 && AllDigits(s) then Some(DecimalValue(s))
    else None
  }

  /** The digits of `n` without leading zeros. */
  function NatToString(n: nat): (s: string)
    ensures AllDigits(s) && |s| >= 1
  {
    if n < 10 then [DigitChar(n)] else NatToString(n / 10) + [DigitChar(n % 10)]
  }

  /** Kotlin's `Int.toString()`: a minus sign for negative numbers, then the digits. */
  function IntToString(i: int): string {
    if i < 0 then "-" + NatToString(-i) else NatToString(i)
  }

  /** Java's `%02d`: at least two characters, zero-padded in front of a non-negative number;
      a negative number already fills the width with its sign and one digit. */
  function Format02d(n: int): string {
    if n < 0 then "-" + NatToString(-n)
    else if n < 10 then "0" + NatToString(n)
    else NatToString(n)
  }

  /** The printed digits of `n` read back as `n`, and carry no leading zero. */
  lemma {:induction false} NatToStringRoundTrip(n: nat)
    ensures DecimalValue(NatToString(n)) == n
    ensures n < 10 ==> |NatToString(n)| == 1
    ensures n >= 10 ==> |NatToString(n)| >= 2
    ensures n < 100 ==> |NatToString(n)| <= 2
    ensures n > 0 ==> NatToString(n)[0] != '0'
  {
    if n >= 10 {
      NatToStringRoundTrip(n / 10);
      var s := NatToString(n);
      assert s[..|s| - 1] == NatToString(n / 10);
      assert s[0] == NatToString(n / 10)[0];
    }
  }

  lemma IntToStringRoundTrip(i: int)
    ensures ParseInt(IntToString(i)) == Some(i)
    ensures '/' !in IntToString(i)
  {
    var t := IntToString(i);
    if i < 0 {
      NatToStringRoundTrip(-i);
      assert t[1..] == NatToString(-i);
      assert t[0] == '-';
      assert forall k :: 1 <= k < |t| ==> t[k] == t[1..][k - 1];
    } else {
      NatToStringRoundTrip(i);
      assert forall k :: 0 <= k < |t| ==> IsDigit(t[k]);
    }
  }

  /** `%02d` of a non-negative number is its digits, at least two of them, exactly two below 100;
      only a number below 10 gets a leading zero. */
  lemma Format02dDigits(n: int)
    requires n >= 0
    ensures AllDigits(Format02d(n)) && |Format02d(n)| >= 2
    ensures DecimalValue(Format02d(n)) == n
    ensures n < 100 ==> |Format02d(n)| == 2
    ensures n >= 10 ==> Format02d(n)[0] != '0'
  {
    NatToStringRoundTrip(n);
    var t := Format02d(n);
    if n < 10 {
      assert t == ['0', DigitChar(n)];
      assert t[..1] == ['0'];
      assert DecimalValue(t[..1]) == 0 by {
        assert t[..1][..0] == [];
      }
    }
  }
}
