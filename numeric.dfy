/** Coercion of the Quantity column to a number, where text that does not
    spell a number becomes a missing value instead of an error. Only whole
    numbers in decimal, with an optional leading sign, are recognised. */
module Numeric {
  import opened Tables

  predicate IsDigit(c: char) {
    '0' <= c <= '9'
  }

  predicate AllDigits(s: string) {
    forall i :: 0 <= i < |s| ==> IsDigit(s[i])
  }

  /** The value of a string of decimal digits (the empty string reads as 0). */
  function DigitsValue(s: string): nat
    requires AllDigits(s)
  {
    if s == [] then 0
    else DigitsValue(s[..|s| - 1]) * 10 + (s[|s| - 1] as int - '0' as int)
  }

  /** Reads text as a whole number: one or more digits, optionally after
      a single '+' or '-'. Anything else, the empty text included, is None. */
  function ParseInt(s: string): Option<int> {
    if |s| >= 2 && s[0] == '-' && AllDigits(s[1..]) then Some(-(DigitsValue(s[1..]) as int))
    else if |s| >= 2 && s[0] == '+' && AllDigits(s[1..]) then Some(DigitsValue(s[1..]))
    else if |s| >= 1 && AllDigits(s) then Some(DigitsValue(s))
    else None
  }

  /** A Quantity cell coerced to a number; unparsable text and empty cells
      become missing. */
  function ToNumeric(c: Cell): Option<int> {
    match c
    case Number(n) => Some(n)
    case Text(s) => ParseInt(s)
    case Blank => None
  }

  /** The decimal digits of a natural number, without leading zeros. */
  function NatToString(n: nat): (s: string)
    ensures |s| >= 1 && AllDigits(s)
  {
    if n < 10 then [('0' as int + n) as char]
    else NatToString(n / 10) + [('0' as int + n % 10) as char]
  }

  /** The decimal spelling of a whole number, with '-' when it is negative. */
  function IntToString(i: int): (s: string)
    ensures |s| >= 1
  {
    if i < 0 then "-" + NatToString(-i) else NatToString(i)
  }

  lemma {:induction false} DigitsValueOfNatToString(n: nat)
    ensures DigitsValue(NatToString(n)) == n
  {
    var s := NatToString(n);
    if n >= 10 {
      DigitsValueOfNatToString(n / 10);
      assert s[..|s| - 1] == NatToString(n / 10);
    }
  }

  /** Every number written in decimal is read back as itself. */
  lemma ParseIntRoundTrip(i: int)
    ensures ParseInt(IntToString(i)) == Some(i)
  {
    if i < 0 {
      var d := NatToString(-i);
      assert IntToString(i)[1..] == d;
      DigitsValueOfNatToString(-i);
    } else {
      var d := NatToString(i);
      DigitsValueOfNatToString(i);
      assert d[0] != '-' && d[0] != '+' by { assert IsDigit(d[0]); }
    }
  }

  /** Text with a character that is neither a digit nor a leading sign is
      not a number. */
  lemma ParseIntRejectsNonDigit(s: string, k: nat)
    requires k < |s| && !IsDigit(s[k])
    requires k > 0 || (s[0] != '-' && s[0] != '+')
    ensures ParseInt(s) == None
  {
    if k > 0 {
      assert !IsDigit(s[1..][k - 1]);
    }
  }

  /** A quantity given as text coerces to the same number as the number
      itself, and an empty text coerces to missing. */
  lemma ToNumericTextAgrees(i: int)
    ensures ToNumeric(Text(IntToString(i))) == ToNumeric(Number(i))
    ensures ToNumeric(Text("")) == None
  {
    ParseIntRoundTrip(i);
  }
}
