/** Decimal rendering of integers, as Java's string concatenation `"..." + n` produces it. */
module Decimal {
  import opened Wrappers

  predicate IsDigit(c: char)
  {
    '0' <= c <= '9'
  }

  predicate AllDigits(s: string)
  {
    forall i :: 0 <= i < |s| ==> IsDigit(s[i])
  }

  function DigitValue(c: char): nat
    requires IsDigit(c)
  {
    (c as int) - ('0' as int)
  }

  function DigitChar(d: nat): (c: char)
    requires d < 10
    ensures IsDigit(c) && DigitValue(c) == d
  {
    (('0' as int) + d) as char
  }

  /** The shortest decimal numeral of `n`. */
  function NatToString(n: nat): (s: string)
    ensures |s| >= 1 && AllDigits(s)
    ensures s[0] == '0' ==> n == 0
  {
    if n < 10 then [DigitChar(n)] else NatToString(n / 10) + [DigitChar(n % 10)]
  }

  /** `Integer.toString(i)`: an optional minus sign followed by the numeral of `|i|`. */
  function IntToString(i: int): (s: string)
    ensures |s| >= 1
    ensures s[0] == '-' <==> i < 0
    ensures AllDigits(s[1..]) && (i >= 0 ==> AllDigits(s))
  {
    if i < 0 then "-" + NatToString(-i) else NatToString(i)
  }

  /** A numeral holds neither of the query delimiters. */
  lemma NumeralPlain(i: int)
    ensures '&' !in IntToString(i) && '=' !in IntToString(i)
  {
    var s := IntToString(i);
    forall k | 0 <= k < |s|
      ensures s[k] != '&' && s[k] != '='
    {
      if k > 0 {
        assert s[k] == s[1..][k - 1];
      }
    }
  }

  /** The value of a string of digits (the empty string has value 0). */
  function DigitsValue(s: string): nat
    requires AllDigits(s)
  {
    if s == [] then 0 else DigitsValue(s[..|s| - 1]) * 10 + DigitValue(s[|s| - 1])
  }

  /** Reads back an optionally signed decimal numeral; anything else is `None`. */
  function ParseInt(s: string): Option<int>
  {
    if s == [] then None
    else if s[0] == '-' then
      match ParseNat(s[1..])
      case None => None
      case Some(n) => Some(-(n as int))
    else
      match ParseNat(s)
      case None => None
      case Some(n) => Some(n as int)
  }

  /** Reads back a non-empty string of digits. */
  function ParseNat(s: string): Option<nat>
  {
    if s != [] && AllDigits(s) then Some(DigitsValue(s)) else None
  }

  lemma {:induction false} NatToStringValue(n: nat)
    ensures DigitsValue(NatToString(n)) == n
  {
    var s := NatToString(n);
    if n >= 10 {
      NatToStringValue(n / 10);
      assert s[..|s| - 1] == NatToString(n / 10);
    }
  }

  lemma ParseNegative(t: string)
    requires ParseNat(t).Some?
    ensures ParseInt("-" + t) == Some(-(ParseNat(t).value as int))
  {
    assert ("-" + t)[1..] == t;
  }

  lemma ParseNonNegative(t: string)
    requires ParseNat(t).Some? && t[0] != '-'
    ensures ParseInt(t) == Some(ParseNat(t).value as int)
  {
  }

  /** Reading back the rendering of any integer gives that integer. */
  lemma IntToStringRoundTrip(i: int)
    ensures ParseInt(IntToString(i)) == Some(i)
  {
    if i < 0 {
      var t := NatToString(-i);
      assert IntToString(i) == "-" + t;
      NatToStringValue(-i);
      ParseNegative(t);
    } else {
      var t := NatToString(i);
      assert IntToString(i) == t;
      NatToStringValue(i);
      ParseNonNegative(t);
    }
  }
}
