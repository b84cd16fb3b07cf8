/** Decimal rendering and parsing of integers, as `String(n)` / `JSON.stringify`
    write them and `JSON.parse` reads them back (integers only). */
module Decimal {
  import opened Wrappers

  predicate IsDigit(c: char) { '0' <= c <= '9' }

  /** The characters that may appear in a rendered integer. */
  predicate IsNumberChar(c: char) { IsDigit(c) || c == '-' }

  predicate AllDigits(s: string) {
    forall i :: 0 <= i < |s| ==> IsDigit(s[i])
  }

  /** A non-empty digit string without a superfluous leading zero. */
  predicate IsCanonical(s: string) {
    |s| >= 1 && AllDigits(s) && (s[0] == '0' ==> |s| == 1)
  }

  function DigitChar(d: nat): (c: char)
    requires d < 10
    ensures IsDigit(c)
  {
    (d + '0' as int) as char
  }

  function DigitValue(c: char): (d: nat)
    requires IsDigit(c)
    ensures d < 10 && DigitChar(d) == c
  {
    c as int - '0' as int
  }

  /** The decimal rendering of a natural number. */
  function NatToString(n: nat): (s: string)
    ensures IsCanonical(s)
    ensures s[0] == '0' <==> n == 0
    decreases n
  {
    if n < 10 then [DigitChar(n)] else NatToString(n / 10) + [DigitChar(n % 10)]
  }

  /** The value of a digit string (most significant digit first). */
  function StringToNat(s: string): nat
    requires AllDigits(s)
    decreases |s|
  {
    if |s| == 0 then 0 else StringToNat(s[..|s| - 1]) * 10 + DigitValue(s[|s| - 1])
  }

  lemma {:induction false} NatRoundTrip(n: nat)
    ensures StringToNat(NatToString(n)) == n
    decreases n
  {
    if n >= 10 {
      var s := NatToString(n);
      assert s[..|s| - 1] == NatToString(n / 10);
      NatRoundTrip(n / 10);
    }
  }

  lemma {:induction false} LeadingDigitPositive(s: string)
    requires |s| >= 1 && AllDigits(s) && s[0] != '0'
    ensures StringToNat(s) >= 1
    decreases |s|
  {
    if |s| > 1 {
      LeadingDigitPositive(s[..|s| - 1]);
    }
  }

  lemma {:induction false} CanonicalRoundTrip(s: string)
    requires IsCanonical(s)
    ensures NatToString(StringToNat(s)) == s
    decreases |s|
  {
    if |s| > 1 {
      var s' := s[..|s| - 1];
      LeadingDigitPositive(s');
      CanonicalRoundTrip(s');
      var n := StringToNat(s);
      assert n / 10 == StringToNat(s') && n % 10 == DigitValue(s[|s| - 1]);
      assert s == s' + [s[|s| - 1]];
    }
  }

  /** The decimal rendering of an integer, with a leading minus sign when negative. */
  function IntToString(i: int): (s: string)
    ensures |s| >= 1
    ensures forall k :: 0 <= k < |s| ==> IsNumberChar(s[k])
  {
    if i < 0 then "-" + NatToString(-i) else NatToString(i)
  }

  /** Reads back exactly the strings `IntToString` produces. */
  function ParseInt(s: string): Option<int> {
    if |s| >= 2 && s[0] == '-' then
      if IsCanonical(s[1..]) && s[1] != '0' then Some(0 - StringToNat(s[1..])) else None
    else if IsCanonical(s) then Some(StringToNat(s))
    else None
  }

  lemma IntRoundTrip(i: int)
    ensures ParseInt(IntToString(i)) == Some(i)
  {
    if i < 0 {
      NegativeRoundTrip(i);
    } else {
      NatRoundTrip(i);
    }
  }

  lemma NegativeRoundTrip(i: int)
    requires i < 0
    ensures ParseInt(IntToString(i)) == Some(i)
  {
    var digits := NatToString(-i);
    var s := IntToString(i);
    assert s == "-" + digits;
    assert s[1..] == digits;
    assert |s| >= 2 && s[0] == '-' && s[1] != '0';
    NatRoundTrip(-i);
  }

  lemma ParseIntCanonical(s: string)
    requires ParseInt(s).Some?
    ensures IntToString(ParseInt(s).value) == s
  {
    if |s| >= 2 && s[0] == '-' {
      LeadingDigitPositive(s[1..]);
      CanonicalRoundTrip(s[1..]);
      assert s == "-" + s[1..];
    } else {
      CanonicalRoundTrip(s);
    }
  }
}
