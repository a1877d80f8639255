/**
 * Decimal text of integer counts: what `Number.prototype.toString()` produces for an
 * integer, and the integer subset of what `Number(text)` accepts.
 */
module Decimal {
  import opened Http

  predicate IsDigit(c: char) {
    '0' <= c <= '9'
  }

  predicate AllDigits(s: string) {
    forall i :: 0 <= i < |s| ==> IsDigit(s[i])
  }

  function DigitChar(d: nat): (c: char)
    requires d < 10
    ensures IsDigit(c) && DigitValue(c) == d
  {
    (('0' as int) + d) as char
  }

  function DigitValue(c: char): (d: nat)
    requires IsDigit(c)
    ensures d < 10
  {
    c as int - '0' as int
  }

  function Pow10(k: nat): (p: nat)
    ensures p >= 1
  {
    if k == 0 then 1 else 10 * Pow10(k - 1)
  }

  /** Base-10 rendering of a non-negative integer, most significant digit first, no leading zeros. */
  function NatToString(n: nat): string {
    if n < 10 then [DigitChar(n)] else NatToString(n / 10) + [DigitChar(n % 10)]
  }

  /** `count.toString()` for an integer count: a '-' sign for negative values. */
  function IntToString(n: int): string {
    if n < 0 then "-" + NatToString(-n) else NatToString(n)
  }

  /** The rendering is a non-empty run of digits without a leading zero (except "0" itself). */
  lemma {:induction false} NatToStringIsDecimal(n: nat)
    ensures |NatToString(n)| >= 1 && AllDigits(NatToString(n))
    ensures NatToString(n)[0] != '0' || n == 0
  {
    if n >= 10 {
      NatToStringIsDecimal(n / 10);
      var p := NatToString(n / 10);
      assert NatToString(n)[0] == p[0];
      assert n / 10 != 0;
    }
  }

  /** A negative integer is a '-' followed by the digits of its magnitude; others are digits only. */
  lemma IntToStringIsDecimal(n: int)
    ensures |IntToString(n)| >= 1
    ensures n >= 0 ==> AllDigits(IntToString(n))
    ensures n < 0 ==> |IntToString(n)| >= 2 && IntToString(n)[0] == '-' && AllDigits(IntToString(n)[1..])
  {
    if n < 0 {
      NatToStringIsDecimal(-n);
      assert IntToString(n)[1..] == NatToString(-n);
    } else {
      NatToStringIsDecimal(n);
    }
  }

  /** The value a string of decimal digits denotes (the last digit is the least significant). */
  function DecimalValue(s: string): nat
    requires AllDigits(s)
  {
    if s == [] then 0 else 10 * DecimalValue(s[..|s| - 1]) + DigitValue(s[|s| - 1])
  }

  /**
   * `Number(text)` restricted to decimal integers: the empty text is 0, otherwise an
   * optional leading '-' followed by one or more digits. Every other text reads as a
   * non-finite number (`None`). A digit run reads as its decimal value, leading zeros
   * included, and a value read is negative only when the text starts with '-'.
   */
  function ParseNumber(s: string): (r: Option<int>)
    ensures r.Some? <==> s == [] || AllDigits(s) || (|s| >= 2 && s[0] == '-' && AllDigits(s[1..]))
    ensures |s| >= 1 && AllDigits(s) ==> r == Some(DecimalValue(s))
    ensures |s| >= 2 && s[0] == '-' && AllDigits(s[1..]) ==> r == Some(0 - DecimalValue(s[1..]) as int)
    ensures r.Some? && r.value < 0 ==> |s| >= 2 && s[0] == '-'
    ensures r.Some? && (s == [] || s[0] != '-') ==> r.value >= 0
  {
    if s == [] then Some(0)
    else if |s| >= 2 && s[0] == '-' && AllDigits(s[1..]) then Some(0 - DecimalValue(s[1..]) as int)
    else if |s| >= 1 && AllDigits(s) then Some(DecimalValue(s))
    else None
  }

  /** Leading zeros are ignored; a letter anywhere, or a lone '-', reads as no finite number. */
  lemma ParseNumberExamples()
    ensures ParseNumber("007") == Some(7)
    ensures ParseNumber("-0") == Some(0)
    ensures ParseNumber("abc") == None
    ensures ParseNumber("1x") == None
    ensures ParseNumber("-") == None
  {
    assert "007"[..2] == "00" && "00"[..1] == "0" && "0"[..0] == "";
    assert "-0"[1..] == "0";
    assert !IsDigit("abc"[0]) && !IsDigit("1x"[1]) && !IsDigit("-"[0]);
  }

  /** Reading back the decimal rendering of n gives n. */
  lemma {:induction false} DecimalValueOfNatToString(n: nat)
    ensures AllDigits(NatToString(n)) && DecimalValue(NatToString(n)) == n
  {
    NatToStringIsDecimal(n);
    if n >= 10 {
      var r := NatToString(n);
      assert r[..|r| - 1] == NatToString(n / 10);
      DecimalValueOfNatToString(n / 10);
    }
  }

  /** Parsing what `toString()` printed gives the same integer back, for every integer. */
  lemma ParseNumberOfIntToString(n: int)
    ensures ParseNumber(IntToString(n)) == Some(n)
  {
    var r := IntToString(n);
    IntToStringIsDecimal(n);
    if n < 0 {
      assert r[0] == '-' && r[1..] == NatToString(-n);
      DecimalValueOfNatToString(-n);
    } else {
      assert r == NatToString(n);
      assert r[0] != '-' by {
        assert IsDigit(r[0]);
      }
      DecimalValueOfNatToString(n);
    }
  }

  /**
   * The number of characters `toString()` writes for a non-negative integer is the k with
   * 10^(k-1) <= n < 10^k (k = 1 for n = 0).
   */
  lemma {:induction false} NatToStringLength(n: nat)
    ensures var k := |NatToString(n)|; n < Pow10(k) && (k == 1 || Pow10(k - 1) <= n)
  {
    if n >= 10 {
      NatToStringLength(n / 10);
      assert NatToString(n) == NatToString(n / 10) + [DigitChar(n % 10)];
      var k := |NatToString(n)|;
      assert k - 1 == |NatToString(n / 10)|;
      assert n / 10 < Pow10(k - 1);
      assert Pow10(k) == 10 * Pow10(k - 1);
      assert n < 10 * (n / 10) + 10;
      if k - 1 != 1 {
        assert Pow10(k - 1) == 10 * Pow10(k - 2);
        assert Pow10(k - 2) <= n / 10;
      }
    }
  }
}
