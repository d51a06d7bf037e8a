/**
 The text-to-integer conversion ReadElementContentAsInt applies to an
 element's content (XmlConvert.ToInt32): optional white space around an
 optionally signed run of decimal digits whose value fits in 32 bits.
 */
module XmlConvert {
  import opened Common

  const Int32Min: int := -0x8000_0000
  const Int32Max: int := 0x7FFF_FFFF

  /** The white space a number may be padded with: tab, line feed, vertical tab, form feed, carriage return, space. */
  predicate IsNumberWhite(c: char)
  {
    c == ' ' || ('\t' <= c <= '\r')
  }

  predicate IsDigit(c: char)
  {
    '0' <= c <= '9'
  }

  predicate AllDigits(s: string)
  {
    forall i :: 0 <= i < |s| ==> IsDigit(s[i])
  }

  function DigitValue(c: char): nat
    requires IsDigit(c)
  {
    (c as int) - ('0' as int)
  }

  function DigitChar(d: nat): (c: char)
    requires d < 10
    ensures IsDigit(c) && DigitValue(c) == d
  {
    (('0' as int) + d) as char
  }

  function TrimStart(s: string): string
  {
    if |s| > 0 && IsNumberWhite(s[0]) then TrimStart(s[1..]) else s
  }

  function TrimEnd(s: string): string
  {
    if |s| > 0 && IsNumberWhite(s[|s| - 1]) then TrimEnd(s[..|s| - 1]) else s
  }

  /** The value of a run of decimal digits, most significant first. */
  function DigitsValue(s: string): nat
    requires AllDigits(s)
  {
    if |s| == 0 then 0 else DigitsValue(s[..|s| - 1]) * 10 + DigitValue(s[|s| - 1])
  }

  /** XmlConvert.ToInt32: None where the conversion throws (no digits, a stray character, or overflow). */
  function ParseInt32(s: string): (r: Option<int>)
    ensures r.Some? ==> Int32Min <= r.value <= Int32Max
  {
    var t := TrimEnd(TrimStart(s));
    var signed := |t| > 0 && (t[0] == '-' || t[0] == '+');
    var digits := if signed then t[1..] else t;
    if |digits| == 0 || !AllDigits(digits) then None
    else
      var magnitude: int := DigitsValue(digits);
      var v: int := if signed && t[0] == '-' then -magnitude else magnitude;
      if Int32Min <= v <= Int32Max then Some(v) else None
  }

  /** The shortest decimal rendering of a natural number. */
  function FormatNat(n: nat): string
  {
    if n < 10 then [DigitChar(n)] else FormatNat(n / 10) + [DigitChar(n % 10)]
  }

  /** The decimal rendering of an integer, with a leading '-' when negative. */
  function FormatInt(n: int): string
  {
    if n < 0 then "-" + FormatNat(-n) else FormatNat(n)
  }

  lemma {:induction false} FormatNatDigits(n: nat)
    ensures |FormatNat(n)| > 0 && AllDigits(FormatNat(n))
    ensures DigitsValue(FormatNat(n)) == n
  {
    var s := FormatNat(n);
    if n >= 10 {
      FormatNatDigits(n / 10);
      assert s[..|s| - 1] == FormatNat(n / 10);
    }
  }

  /**
   Parsing the decimal rendering of an integer gives the integer back exactly
   when it fits in 32 bits, and fails otherwise.
   */
  lemma ParseFormatRoundTrip(n: int)
    ensures ParseInt32(FormatInt(n)) == if Int32Min <= n <= Int32Max then Some(n) else None
  {
    var m: nat := if n < 0 then -n else n;
    FormatNatDigits(m);
    var s := FormatInt(n);
    assert TrimStart(s) == s;
    assert TrimEnd(s) == s;
    if n < 0 {
      assert s[1..] == FormatNat(m);
    }
  }
}
