/**
 * Decimal text for the numbers the store holds.  A Redis hash holds only
 * strings: `HINCRBY` reads a field as a 64-bit integer in canonical decimal
 * form and writes the sum back as text, and the Python handlers convert
 * with `int(...)`, `str(...)` and `float(...)`.
 */
module Decimal {
  import opened Wrappers

  predicate IsDigit(c: char) {
    '0' <= c <= '9'
  }

  predicate AllDigits(s: string) {
    forall i :: 0 <= i < |s| ==> IsDigit(s[i])
  }

  function DigitValue(c: char): (d: nat)
    requires IsDigit(c)
    ensures d < 10
  {
    (c as int) - ('0' as int)
  }

  function DigitChar(d: nat): (c: char)
    requires d < 10
    ensures IsDigit(c) && DigitValue(c) == d
  {
    (('0' as int) + d) as char
  }

  /** The value of a string of decimal digits, most significant first. */
  function DigitsValue(s: string): nat
    requires AllDigits(s)
  {
    if s == [] then 0 else DigitsValue(s[..|s| - 1]) * 10 + DigitValue(s[|s| - 1])
  }

  function Pow10(n: nat): (p: nat)
    ensures p >= 1
  {
    if n == 0 then 1 else 10 * Pow10(n - 1)
  }

  /** Canonical digits: at least one, and no leading zero unless the number is 0. */
  predicate IsCanonicalNat(s: string) {
    |s| >= 1 && AllDigits(s) && (s[0] == '0' ==> |s| == 1)
  }

  /** Decimal text of a natural number, without leading zeros. */
  function NatToString(n: nat): string
  {
    if n < 10 then [DigitChar(n)] else NatToString(n / 10) + [DigitChar(n % 10)]
  }

  /** Python's `str(n)` for an int, which is also the text Redis stores after `HINCRBY`. */
  function IntToString(n: int): string
  {
    if n < 0 then "-" + NatToString(-n) else NatToString(n)
  }

  /**
   * The integers Redis accepts in a hash field for `HINCRBY`: "0", or an
   * optional '-' followed by digits that do not start with '0' ("-0",
   * "007", "+1" and " 1" are refused).  Every value this model writes
   * into a cart is of this form.
   */
  function ParseInt(s: string): Option<int>
  {
    if |s| >= 2 && s[0] == '-' && IsCanonicalNat(s[1..]) && s[1] != '0' then
      Some(-(DigitsValue(s[1..]) as int))
    else if IsCanonicalNat(s) then
      Some(DigitsValue(s))
    else
      None
  }

  /**
   * Python's `float(s)` on the plain decimal forms: an optional sign, digits,
   * and an optional '.' followed by more digits, with at least one digit in
   * all.  The value is exact (a `real`), not a rounded binary float.
   */
  function ParseDecimal(s: string): Option<real>
  {
    if |s| >= 1 && (s[0] == '-' || s[0] == '+') then
      match ParseUnsignedDecimal(s[1..])
      case Some(v) => Some(if s[0] == '-' then -v else v)
      case None => None
    else
      ParseUnsignedDecimal(s)
  }

  function ParseUnsignedDecimal(s: string): Option<real>
  {
    var dot := DotIndex(s);
    var whole := s[..dot];
    var frac := if dot < |s| then s[dot + 1..] else "";
    if AllDigits(whole) && AllDigits(frac) && |whole| + |frac| >= 1 then
      Some(DigitsValue(whole) as real + DigitsValue(frac) as real / Pow10(|frac|) as real)
    else
      None
  }

  /** Index of the first '.' in `s`, or |s| when there is none. */
  function DotIndex(s: string): (i: nat)
    ensures i <= |s|
    ensures forall j :: 0 <= j < i ==> s[j] != '.'
    ensures i < |s| ==> s[i] == '.'
  {
    if s == [] then 0 else if s[0] == '.' then 0 else 1 + DotIndex(s[1..])
  }

  lemma {:induction false} NatToStringCanonical(n: nat)
    ensures IsCanonicalNat(NatToString(n))
    ensures DigitsValue(NatToString(n)) == n
  {
    if n >= 10 {
      NatToStringCanonical(n / 10);
      var s := NatToString(n);
      assert s[..|s| - 1] == NatToString(n / 10);
      NatToStringLeads(n);
    }
  }

  /** The first digit of the text of a number of two or more digits is not '0'. */
  lemma {:induction false} NatToStringLeads(n: nat)
    requires n >= 10
    ensures |NatToString(n)| >= 2 && NatToString(n)[0] != '0'
  {
    if n / 10 >= 10 {
      NatToStringLeads(n / 10);
    }
  }

  /** A canonical string of two or more digits denotes at least 10. */
  lemma {:induction false} CanonicalValueBound(s: string)
    requires IsCanonicalNat(s) && s != "0"
    ensures DigitsValue(s) >= 1
    ensures |s| >= 2 ==> DigitsValue(s) >= 10
  {
    if |s| >= 2 {
      var t := s[..|s| - 1];
      assert t[0] == s[0];
      CanonicalValueBound(t);
    }
  }

  /** Reading the text of a canonical number gives that text back. */
  lemma {:induction false} CanonicalRoundTrip(s: string)
    requires IsCanonicalNat(s)
    ensures NatToString(DigitsValue(s)) == s
  {
    if |s| >= 2 {
      var t := s[..|s| - 1];
      assert t[0] == s[0];
      CanonicalValueBound(s);
      CanonicalRoundTrip(t);
      assert s == t + [s[|s| - 1]];
    } else {
      assert s == [s[0]];
    }
  }

  /** The text of a positive number does not start with '0'. */
  lemma NatToStringPositive(m: nat)
    requires m >= 1
    ensures IsCanonicalNat(NatToString(m)) && DigitsValue(NatToString(m)) == m
    ensures NatToString(m)[0] != '0'
  {
    NatToStringCanonical(m);
    if m >= 10 {
      NatToStringLeads(m);
    }
  }

  /** Every integer written with `IntToString` parses back to itself. */
  lemma ParseIntToString(n: int)
    ensures ParseInt(IntToString(n)) == Some(n)
  {
    if n < 0 {
      var t := NatToString(-n);
      NatToStringPositive(-n);
      var s := "-" + t;
      assert s[1..] == t && s[1] == t[0];
    } else {
      NatToStringCanonical(n);
      if n >= 10 {
        NatToStringLeads(n);
      }
    }
  }

  /** A parsed integer is written back as exactly the text it came from. */
  lemma ToStringParseInt(s: string)
    requires ParseInt(s).Some?
    ensures IntToString(ParseInt(s).value) == s
  {
    if |s| >= 2 && s[0] == '-' && IsCanonicalNat(s[1..]) && s[1] != '0' {
      CanonicalRoundTrip(s[1..]);
      CanonicalValueBound(s[1..]);
      assert s == "-" + s[1..];
    } else {
      CanonicalRoundTrip(s);
    }
  }

  /** `float` agrees with `int` on the integers Redis stores. */
  lemma ParseDecimalOfInt(s: string)
    requires ParseInt(s).Some?
    ensures ParseDecimal(s) == Some(ParseInt(s).value as real)
  {
    var body := if s[0] == '-' then s[1..] else s;
    assert IsCanonicalNat(body);
    NoDotInDigits(body);
    assert body[..|body|] == body;
  }

  lemma NoDotInDigits(s: string)
    requires AllDigits(s)
    ensures DotIndex(s) == |s|
  {
  }
}
