/** Decimal rendering of integers, as JavaScript's template literals print an
    integral number, and the parser that reads it back. */
module Decimal {
  import opened Types

  predicate IsDigit(c: char)
  {
    '0' <= c <= '9'
  }

  function Digit(d: nat): (c: char)
    requires d < 10
    ensures IsDigit(c)
  {
    (('0' as int) + d) as char
  }

  function DigitValue(c: char): (d: nat)
    requires IsDigit(c)
    ensures d < 10
  {
    (c as int) - ('0' as int)
  }

  /** The decimal digits of n, most significant first, without leading zeros. */
  function ShowNat(n: nat): (s: string)
    ensures |s| > 0
    ensures forall i :: 0 <= i < |s| ==> IsDigit(s[i])
    ensures s[0] == '0' ==> n == 0
  {
    if n < 10 then [Digit(n)] else ShowNat(n / 10) + [Digit(n % 10)]
  }

  /** The exact decimal digits of i, which is what `${i}` writes for an
      integral number of magnitude at most 2^53. Beyond that JavaScript
      writes the shortest digits that read back as the same double (and, from
      10^21 on, exponential form), which this does not. */
  function ShowInt(i: int): (s: string)
    ensures |s| > 0
    ensures forall k :: 0 <= k < |s| ==> IsDigit(s[k]) || s[k] == '-'
    ensures s[0] == '-' <==> i < 0
    ensures CanonicalInt(s)
  {
    if i < 0 then "-" + ShowNat(-i) else ShowNat(i)
  }

  /** The value of a non-empty string of decimal digits. */
  function ParseNat(s: string): (r: Option<nat>)
    ensures r.Some? ==> |s| > 0
  {
    if |s| == 0 then None
    else if !IsDigit(s[|s| - 1]) then None
    else if |s| == 1 then Some(DigitValue(s[0]))
    else match ParseNat(s[..|s| - 1])
         case None => None
         case Some(p) => Some(10 * p + DigitValue(s[|s| - 1]))
  }

  /** The value of an optionally negated string of decimal digits. */
  function ParseInt(s: string): (r: Option<int>)
  {
    if |s| > 0 && s[0] == '-' then
      match ParseNat(s[1..])
      case None => None
      case Some(n) => Some(-(n as int))
    else
      match ParseNat(s)
      case None => None
      case Some(n) => Some(n)
  }

  lemma {:induction false} ParseShowNat(n: nat)
    ensures ParseNat(ShowNat(n)) == Some(n)
  {
    if n >= 10 {
      var s := ShowNat(n / 10);
      var t := s + [Digit(n % 10)];
      assert ShowNat(n) == t;
      assert t[..|t| - 1] == s;
      ParseShowNat(n / 10);
      assert DigitValue(t[|t| - 1]) == n % 10;
    }
  }

  lemma ParseShowInt(i: int)
    ensures ParseInt(ShowInt(i)) == Some(i)
  {
    var s := ShowInt(i);
    if i < 0 {
      var n: nat := -i;
      assert s == "-" + ShowNat(n) && s[1..] == ShowNat(n);
      ParseShowNat(n);
    } else {
      assert s == ShowNat(i) && s[0] != '-';
      ParseShowNat(i);
    }
  }

  /** A numeral as `ShowNat` writes it: digits only, with no leading zero
      unless the numeral is "0" itself. */
  predicate CanonicalNat(s: string)
  {
    && |s| > 0
    && (forall i :: 0 <= i < |s| ==> IsDigit(s[i]))
    && (s[0] == '0' ==> |s| == 1)
  }

  /** A numeral as `ShowInt` writes it: a canonical natural numeral, or a
      minus sign before a canonical one other than "0". */
  predicate CanonicalInt(s: string)
  {
    if |s| > 0 && s[0] == '-' then CanonicalNat(s[1..]) && s[1..] != "0" else CanonicalNat(s)
  }

  /** The value of a numeral written as `${i}` writes an integer; None for
      any other string, leading zeros and "-0" included. */
  function ReadInt(s: string): (r: Option<int>)
  {
    if CanonicalInt(s) then ParseInt(s) else None
  }

  /** A canonical numeral is the rendering of its own value. */
  lemma {:induction false} CanonicalNatIsShown(s: string, n: nat)
    requires CanonicalNat(s) && ParseNat(s) == Some(n)
    ensures s == ShowNat(n)
  {
    if |s| == 1 {
      assert Digit(DigitValue(s[0])) == s[0];
    } else {
      var p := s[..|s| - 1];
      assert CanonicalNat(p);
      var m := ParseNat(p).value;
      CanonicalNatIsShown(p, m);
      assert p[0] == s[0] != '0';
      assert m != 0;
      assert n / 10 == m && n % 10 == DigitValue(s[|s| - 1]);
      assert Digit(DigitValue(s[|s| - 1])) == s[|s| - 1];
      assert s == p + [s[|s| - 1]];
    }
  }

  /** `ReadInt` inverts `ShowInt`. */
  lemma ReadShowInt(i: int)
    ensures ReadInt(ShowInt(i)) == Some(i)
  {
    ParseShowInt(i);
  }

  /** `ReadInt` accepts only renderings: two different strings never read as
      the same integer. */
  lemma ShowReadInt(s: string)
    requires ReadInt(s).Some?
    ensures s == ShowInt(ReadInt(s).value)
  {
    if s[0] == '-' {
      var n := ParseNat(s[1..]).value;
      CanonicalNatIsShown(s[1..], n);
      assert n != 0;
      assert s == "-" + s[1..];
    } else {
      CanonicalNatIsShown(s, ParseNat(s).value);
    }
  }
}
