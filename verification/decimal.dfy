/** Python's `str()` on integers, and the parser that undoes it.
    The script builds every address, interface name and shell command by
    concatenating `str(n)` / `'{}'.format(n)` of integers. */
module Decimal {
  import opened Wrappers
  import Text

  predicate IsDigit(c: char) {
    '0' <= c <= '9'
  }

  /** Every character of `s` is a decimal digit. */
  predicate AllDigits(s: string) {
    forall k :: 0 <= k < |s| ==> IsDigit(s[k])
  }

  /** The form `str(n)` produces for `n >= 0`: non-empty, digits only, no leading zero. */
  predicate Canonical(s: string) {
    |s| >= 1 && AllDigits(s) && (s[0] == '0' ==> |s| == 1)
  }

  function DigitChar(d: nat): (c: char)
    requires d < 10
    ensures IsDigit(c)
  {
    ('0' as int + d) as char
  }

  function DigitValue(c: char): (d: nat)
    requires IsDigit(c)
    ensures d < 10
    ensures DigitChar(d) == c
  {
    c as int - '0' as int
  }

  /** `str(n)` for a non-negative integer. */
  function NatToString(n: nat): (s: string)
    ensures Canonical(s)
    ensures n < 10 <==> |s| == 1
  {
    if n < 10 then [DigitChar(n)]
    else NatToString(n / 10) + [DigitChar(n % 10)]
  }

  /** `str(n)` for any integer: a minus sign in front of the magnitude when negative. */
  function IntToString(n: int): (s: string)
    ensures |s| >= 1
    ensures n >= 0 ==> Canonical(s)
    ensures n < 0 ==> s[0] == '-' && Canonical(s[1..]) && s[1..] != "0"
  {
    if n < 0 then "-" + NatToString(-n) else NatToString(n)
  }

  /** The number a digit string denotes, most significant digit first. */
  function DigitsValue(s: string): (v: nat)
    requires AllDigits(s)
  {
    if |s| == 0 then 0
    else DigitsValue(s[..|s| - 1]) * 10 + DigitValue(s[|s| - 1])
  }

  /** Reads back a non-negative decimal in the form `str` writes. */
  function ParseNat(s: string): (r: Option<nat>) {
    if Canonical(s) then Some(DigitsValue(s)) else None
  }

  /** Reads back any integer in the form `str` writes. */
  function ParseInt(s: string): (r: Option<int>) {
    if |s| >= 2 && s[0] == '-' && s[1..] != "0" then
      match ParseNat(s[1..])
      case Some(m) => Some(-(m as int))
      case None => None
    else
      match ParseNat(s)
      case Some(m) => Some(m)
      case None => None
  }

  /** The digits `str` writes for a natural denote that natural. */
  lemma {:induction false} ValueOfNatToString(n: nat)
    ensures DigitsValue(NatToString(n)) == n
  {
    var s := NatToString(n);
    if n >= 10 {
      ValueOfNatToString(n / 10);
      assert s[..|s| - 1] == NatToString(n / 10);
    }
  }

  /** The digits `str` writes for any integer denote its magnitude, and the
      sign is there exactly when the integer is negative. */
  lemma IntToStringValue(n: int)
    ensures var s := IntToString(n);
      && (n >= 0 ==> DigitsValue(s) == n)
      && (n < 0 ==> s[0] == '-' && DigitsValue(s[1..]) == -n)
  {
    if n < 0 {
      ValueOfNatToString(-n);
      assert IntToString(n)[1..] == NatToString(-n);
    } else {
      ValueOfNatToString(n);
    }
  }

  /** A canonical string with a non-zero leading digit denotes a positive number. */
  lemma {:induction false} LeadingDigitBound(s: string)
    requires AllDigits(s) && |s| >= 1
    ensures DigitsValue(s) >= DigitValue(s[0])
  {
    if |s| > 1 {
      var p := s[..|s| - 1];
      assert p[0] == s[0];
      LeadingDigitBound(p);
    }
  }

  lemma {:induction false} NatToStringOfValue(s: string)
    requires Canonical(s)
    ensures NatToString(DigitsValue(s)) == s
  {
    if |s| > 1 {
      var p := s[..|s| - 1];
      assert p[0] == s[0];
      LeadingDigitBound(p);
      assert Canonical(p);
      NatToStringOfValue(p);
      var v := DigitsValue(s);
      assert v / 10 == DigitsValue(p) && v % 10 == DigitValue(s[|s| - 1]);
      assert s == p + [s[|s| - 1]];
    }
  }

  /** `ParseNat` inverts `str` on naturals, in both directions. */
  lemma ParseNatRoundTrip(n: nat, s: string)
    ensures ParseNat(NatToString(n)) == Some(n)
    ensures ParseNat(s) == Some(n) ==> NatToString(n) == s
  {
    ValueOfNatToString(n);
    if ParseNat(s) == Some(n) {
      NatToStringOfValue(s);
    }
  }

  lemma ParseIntOfString(n: int)
    ensures ParseInt(IntToString(n)) == Some(n)
  {
    var t := IntToString(n);
    if n < 0 {
      var u := NatToString(-n);
      assert t[1..] == u;
      ParseNatRoundTrip(-n, "");
      assert u != "0" by {
        assert DigitsValue("0") == 0;
      }
      assert ParseInt(t) == Some(-(-n as int));
    } else {
      ParseNatRoundTrip(n, "");
      assert IsDigit(t[0]);
      assert ParseInt(t) == Some(n);
    }
  }

  lemma StringOfParseInt(n: int, s: string)
    requires ParseInt(s) == Some(n)
    ensures IntToString(n) == s
  {
    if |s| >= 2 && s[0] == '-' && s[1..] != "0" {
      assert ParseNat(s[1..]).Some?;
      var m := ParseNat(s[1..]).value;
      assert n == -(m as int);
      ParseNatRoundTrip(m, s[1..]);
      assert s == "-" + s[1..];
    } else {
      assert ParseNat(s) == Some(n as nat);
      ParseNatRoundTrip(n, s);
    }
  }

  /** `ParseInt` inverts `str` on integers, in both directions. */
  lemma ParseIntRoundTrip(n: int, s: string)
    ensures ParseInt(IntToString(n)) == Some(n)
    ensures ParseInt(s) == Some(n) ==> IntToString(n) == s
  {
    ParseIntOfString(n);
    if ParseInt(s) == Some(n) {
      StringOfParseInt(n, s);
    }
  }

  /** Distinct integers print differently. */
  lemma IntToStringInjective(a: int, b: int)
    ensures IntToString(a) == IntToString(b) <==> a == b
  {
    ParseIntRoundTrip(a, "");
    ParseIntRoundTrip(b, "");
  }

  lemma NatToStringInjective(a: nat, b: nat)
    ensures NatToString(a) == NatToString(b) <==> a == b
  {
    ParseNatRoundTrip(a, "");
    ParseNatRoundTrip(b, "");
  }

  /** A printed integer holds only digits and possibly a leading minus sign,
      so it never contains any other character. */
  lemma IntToStringFree(n: int, c: char)
    requires !IsDigit(c) && c != '-'
    ensures Text.Free(IntToString(n), c)
  {
    var s := IntToString(n);
    if n < 0 {
      forall k | 0 <= k < |s| ensures s[k] != c {
        if k > 0 { assert s[k] == s[1..][k - 1]; }
      }
    }
  }

  lemma NatToStringFree(n: nat, c: char)
    requires !IsDigit(c)
    ensures Text.Free(NatToString(n), c)
  {
  }
}
