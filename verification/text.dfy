/** Text operations the ticket core relies on from the Java library:
    case-insensitive string comparison (String.equalsIgnoreCase) and the
    decimal rendering of an int inside string concatenation.
    Case mapping is restricted to ASCII letters; every other character
    is its own upper and lower case. */
module Text {

  /** Upper case of an ASCII letter; any other character is unchanged. */
  function ToUpper(c: char): (u: char)
    ensures 'a' <= c <= 'z' ==> 'A' <= u <= 'Z'
    ensures !('a' <= c <= 'z') ==> u == c
  {
    if 'a' <= c <= 'z' then (c as int - 32) as char else c
  }

  /** Lower case of an ASCII letter; any other character is unchanged. */
  function ToLower(c: char): (l: char)
    ensures 'A' <= c <= 'Z' ==> 'a' <= l <= 'z'
    ensures !('A' <= c <= 'Z') ==> l == c
  {
    if 'A' <= c <= 'Z' then (c as int + 32) as char else c
  }

  /** The per-character test of String.regionMatches with ignoreCase set:
      equal, or equal after upper-casing, or equal after upper- then lower-casing. */
  predicate CharEqualsIgnoreCase(a: char, b: char)
    ensures CharEqualsIgnoreCase(a, b) <==> ToLower(a) == ToLower(b)
  {
    a == b || ToUpper(a) == ToUpper(b) || ToLower(ToUpper(a)) == ToLower(ToUpper(b))
  }

  /** String.equalsIgnoreCase on two non-null strings, compared front to
      back; it agrees with the position-by-position test of regionMatches. */
  predicate EqualsIgnoreCase(a: string, b: string)
    ensures EqualsIgnoreCase(a, b) <==>
              |a| == |b| && forall i :: 0 <= i < |a| ==> CharEqualsIgnoreCase(a[i], b[i])
  {
    |a| == |b| && (a == [] || (CharEqualsIgnoreCase(a[0], b[0]) && EqualsIgnoreCase(a[1..], b[1..])))
  }

  /** Every character of s lower-cased. */
  function LowerCase(s: string): (r: string)
    ensures |r| == |s|
  {
    seq(|s|, i requires 0 <= i < |s| => ToLower(s[i]))
  }

  /** equalsIgnoreCase holds exactly when both strings lower-case to the same text. */
  lemma {:induction false} EqualsIgnoreCaseIsLowerEq(a: string, b: string)
    ensures EqualsIgnoreCase(a, b) <==> LowerCase(a) == LowerCase(b)
  {
    if |a| == |b| && a != [] {
      EqualsIgnoreCaseIsLowerEq(a[1..], b[1..]);
      assert LowerCase(a)[1..] == LowerCase(a[1..]);
      assert LowerCase(b)[1..] == LowerCase(b[1..]);
      assert LowerCase(a) == [ToLower(a[0])] + LowerCase(a[1..]);
      assert LowerCase(b) == [ToLower(b[0])] + LowerCase(b[1..]);
    } else if |a| != |b| {
      assert |LowerCase(a)| != |LowerCase(b)|;
    }
  }

  /** Case-insensitive equality is an equivalence relation. */
  lemma EqualsIgnoreCaseIsEquivalence(a: string, b: string, c: string)
    ensures EqualsIgnoreCase(a, a)
    ensures EqualsIgnoreCase(a, b) ==> EqualsIgnoreCase(b, a)
    ensures EqualsIgnoreCase(a, b) && EqualsIgnoreCase(b, c) ==> EqualsIgnoreCase(a, c)
  {
    EqualsIgnoreCaseIsLowerEq(a, a);
    EqualsIgnoreCaseIsLowerEq(a, b);
    EqualsIgnoreCaseIsLowerEq(b, a);
    EqualsIgnoreCaseIsLowerEq(b, c);
    EqualsIgnoreCaseIsLowerEq(a, c);
  }

  predicate IsDigits(s: string)
  {
    forall i :: 0 <= i < |s| ==> '0' <= s[i] <= '9'
  }

  function DigitChar(d: nat): (c: char)
    requires d < 10
    ensures '0' <= c <= '9'
  {
    ('0' as int + d) as char
  }

  /** Decimal digits of n, most significant first, with no leading zero. */
  function NatToDecimal(n: nat): (s: string)
    ensures |s| >= 1 && IsDigits(s)
    ensures s[0] == '0' ==> n == 0
  {
    if n < 10 then [DigitChar(n)] else NatToDecimal(n / 10) + [DigitChar(n % 10)]
  }

  /** Integer.toString: a minus sign before the digits of a negative value. */
  function IntToDecimal(n: int): (s: string)
    ensures Numeral(s)
    ensures s[0] == '-' <==> n < 0
  {
    if n < 0 then "-" + NatToDecimal(-n) else NatToDecimal(n)
  }

  /** A numeral never contains a line break. */
  lemma IntToDecimalHasNoNewline(n: int)
    ensures '\n' !in IntToDecimal(n)
  {
    var d := IntToDecimal(n);
    forall i | 0 <= i < |d| ensures d[i] != '\n' {
      if n < 0 && i > 0 {
        assert d[1..][i - 1] == d[i];
      }
    }
  }

  /** Reference reading of a string of decimal digits. */
  function DecimalValue(s: string): nat
    requires IsDigits(s)
  {
    if s == [] then 0 else DecimalValue(s[..|s| - 1]) * 10 + (s[|s| - 1] as int - '0' as int)
  }

  /** Digits, optionally after a minus sign. */
  predicate Numeral(s: string)
  {
    |s| >= 1 && (if s[0] == '-' then IsDigits(s[1..]) else IsDigits(s))
  }

  /** Reference reading of an optionally signed decimal numeral. */
  function ParseInt(s: string): int
    requires Numeral(s)
  {
    if s[0] == '-' then -(DecimalValue(s[1..]) as int) else DecimalValue(s)
  }

  lemma {:induction false} NatToDecimalRoundTrip(n: nat)
    ensures DecimalValue(NatToDecimal(n)) == n
  {
    if n >= 10 {
      NatToDecimalRoundTrip(n / 10);
      var s := NatToDecimal(n);
      assert s[..|s| - 1] == NatToDecimal(n / 10);
    }
  }

  /** Reading back the rendering of any int gives that int, so the
      rendering never confuses two ids. */
  lemma IntToDecimalRoundTrip(n: int)
    ensures Numeral(IntToDecimal(n)) && ParseInt(IntToDecimal(n)) == n
  {
    if n < 0 {
      NatToDecimalRoundTrip(-n);
      assert IntToDecimal(n)[1..] == NatToDecimal(-n);
    } else {
      NatToDecimalRoundTrip(n);
    }
  }
}
