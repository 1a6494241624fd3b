/**
 * `parseInt(s, 10)` as ECMA-262 defines it ("parseInt ( string, radix )"): skip leading white
 * space, read an optional sign, then the longest run of decimal digits; no digit at all is NaN.
 * The result is an exact integer (`None` stands for NaN).
 */
module JsParseInt {
  import opened Wrappers
  import opened Text

  predicate IsDigit(c: char)
  {
    '0' <= c <= '9'
  }

  predicate AllDigits(s: string)
  {
    forall i :: 0 <= i < |s| ==> IsDigit(s[i])
  }

  /** The longest prefix of `s` made of decimal digits. */
  function LeadingDigits(s: string): (d: string)
    ensures |d| <= |s| && d == s[..|d|] && AllDigits(d)
    ensures |d| < |s| ==> !IsDigit(s[|d|])
  {
    if s != [] && IsDigit(s[0]) then [s[0]] + LeadingDigits(s[1..]) else []
  }

  /** The number a string of decimal digits denotes. */
  function DigitsValue(d: string): nat
    requires AllDigits(d)
  {
    if d == [] then 0 else 10 * DigitsValue(d[..|d| - 1]) + (d[|d| - 1] as int - '0' as int)
  }

  /** `parseInt(s, 10)`; `None` is NaN, which it is exactly when, after the white space and the
      sign, no digit follows. */
  function ParseInt(s: string): (r: Option<int>)
    ensures var rest := TrimStart(s);
      var unsigned := if rest != [] && (rest[0] == '-' || rest[0] == '+') then rest[1..] else rest;
      r.None? <==> unsigned == [] || !IsDigit(unsigned[0])
  {
    ParseSigned(TrimStart(s))
  }

  /** The sign and digits that follow the leading white space. */
  function ParseSigned(rest: string): Option<int>
  {
    var negative := rest != [] && rest[0] == '-';
    var unsigned := if rest != [] && (rest[0] == '-' || rest[0] == '+') then rest[1..] else rest;
    var digits := LeadingDigits(unsigned);
    if digits == [] then None
    else
      var value: int := DigitsValue(digits);
      Some(if negative then -value else value)
  }

  /** The decimal digits of a natural number, most significant first, without leading zeros. */
  function NatDigits(n: nat): (d: string)
    ensures d != [] && AllDigits(d)
  {
    if n < 10 then [('0' as int + n) as char]
    else NatDigits(n / 10) + [('0' as int + n % 10) as char]
  }

  /** The plain decimal text of an integer, as the widget sends `id` and `auth_date`: a minus
      sign for negatives, then the digits. (JavaScript's `String(n)` gives this only below
      10^21 in magnitude; from there on it switches to exponent form.) */
  function DecimalString(n: int): string
  {
    if n < 0 then "-" + NatDigits(-n) else NatDigits(n)
  }

  lemma {:induction false} NatDigitsValue(n: nat)
    ensures DigitsValue(NatDigits(n)) == n
  {
    var d := NatDigits(n);
    if n >= 10 {
      NatDigitsValue(n / 10);
      assert d[..|d| - 1] == NatDigits(n / 10);
    } else {
      assert d[..0] == [];
    }
  }

  lemma {:induction false} LeadingDigitsOfDigits(s: string)
    requires AllDigits(s)
    ensures LeadingDigits(s) == s
  {
    if s != [] {
      LeadingDigitsOfDigits(s[1..]);
    }
  }

  /** `parseInt` reads back the plain decimal text of every integer. */
  lemma ParseDecimalString(n: int)
    ensures ParseInt(DecimalString(n)) == Some(n)
  {
    var m := if n < 0 then -n else n;
    var d := NatDigits(m);
    NatDigitsValue(m);
    ParseSignedDigits(d);
    var text := DecimalString(n);
    NoLeadingWhiteSpace(text);
  }

  lemma ParseSignedDigits(d: string)
    requires d != [] && AllDigits(d)
    ensures ParseSigned(d) == Some(DigitsValue(d))
    ensures ParseSigned("-" + d) == Some(-(DigitsValue(d) as int))
  {
    LeadingDigitsOfDigits(d);
    assert d[0] != '-' && d[0] != '+';
    var neg := "-" + d;
    assert neg[0] == '-' && neg[1..] == d;
  }

  lemma NoLeadingWhiteSpace(text: string)
    requires text != [] && (text[0] == '-' || IsDigit(text[0]))
    ensures TrimStart(text) == text
  {
    assert !IsWhiteSpace(text[0]);
  }

  /** Leading white space does not change the result. */
  lemma {:induction false} ParseIntSkipsWhiteSpace(ws: string, s: string)
    requires forall i :: 0 <= i < |ws| ==> IsWhiteSpace(ws[i])
    ensures ParseInt(ws + s) == ParseInt(s)
  {
    TrimStartSkips(ws, s);
  }

  lemma {:induction false} TrimStartSkips(ws: string, s: string)
    requires forall i :: 0 <= i < |ws| ==> IsWhiteSpace(ws[i])
    ensures TrimStart(ws + s) == TrimStart(s)
  {
    if ws != [] {
      assert (ws + s)[1..] == ws[1..] + s;
      TrimStartSkips(ws[1..], s);
    } else {
      assert ws + s == s;
    }
  }

  /** Whatever follows the digits is ignored: `parseInt("12px", 10)` is 12. */
  lemma {:induction false} ParseIntIgnoresTrailer(digits: string, trailer: string)
    requires digits != [] && AllDigits(digits)
    requires trailer == [] || !IsDigit(trailer[0])
    ensures ParseInt(digits + trailer) == Some(DigitsValue(digits))
  {
    LeadingDigitsOfPrefix(digits, trailer);
  }

  lemma {:induction false} LeadingDigitsOfPrefix(digits: string, trailer: string)
    requires AllDigits(digits)
    requires trailer == [] || !IsDigit(trailer[0])
    ensures LeadingDigits(digits + trailer) == digits
  {
    if digits != [] {
      assert (digits + trailer)[1..] == digits[1..] + trailer;
      LeadingDigitsOfPrefix(digits[1..], trailer);
    } else {
      assert digits + trailer == trailer;
    }
  }
}
