/**
 * Decimal text for integers: the `\d` class of a JavaScript regular
 * expression, `parseInt` on a run of digits, `Number.prototype.toString`
 * (and template-literal interpolation) on an integer, and `parseFloat`
 * restricted to strings of the form `-?\d+`.
 */
module Decimal {
  import opened Optional

  predicate IsDigit(ch: char) {
    '0' <= ch <= '9'
  }

  predicate AllDigits(s: string) {
    forall i :: 0 <= i < |s| ==> IsDigit(s[i])
  }

  /** A digit string without a superfluous leading zero, as `toString` writes it. */
  predicate Canonical(s: string) {
    |s| > 0 && AllDigits(s) && (|s| == 1 || s[0] != '0')
  }

  function DigitValue(ch: char): (d: nat)
    requires IsDigit(ch)
    ensures d < 10
  {
    ch as int - '0' as int
  }

  function DigitChar(d: nat): (ch: char)
    requires d < 10
    ensures IsDigit(ch) && DigitValue(ch) == d
  {
    ('0' as int + d) as char
  }

  /** `parseInt` of a string of decimal digits: zero exactly when every digit is `0`. */
  function ParseNat(s: string): (n: nat)
    requires AllDigits(s)
    ensures n == 0 <==> forall i :: 0 <= i < |s| ==> s[i] == '0'
  {
    if s == [] then 0
    else
      var init := s[..|s| - 1];
      assert forall i :: 0 <= i < |init| ==> init[i] == s[i];
      10 * ParseNat(init) + DigitValue(s[|s| - 1])
  }

  /** `toString` of a non-negative integer. */
  function NatToString(n: nat): (s: string)
    ensures Canonical(s)
  {
    if n < 10 then [DigitChar(n)]
    else
      var s := NatToString(n / 10) + [DigitChar(n % 10)];
      assert s[0] == NatToString(n / 10)[0];
      s
  }

  /** `toString` of an integer: a minus sign, then the digits of its magnitude. */
  function IntToString(n: int): (s: string)
    ensures n >= 0 ==> Canonical(s)
    ensures n < 0 ==> |s| > 1 && s[0] == '-' && Canonical(s[1..])
    ensures forall i :: 0 <= i < |s| ==> s[i] == '-' || IsDigit(s[i])
  {
    if n < 0 then "-" + NatToString(-n) else NatToString(n)
  }

  /**
   * `parseFloat` on the integer strings this model admits: an optional
   * minus sign and at least one digit, nothing else. Any other text is
   * `None` (outside the model, not a claim that `parseFloat` fails).
   */
  function ParseFloat(s: string): (r: Option<int>)
    ensures r.Some? ==> |s| > 0 && (r.value < 0 ==> s[0] == '-') && (s[0] != '-' ==> r.value >= 0)
  {
    if |s| > 1 && s[0] == '-' && AllDigits(s[1..]) then Some(-(ParseNat(s[1..]) as int))
    else if |s| > 0 && AllDigits(s) then Some(ParseNat(s))
    else None
  }

  lemma {:induction false} ParseNatToString(n: nat)
    ensures ParseNat(NatToString(n)) == n
  {
    if n >= 10 {
      var s := NatToString(n);
      assert s[..|s| - 1] == NatToString(n / 10);
      ParseNatToString(n / 10);
    }
  }

  /** Reading back what `toString` wrote gives the number that was written. */
  lemma ParseFloatToString(n: int)
    ensures ParseFloat(IntToString(n)) == Some(n)
  {
    var s := IntToString(n);
    if n < 0 {
      assert s[1..] == NatToString(-n);
      ParseNatToString(-n);
    } else {
      ParseNatToString(n);
    }
  }

  /** A canonical digit string is what `toString` writes for its value. */
  lemma {:induction false} NatToStringParse(s: string)
    requires Canonical(s)
    ensures NatToString(ParseNat(s)) == s
  {
    if |s| > 1 {
      var p := s[..|s| - 1];
      assert Canonical(p);
      NatToStringParse(p);
      ParsePrefixPositive(p);
      var n := ParseNat(s);
      assert n / 10 == ParseNat(p) && n % 10 == DigitValue(s[|s| - 1]);
      assert NatToString(n) == NatToString(ParseNat(p)) + [DigitChar(DigitValue(s[|s| - 1]))];
    }
  }

  /** A canonical digit string longer than one digit has a positive value. */
  lemma {:induction false} ParsePrefixPositive(s: string)
    requires Canonical(s)
    ensures |s| > 1 ==> ParseNat(s) > 0
    ensures s[0] != '0' ==> ParseNat(s) > 0
  {
    if |s| > 1 {
      ParsePrefixPositive(s[..|s| - 1]);
    }
  }

  /** A digit string with a leading zero is never what `toString` writes. */
  lemma NotCanonicalNeverWritten(s: string, n: int)
    requires |s| > 1 && AllDigits(s) && s[0] == '0'
    ensures IntToString(n) != s
  {
  }
}
