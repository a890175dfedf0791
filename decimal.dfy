/**
 * Decimal renderings of integers as JavaScript produces them with a template literal
 * (`${n}`), and the canonical array-index reading JavaScript applies to a property name.
 */
module Decimal {
  import opened Wrappers

  predicate IsDigit(c: char) {
    '0' <= c <= '9'
  }

  predicate AllDigits(s: string) {
    forall i :: 0 <= i < |s| ==> IsDigit(s[i])
  }

  function DigitChar(d: nat): (c: char)
    requires d < 10
    ensures IsDigit(c)
  {
    ('0' as int + d) as char
  }

  function DigitValue(c: char): (d: nat)
    requires IsDigit(c)
    ensures d < 10 && DigitChar(d) == c
  {
    c as int - '0' as int
  }

  /** Shortest decimal rendering of a natural number: no sign, no leading zero. */
  function NatToString(n: nat): (s: string)
    ensures |s| >= 1 && AllDigits(s)
    ensures s[0] == '0' ==> n == 0 && s == "0"
  {
    if n < 10 then [DigitChar(n)]
    else NatToString(n / 10) + [DigitChar(n % 10)]
  }

  /** `${i}` for an integer `i`. */
  function IntToString(i: int): (s: string)
    ensures |s| >= 1 && (s[0] == '-' <==> i < 0)
    ensures ':' !in s
  {
    if i < 0 then "-" + NatToString(-i) else NatToString(i)
  }

  function DigitsValue(s: string): nat
    requires AllDigits(s)
  {
    if s == [] then 0 else DigitsValue(s[..|s| - 1]) * 10 + DigitValue(s[|s| - 1])
  }

  /** A canonical index: decimal digits without a leading zero (the string "0" included). */
  predicate IsCanonicalIndex(t: string) {
    |t| >= 1 && AllDigits(t) && (t[0] == '0' ==> |t| == 1)
  }

  /**
   * The array index a property name denotes: `a["2"]` is element 2, while `a["02"]`,
   * `a["-"]` or `a[""]` name no element at all.
   */
  function ParseIndex(t: string): (r: Option<nat>)
    ensures r.Some? <==> IsCanonicalIndex(t)
    ensures r.Some? ==> NatToString(r.value) == t
  {
    if IsCanonicalIndex(t) then
      CanonicalRoundTrip(t);
      Some(DigitsValue(t))
    else None
  }

  lemma {:induction false} LeadingDigitPositive(s: string)
    requires |s| >= 1 && AllDigits(s) && s[0] != '0'
    ensures DigitsValue(s) >= 1
  {
    if |s| > 1 {
      LeadingDigitPositive(s[..|s| - 1]);
    }
  }

  lemma {:induction false} CanonicalRoundTrip(t: string)
    requires IsCanonicalIndex(t)
    ensures NatToString(DigitsValue(t)) == t
    decreases |t|
  {
    var n := DigitsValue(t);
    var init := t[..|t| - 1];
    var d := DigitValue(t[|t| - 1]);
    if |t| == 1 {
      assert init == [];
      assert n == d;
      assert [t[0]] == t;
    } else {
      assert init[0] == t[0];
      LeadingDigitPositive(init);
      CanonicalRoundTrip(init);
      assert n / 10 == DigitsValue(init) && n % 10 == d;
      assert init + [t[|t| - 1]] == t;
    }
  }

  /** Every natural number is read back from its rendering. */
  lemma {:induction false} ParseNatToString(n: nat)
    ensures ParseIndex(NatToString(n)) == Some(n)
    decreases n
  {
    var s := NatToString(n);
    if n < 10 {
      assert s[..|s| - 1] == [];
    } else {
      ParseNatToString(n / 10);
      assert s[..|s| - 1] == NatToString(n / 10);
      assert DigitsValue(s) == DigitsValue(NatToString(n / 10)) * 10 + n % 10;
    }
  }

  /** Distinct integers have distinct renderings. */
  lemma IntToStringInjective(a: int, b: int)
    requires IntToString(a) == IntToString(b)
    ensures a == b
  {
    assert a < 0 <==> b < 0;
    if a < 0 {
      assert NatToString(-a) == IntToString(a)[1..];
      ParseNatToString(-a);
      ParseNatToString(-b);
    } else {
      ParseNatToString(a);
      ParseNatToString(b);
    }
  }
}
