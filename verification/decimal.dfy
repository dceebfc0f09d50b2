/** Decimal numerals and their padding, as `String(n).padStart(width, '0')` writes them. */
module Decimal {

  function Digit(d: nat): char
    requires d < 10
  {
    (48 + d) as char
  }

  predicate IsDigit(c: char) { '0' <= c <= '9' }

  function ToString(n: nat): string {
    if n < 10 then [Digit(n)] else ToString(n / 10) + [Digit(n % 10)]
  }

  function PadStart(s: string, width: nat): string {
    if |s| >= width then s else ['0'] + PadStart(s, width - 1)
  }

  predicate AllDigits(s: string) { forall i | 0 <= i < |s| :: IsDigit(s[i]) }

  /** Reads a numeral back. */
  function Value(s: string): nat
    requires AllDigits(s)
  {
    if s == [] then 0 else Value(s[..|s| - 1]) * 10 + (s[|s| - 1] as int - 48)
  }

  function Pow10(k: nat): nat { if k == 0 then 1 else 10 * Pow10(k - 1) }

  lemma {:induction false} ValueOfToString(n: nat)
    ensures ToString(n) != [] && AllDigits(ToString(n))
    ensures Value(ToString(n)) == n
  {
    if n >= 10 {
      ValueOfToString(n / 10);
      var s := ToString(n);
      assert s[..|s| - 1] == ToString(n / 10);
      assert n / 10 * 10 + n % 10 == n;
    } else {
      assert ToString(n)[..0] == [];
    }
  }

  lemma {:induction false} NoLeadingZero(n: nat)
    requires n > 0
    ensures ToString(n) != [] && ToString(n)[0] != '0'
  {
    if n >= 10 { NoLeadingZero(n / 10); }
  }

  lemma {:induction false} ValueOfZero(s: string)
    requires AllDigits(s)
    ensures AllDigits(['0'] + s) && Value(['0'] + s) == Value(s)
  {
    var t := ['0'] + s;
    if s == [] {
      assert t[..0] == [] && t[0] == '0';
    } else {
      ValueOfZero(s[..|s| - 1]);
      assert t[..|t| - 1] == ['0'] + s[..|s| - 1];
    }
  }

  /** Padding changes neither the digits' value nor goes beyond the width asked for. */
  lemma {:induction false} ValueOfPadded(s: string, width: nat)
    requires AllDigits(s)
    ensures AllDigits(PadStart(s, width)) && Value(PadStart(s, width)) == Value(s)
    ensures |PadStart(s, width)| == if |s| >= width then |s| else width
    decreases width
  {
    if |s| < width {
      PadStartLength(s, width - 1);
      ValueOfPadded(s, width - 1);
      ValueOfZero(PadStart(s, width - 1));
    }
  }

  lemma {:induction false} PadStartLength(s: string, width: nat)
    ensures |PadStart(s, width)| == if |s| >= width then |s| else width
    decreases width
  {
    if |s| < width { PadStartLength(s, width - 1); }
  }

  /** A number has at most k digits exactly when it is below 10^k. */
  lemma {:induction false} LengthBound(n: nat, k: nat)
    requires k >= 1
    ensures |ToString(n)| <= k <==> n < Pow10(k)
  {
    if k == 1 {
      assert Pow10(1) == 10 * Pow10(0) == 10;
      if n >= 10 { ValueOfToString(n / 10); }
    } else if n >= 10 {
      LengthBound(n / 10, k - 1);
      assert n / 10 < Pow10(k - 1) <==> n < 10 * Pow10(k - 1);
    } else {
      Pow10Positive(k - 1);
    }
  }

  lemma {:induction false} Pow10Positive(k: nat)
    ensures Pow10(k) >= 1
  {
    if k > 0 { Pow10Positive(k - 1); }
  }
}
