/**
 * The labels that location codes are made of: letters in bijective base 26, or
 * padded decimals counted from one.
 */
module LocationCodes {
  import Decimal

  function Letter(d: nat): char
    requires d < 26
  {
    (65 + d) as char
  }

  predicate IsLetter(c: char) { 'A' <= c <= 'Z' }

  predicate AllLetters(s: string) { forall i | 0 <= i < |s| :: IsLetter(s[i]) }

  /** A, B, …, Z, AA, AB, … */
  function AlphaLabel(n: nat): string {
    (if n < 26 then [] else AlphaLabel(n / 26 - 1)) + [Letter(n % 26)]
  }

  /** Reads a letter label back. */
  function AlphaValue(s: string): nat
    requires s != [] && AllLetters(s)
  {
    (if |s| == 1 then 0 else (AlphaValue(s[..|s| - 1]) + 1) * 26) + (s[|s| - 1] as int - 65)
  }

  method Alpha(index: nat) returns (s: string)
    ensures s == AlphaLabel(index)
  {
    var n: int := index;
    s := "";
    while true
      invariant n >= 0 && AlphaLabel(index) == AlphaLabel(n) + s
      decreases n
    {
      s := [Letter(n % 26)] + s;
      n := n / 26 - 1;
      if n < 0 { break; }
    }
  }

  lemma {:induction false} AlphaRoundTrip(n: nat)
    ensures AlphaLabel(n) != [] && AllLetters(AlphaLabel(n))
    ensures AlphaValue(AlphaLabel(n)) == n
  {
    var s := AlphaLabel(n);
    if n >= 26 {
      AlphaRoundTrip(n / 26 - 1);
      assert s[..|s| - 1] == AlphaLabel(n / 26 - 1);
    }
  }

  /** Appending a letter to the label of v. */
  lemma {:induction false} NextLetter(v: nat, d: nat)
    requires d < 26
    ensures AlphaLabel((v + 1) * 26 + d) == AlphaLabel(v) + [Letter(d)]
  {
    var n := (v + 1) * 26 + d;
    assert n / 26 == v + 1 && n % 26 == d;
  }

  /** Every nonempty string of letters is the label of exactly one number. */
  lemma {:induction false} AlphaOnto(s: string)
    requires s != [] && AllLetters(s)
    ensures AlphaLabel(AlphaValue(s)) == s
  {
    if |s| > 1 { AlphaOnto(s[..|s| - 1]); }
    LastLetter(s);
  }

  /** A label ends with the letter of its remainder. */
  lemma {:induction false} LastLetter(s: string)
    requires s != [] && AllLetters(s)
    requires |s| > 1 ==> AlphaLabel(AlphaValue(s[..|s| - 1])) == s[..|s| - 1]
    ensures AlphaLabel(AlphaValue(s)) == s
  {
    var front, last := s[..|s| - 1], s[|s| - 1];
    var d := last as int - 65;
    assert IsLetter(last) && last == Letter(d) && s == front + [last];
    if |s| > 1 { NextLetter(AlphaValue(front), d); }
  }

  lemma {:induction false} LetterIs(d: nat)
    requires d < 26
    ensures Letter(d) == "ABCDEFGHIJKLMNOPQRSTUVWXYZ"[d]
  {
  }

  /** Shorter, or of the same length and with the smaller letter at the first difference. */
  ghost predicate Before(s: string, t: string) {
    || |s| < |t|
    || (|s| == |t| && exists k :: 0 <= k < |s| && s[..k] == t[..k] && s[k] < t[k])
  }

  lemma {:induction false} BeforeByLast(p: string, c: char, d: char)
    requires c < d
    ensures Before(p + [c], p + [d])
  {
    assert (p + [c])[..|p|] == (p + [d])[..|p|] && (p + [c])[|p|] < (p + [d])[|p|];
  }

  lemma {:induction false} BeforeByFront(p: string, q: string, c: char, d: char)
    requires Before(p, q)
    ensures Before(p + [c], q + [d])
  {
    if |p| == |q| {
      var k :| 0 <= k < |p| && p[..k] == q[..k] && p[k] < q[k];
      assert (p + [c])[..k] == (q + [d])[..k] && (p + [c])[k] < (q + [d])[k];
    }
  }

  /** The first labels are the letters themselves, and longer labels come after shorter ones, in the order of a book. */
  lemma {:induction false} AlphaInOrder(i: nat, j: nat)
    requires i < j
    ensures i < 26 ==> AlphaLabel(i) == ["ABCDEFGHIJKLMNOPQRSTUVWXYZ"[i]]
    ensures Before(AlphaLabel(i), AlphaLabel(j))
    decreases j
  {
    if i < 26 { LetterIs(i); }
    if i / 26 == j / 26 {
      BeforeByLast(if i < 26 then [] else AlphaLabel(i / 26 - 1), Letter(i % 26), Letter(j % 26));
    } else if i < 26 {
      AlphaRoundTrip(j / 26 - 1);
    } else {
      AlphaInOrder(i / 26 - 1, j / 26 - 1);
      BeforeByFront(AlphaLabel(i / 26 - 1), AlphaLabel(j / 26 - 1), Letter(i % 26), Letter(j % 26));
    }
  }

  function Label(index: nat, alpha: bool): string {
    if alpha then AlphaLabel(index) else Decimal.PadStart(Decimal.ToString(index + 1), 2)
  }

  /** A number label is the position counted from one, in decimal digits, with a zero in front of a single digit. */
  lemma {:induction false} NumberLabelIs(index: nat)
    ensures var s := Label(index, false);
      Decimal.AllDigits(s) && Decimal.Value(s) == index + 1 && |s| >= 2 && (|s| > 2 ==> s[0] != '0')
  {
    Decimal.ValueOfToString(index + 1);
    Decimal.ValueOfPadded(Decimal.ToString(index + 1), 2);
    Decimal.NoLeadingZero(index + 1);
  }

  /** Capital letters and digits only: no dash, no space, no angle bracket. */
  predicate IsLabel(s: string) {
    s != [] && forall i | 0 <= i < |s| :: IsLetter(s[i]) || Decimal.IsDigit(s[i])
  }

  lemma {:induction false} LabelIsLabel(index: nat, alpha: bool)
    ensures IsLabel(Label(index, alpha))
  {
    AlphaRoundTrip(index);
    Decimal.ValueOfToString(index + 1);
    Decimal.ValueOfPadded(Decimal.ToString(index + 1), 2);
  }

  /** Labels tell their positions apart, and letter labels never meet number labels. */
  lemma {:induction false} LabelInjective(i: nat, a: bool, j: nat, b: bool)
    requires Label(i, a) == Label(j, b)
    ensures i == j && a == b
  {
    AlphaRoundTrip(i);
    AlphaRoundTrip(j);
    Decimal.ValueOfToString(i + 1);
    Decimal.ValueOfToString(j + 1);
    Decimal.ValueOfPadded(Decimal.ToString(i + 1), 2);
    Decimal.ValueOfPadded(Decimal.ToString(j + 1), 2);
    assert IsLetter(Label(i, a)[0]) <==> a;
    assert IsLetter(Label(j, b)[0]) <==> b;
  }

  // ---------- codes ----------

  function ChildCode(parent: string, tag: string): string { parent + "-" + tag }

  /** A code determines its parent's code and its own label. */
  lemma {:induction false} ChildCodeInjective(p: string, l: string, q: string, m: string)
    requires IsLabel(l) && IsLabel(m) && ChildCode(p, l) == ChildCode(q, m)
    ensures p == q && l == m
  {
    var s := ChildCode(p, l);
    assert s[|p|] == '-' && s[|q|] == '-';
    assert forall k | |p| < k < |s| :: s[k] == l[k - |p| - 1];
    assert forall k | |q| < k < |s| :: s[k] == m[k - |q| - 1];
    assert p == s[..|p|] && q == s[..|q|];
    assert l == s[|p| + 1..] && m == s[|q| + 1..];
  }

  function Dashes(s: string): nat {
    if s == [] then 0 else Dashes(s[..|s| - 1]) + (if s[|s| - 1] == '-' then 1 else 0)
  }

  lemma {:induction false} DashesOfLabel(s: string, tag: string)
    requires forall i | 0 <= i < |tag| :: tag[i] != '-'
    ensures Dashes(s + tag) == Dashes(s)
  {
    if tag == [] {
      assert s + tag == s;
    } else {
      var front := tag[..|tag| - 1];
      assert (s + tag)[..|s + tag| - 1] == s + front;
      DashesOfLabel(s, front);
    }
  }

  /** Each level of codes has one dash more than the one above. */
  lemma {:induction false} DashesOfChild(parent: string, tag: string)
    requires IsLabel(tag)
    ensures Dashes(ChildCode(parent, tag)) == Dashes(parent) + 1
  {
    DashesOfLabel(parent + "-", tag);
    assert (parent + "-")[..|parent|] == parent;
  }
}
