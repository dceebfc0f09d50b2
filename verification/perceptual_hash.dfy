/** The average hash of a grey image, and the Hamming distance between two hashes. */
module PerceptualHash {
  import opened Wrappers
  import opened Arithmetic

  // ---------- the hash ----------

  function Sum(pixels: seq<nat>): nat {
    if pixels == [] then 0 else Sum(pixels[..|pixels| - 1]) + pixels[|pixels| - 1]
  }

  /** At or above the mean, compared without dividing. */
  predicate Bright(pixels: seq<nat>, i: nat)
    requires i < |pixels|
  {
    pixels[i] * |pixels| >= Sum(pixels)
  }

  function BitString(pixels: seq<nat>): string {
    seq(|pixels|, i requires 0 <= i < |pixels| => if Bright(pixels, i) then '1' else '0')
  }

  predicate IsBits(s: string) { forall i | 0 <= i < |s| :: s[i] == '0' || s[i] == '1' }

  function ParseBinary(bits: string): nat {
    if bits == [] then 0 else 2 * ParseBinary(bits[..|bits| - 1]) + (if bits[|bits| - 1] == '1' then 1 else 0)
  }

  function HexDigit(v: nat): char
    requires v < 16
  {
    if v < 10 then (48 + v) as char else (87 + v) as char
  }

  /** A character that is no hex digit counts as zero. */
  function HexValue(c: char): (v: nat)
    ensures v < 16
  {
    if '0' <= c <= '9' then c as int - 48
    else if 'a' <= c <= 'f' then c as int - 87
    else if 'A' <= c <= 'F' then c as int - 55
    else 0
  }

  lemma {:induction false} ParseBound(bits: string)
    requires |bits| <= 4
    ensures ParseBinary(bits) < 16
  {
    ParseBelowPower(bits);
  }

  function Pow2(n: nat): (p: nat)
    ensures p > 0
  {
    if n == 0 then 1 else 2 * Pow2(n - 1)
  }

  lemma {:induction false} ParseBelowPower(bits: string)
    ensures ParseBinary(bits) < Pow2(|bits|)
  {
    if bits != [] { ParseBelowPower(bits[..|bits| - 1]); }
  }

  function Group(bits: string): string { if |bits| < 4 then bits else bits[..4] }

  function Rest(bits: string): string { if |bits| < 4 then [] else bits[4..] }

  function Nibble(bits: string): char {
    ParseBound(Group(bits));
    HexDigit(ParseBinary(Group(bits)))
  }

  function HexOf(bits: string): string
    decreases |bits|
  {
    if bits == [] then [] else [Nibble(bits)] + HexOf(Rest(bits))
  }

  function From(bits: string, i: nat): string { if i <= |bits| then bits[i..] else [] }

  lemma {:induction false} NextDigit(bits: string, i: nat)
    requires i < |bits|
    ensures HexOf(From(bits, i)) == [Nibble(bits[i..])] + HexOf(From(bits, i + 4))
  {
    assert Rest(bits[i..]) == From(bits, i + 4);
  }

  lemma {:induction false} NextHex(hash: string, hex: string, i: nat)
    requires i < |hash| && HexOf(hash) == hex + HexOf(From(hash, i))
    ensures HexOf(hash) == hex + [Nibble(hash[i..])] + HexOf(From(hash, i + 4))
  {
    NextDigit(hash, i);
    Associative(hex, [Nibble(hash[i..])], HexOf(From(hash, i + 4)));
  }

  lemma {:induction false} Associative(a: string, b: string, c: string)
    ensures a + (b + c) == a + b + c
  {
  }

  lemma {:induction false} HexAtEnds(hash: string, i: nat)
    ensures From(hash, 0) == hash
    ensures i >= |hash| ==> HexOf(From(hash, i)) == []
  {
  }

  /** The conversion loop: four bits to a hex digit, the last group possibly shorter. */
  method ToHex(hash: string) returns (hex: string)
    ensures hex == HexOf(hash)
  {
    hex := "";
    var i := 0;
    HexAtEnds(hash, 0);
    while i < |hash|
      invariant i >= 0
      invariant HexOf(hash) == hex + HexOf(From(hash, i))
    {
      NextHex(hash, hex, i);
      hex := hex + [Nibble(hash[i..])];
      i := i + 4;
    }
    HexAtEnds(hash, i);
  }

  method ComputePerceptualHash(pixels: seq<nat>) returns (hex: string)
    ensures hex == HexOf(BitString(pixels))
  {
    var sum := 0;
    for i := 0 to |pixels|
      invariant sum == Sum(pixels[..i])
    {
      assert pixels[..i + 1][..i] == pixels[..i];
      sum := sum + pixels[i];
    }
    assert pixels[..|pixels|] == pixels;
    var hash := "";
    for i := 0 to |pixels|
      invariant hash == BitString(pixels)[..i]
    {
      hash := hash + (if pixels[i] * |pixels| >= sum then "1" else "0");
    }
    assert hash == BitString(pixels);
    hex := ToHex(hash);
  }

  lemma {:induction false} HexLength(bits: string)
    ensures |HexOf(bits)| == (|bits| + 3) / 4
    decreases |bits|
  {
    if bits != [] { HexLength(Rest(bits)); }
  }

  lemma {:induction false} DigitAt(bits: string, d: nat)
    requires 4 * d < |bits|
    ensures d < |HexOf(bits)| && HexOf(bits)[d] == Nibble(bits[4 * d..])
    decreases |bits|
  {
    if d > 0 {
      DigitAt(Rest(bits), d - 1);
      SameTail(bits, d);
    } else {
      assert bits[0..] == bits;
    }
  }

  lemma {:induction false} SameTail(bits: string, d: nat)
    requires d > 0 && 4 * d < |bits|
    ensures Rest(bits)[4 * (d - 1)..] == bits[4 * d..]
  {
  }

  /** Bit n of a number, from the right. */
  ghost predicate NumeralBit(v: nat, n: nat) { v / Pow2(n) % 2 == 1 }

  lemma {:induction false} HalfOfPower(v: nat, n: nat, bit: nat)
    requires bit <= 1
    ensures NumeralBit(2 * v + bit, n + 1) <==> NumeralBit(v, n)
  {
    var p := Pow2(n);
    var q := v / p;
    assert v == q * p + v % p;
    assert 2 * v + bit == q * (2 * p) + (2 * (v % p) + bit);
    QuotientIs(2 * v + bit, 2 * p, q, 2 * (v % p) + bit);
  }

  lemma {:induction false} QuotientIs(n: nat, d: nat, q: nat, r: nat)
    requires d > 0 && n == q * d + r && r < d
    ensures n / d == q
  {
    var q' := n / d;
    assert n == q' * d + n % d;
    if q' < q { TimesMonotone(q' + 1, q, d); TimesNext(q', d); }
    if q' > q { TimesMonotone(q + 1, q', d); TimesNext(q, d); }
  }

  /** Bit k from the left of a binary numeral. */
  lemma {:induction false} ParsedBit(bits: string, k: nat)
    requires k < |bits|
    ensures NumeralBit(ParseBinary(bits), |bits| - 1 - k) <==> bits[k] == '1'
  {
    var front, last := bits[..|bits| - 1], if bits[|bits| - 1] == '1' then 1 else 0;
    assert ParseBinary(bits) == 2 * ParseBinary(front) + last;
    if k < |front| {
      ParsedBit(front, k);
      assert front[k] == bits[k];
      HalfOfPower(ParseBinary(front), |front| - 1 - k, last);
    } else {
      LowestBit(ParseBinary(front), last);
    }
  }

  lemma {:induction false} LowestBit(v: nat, bit: nat)
    requires bit <= 1
    ensures NumeralBit(2 * v + bit, 0) <==> bit == 1
  {
    assert (2 * v + bit) / 1 == 2 * v + bit;
  }

  lemma {:induction false} DigitBit(bits: string, i: nat)
    requires i < |bits|
    ensures var hex, group := HexOf(bits), if 4 * (i / 4) + 4 <= |bits| then 4 else |bits| - 4 * (i / 4);
      && |hex| == (|bits| + 3) / 4
      && i % 4 < group
      && (NumeralBit(HexValue(hex[i / 4]), group - 1 - i % 4) <==> bits[i] == '1')
  {
    var d := i / 4;
    var g := Group(bits[4 * d..]);
    HexLength(bits);
    DigitAt(bits, d);
    ParseBound(g);
    HexDigitReadsBack(ParseBinary(g));
    ParsedBit(g, i % 4);
    assert g[i % 4] == bits[i];
  }

  /**
   * The hash has a digit for every four pixels; the digit of a pixel has in the
   * pixel's place, from the left, whether it is at or above the mean.
   */
  lemma {:induction false} HashBit(p: seq<nat>, i: nat)
    requires i < |p|
    ensures var hex, group := HexOf(BitString(p)), if 4 * (i / 4) + 4 <= |p| then 4 else |p| - 4 * (i / 4);
      && |hex| == (|p| + 3) / 4
      && i % 4 < group
      && (NumeralBit(HexValue(hex[i / 4]), group - 1 - i % 4) <==> p[i] * |p| >= Sum(p))
  {
    DigitBit(BitString(p), i);
    BitIsBright(p, i);
  }

  lemma {:induction false} BitIsBright(p: seq<nat>, i: nat)
    requires i < |p|
    ensures |BitString(p)| == |p| && (BitString(p)[i] == '1' <==> p[i] * |p| >= Sum(p))
  {
  }

  lemma {:induction false} HexDigitReadsBack(v: nat)
    requires v < 16
    ensures HexDigit(v) == "0123456789abcdef"[v] && HexValue(HexDigit(v)) == v
  {
  }

  // ---------- the distance ----------

  /** Exclusive or of two numbers, bit by bit. */
  function Xor(a: nat, b: nat): nat
    decreases a + b
  {
    if a == 0 && b == 0 then 0 else (if a % 2 != b % 2 then 1 else 0) + 2 * Xor(a / 2, b / 2)
  }

  function PopCount(v: nat): nat {
    if v == 0 then 0 else v % 2 + PopCount(v / 2)
  }

  /** In how many bits two numbers differ. */
  function BitDiff(a: nat, b: nat): nat
    decreases a + b
  {
    if a == 0 && b == 0 then 0 else (if a % 2 != b % 2 then 1 else 0) + BitDiff(a / 2, b / 2)
  }

  lemma {:induction false} PopCountOfBit(bit: nat, x: nat)
    requires bit <= 1
    ensures PopCount(bit + 2 * x) == bit + PopCount(x)
  {
    assert (bit + 2 * x) % 2 == bit && (bit + 2 * x) / 2 == x;
  }

  lemma {:induction false} PopCountOfXor(a: nat, b: nat)
    ensures PopCount(Xor(a, b)) == BitDiff(a, b)
    decreases a + b
  {
    if a != 0 || b != 0 {
      PopCountOfXor(a / 2, b / 2);
      PopCountOfBit(if a % 2 != b % 2 then 1 else 0, Xor(a / 2, b / 2));
    }
  }

  function DigitDiffs(a: string, b: string): nat
    requires |a| == |b|
  {
    if a == [] then 0
    else DigitDiffs(a[..|a| - 1], b[..|b| - 1]) + BitDiff(HexValue(a[|a| - 1]), HexValue(b[|b| - 1]))
  }

  /** Infinite, here None, for hashes of different length. */
  function Distance(a: string, b: string): Option<nat> {
    if |a| != |b| then None else Some(DigitDiffs(a, b))
  }

  method HammingDistance(a: string, b: string) returns (r: Option<nat>)
    ensures r == Distance(a, b)
  {
    if |a| != |b| { return None; }
    var distance := 0;
    for i := 0 to |a|
      invariant distance == DigitDiffs(a[..i], b[..i])
    {
      assert a[..i + 1][..i] == a[..i] && b[..i + 1][..i] == b[..i];
      PopCountOfXor(HexValue(a[i]), HexValue(b[i]));
      var val := Xor(HexValue(a[i]), HexValue(b[i]));
      while val != 0
        invariant distance + PopCount(val) == DigitDiffs(a[..i + 1], b[..i + 1])
        decreases val
      {
        distance := distance + val % 2;
        val := val / 2;
      }
    }
    assert a[..|a|] == a && b[..|b|] == b;
    return Some(distance);
  }

  // ---------- what the distance of two hashes means ----------

  /** The number of positions at which two texts differ. */
  function Differences(s: string, t: string): nat
    requires |s| == |t|
  {
    if s == [] then 0
    else Differences(s[..|s| - 1], t[..|t| - 1]) + (if s[|s| - 1] != t[|t| - 1] then 1 else 0)
  }

  lemma {:induction false} DifferencesConcat(a: string, b: string, c: string, d: string)
    requires |a| == |b| && |c| == |d|
    ensures Differences(a + c, b + d) == Differences(a, b) + Differences(c, d)
  {
    if c == [] {
      assert a + c == a && b + d == b;
    } else {
      assert (a + c)[..|a + c| - 1] == a + c[..|c| - 1] && (b + d)[..|b + d| - 1] == b + d[..|d| - 1];
      DifferencesConcat(a, b, c[..|c| - 1], d[..|d| - 1]);
    }
  }

  lemma {:induction false} DigitDiffsConcat(a: string, b: string, c: string, d: string)
    requires |a| == |b| && |c| == |d|
    ensures DigitDiffs(a + c, b + d) == DigitDiffs(a, b) + DigitDiffs(c, d)
  {
    if c == [] {
      assert a + c == a && b + d == b;
    } else {
      assert (a + c)[..|a + c| - 1] == a + c[..|c| - 1] && (b + d)[..|b + d| - 1] == b + d[..|d| - 1];
      DigitDiffsConcat(a, b, c[..|c| - 1], d[..|d| - 1]);
    }
  }

  lemma {:induction false} BitDiffNext(a: nat, x: nat, b: nat, y: nat)
    requires x <= 1 && y <= 1
    ensures BitDiff(2 * a + x, 2 * b + y) == BitDiff(a, b) + (if x != y then 1 else 0)
  {
    assert (2 * a + x) % 2 == x && (2 * a + x) / 2 == a;
    assert (2 * b + y) % 2 == y && (2 * b + y) / 2 == b;
  }

  lemma {:induction false} BitsDifferAsNumbers(s: string, t: string)
    requires |s| == |t| && IsBits(s) && IsBits(t)
    ensures BitDiff(ParseBinary(s), ParseBinary(t)) == Differences(s, t)
  {
    if s != [] {
      BitsDifferAsNumbers(s[..|s| - 1], t[..|t| - 1]);
      BitDiffNext(ParseBinary(s[..|s| - 1]), if s[|s| - 1] == '1' then 1 else 0,
                  ParseBinary(t[..|t| - 1]), if t[|t| - 1] == '1' then 1 else 0);
    }
  }

  lemma {:induction false} NibblesDiffer(s: string, t: string)
    requires |s| == |t| && IsBits(s) && IsBits(t)
    ensures BitDiff(HexValue(Nibble(s)), HexValue(Nibble(t))) == Differences(Group(s), Group(t))
  {
    BitsDifferAsNumbers(Group(s), Group(t));
    ParseBound(Group(s));
    ParseBound(Group(t));
    HexDigitReadsBack(ParseBinary(Group(s)));
    HexDigitReadsBack(ParseBinary(Group(t)));
  }

  lemma {:induction false} OneDigit(c: char, d: char)
    ensures DigitDiffs([c], [d]) == BitDiff(HexValue(c), HexValue(d))
  {
    assert [c][..0] == [] && [d][..0] == [];
    assert DigitDiffs([], []) == 0;
  }

  lemma {:induction false} HexKeepsDistance(s: string, t: string)
    requires |s| == |t| && IsBits(s) && IsBits(t)
    ensures |HexOf(s)| == |HexOf(t)|
    ensures DigitDiffs(HexOf(s), HexOf(t)) == Differences(s, t)
    decreases |s|
  {
    if s != [] {
      assert s == Group(s) + Rest(s) && t == Group(t) + Rest(t);
      HexKeepsDistance(Rest(s), Rest(t));
      DifferencesConcat(Group(s), Group(t), Rest(s), Rest(t));
      DigitDiffsConcat([Nibble(s)], [Nibble(t)], HexOf(Rest(s)), HexOf(Rest(t)));
      OneDigit(Nibble(s), Nibble(t));
      NibblesDiffer(s, t);
    }
  }

  lemma {:induction false} DifferencesCount(s: string, t: string)
    requires |s| == |t|
    ensures Differences(s, t) == |set i: nat | i < |s| && s[i] != t[i]|
  {
    if s != [] {
      var n := |s| - 1;
      var f, g := s[..n], t[..n];
      DifferencesCount(f, g);
      var before := set i: nat | i < n && f[i] != g[i];
      var all := set i: nat | i < |s| && s[i] != t[i];
      assert all == before + (if s[n] != t[n] then {n} else {});
    }
  }

  /**
   * Main result: the distance of two images' hashes is the number of pixels
   * whose above-mean bit differs, whatever the number of pixels.
   */
  lemma {:induction false} DistanceOfHashes(p: seq<nat>, q: seq<nat>)
    requires |p| == |q|
    ensures Distance(HexOf(BitString(p)), HexOf(BitString(q)))
            == Some(|set i: nat | i < |p| && ((p[i] * |p| >= Sum(p)) != (q[i] * |q| >= Sum(q)))|)
  {
    var s, t := BitString(p), BitString(q);
    HexKeepsDistance(s, t);
    DifferencesCount(s, t);
    assert (set i: nat | i < |s| && s[i] != t[i])
           == set i: nat | i < |p| && ((p[i] * |p| >= Sum(p)) != (q[i] * |q| >= Sum(q)));
  }

  // ---------- a metric ----------

  lemma {:induction false} BitDiffMetric(a: nat, b: nat, c: nat)
    ensures BitDiff(a, b) == 0 <==> a == b
    ensures BitDiff(a, b) == BitDiff(b, a)
    ensures BitDiff(a, c) <= BitDiff(a, b) + BitDiff(b, c)
    decreases a + b + c
  {
    if a != 0 || b != 0 || c != 0 {
      BitDiffMetric(a / 2, b / 2, c / 2);
    }
  }

  predicate IsHex(s: string) { forall i | 0 <= i < |s| :: '0' <= s[i] <= '9' || 'a' <= s[i] <= 'f' }

  lemma {:induction false} DigitDiffsMetric(a: string, b: string, c: string)
    requires |a| == |b| == |c|
    ensures DigitDiffs(a, b) == DigitDiffs(b, a)
    ensures DigitDiffs(a, c) <= DigitDiffs(a, b) + DigitDiffs(b, c)
  {
    if a != [] {
      var n := |a| - 1;
      DigitDiffsMetric(a[..n], b[..n], c[..n]);
      BitDiffMetric(HexValue(a[n]), HexValue(b[n]), HexValue(c[n]));
    }
  }

  lemma {:induction false} SameDigit(c: char, d: char)
    requires IsHex([c]) && IsHex([d])
    ensures BitDiff(HexValue(c), HexValue(d)) == 0 <==> c == d
  {
    assert [c][0] == c && [d][0] == d;
    BitDiffMetric(HexValue(c), HexValue(d), 0);
  }

  lemma {:induction false} NoDigitDiffs(a: string, b: string)
    requires |a| == |b| && IsHex(a) && IsHex(b)
    ensures DigitDiffs(a, b) == 0 <==> a == b
  {
    if a != [] {
      var n := |a| - 1;
      HexParts(a);
      HexParts(b);
      NoDigitDiffs(a[..n], b[..n]);
      SameDigit(a[n], b[n]);
      SameParts(a, b);
    }
  }

  lemma {:induction false} HexParts(a: string)
    requires a != [] && IsHex(a)
    ensures IsHex(a[..|a| - 1]) && IsHex([a[|a| - 1]])
  {
  }

  lemma {:induction false} SameParts(a: string, b: string)
    requires |a| == |b| && a != []
    ensures a == b <==> a[..|a| - 1] == b[..|b| - 1] && a[|a| - 1] == b[|b| - 1]
  {
    assert a == a[..|a| - 1] + [a[|a| - 1]] && b == b[..|b| - 1] + [b[|b| - 1]];
  }

  /** On hex strings of one length the distance is a metric. */
  lemma {:induction false} DistanceIsMetric(a: string, b: string, c: string)
    requires |a| == |b| == |c| && IsHex(a) && IsHex(b)
    ensures Distance(a, b) == Some(0) <==> a == b
    ensures Distance(a, b) == Distance(b, a)
    ensures Distance(a, c).value <= Distance(a, b).value + Distance(b, c).value
  {
    DigitDiffsMetric(a, b, c);
    NoDigitDiffs(a, b);
  }
}
