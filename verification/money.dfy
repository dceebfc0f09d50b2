/** Rounded money: the surcharge on a deferred cheque, and display in another unit. */
module Money {
  import opened Arithmetic
  import opened Sums

  /** `Math.round(n / d)`: the nearest whole number, halves upwards. */
  function RoundDiv(n: int, d: int): int
    requires d > 0
  {
    (2 * n + d) / (2 * d)
  }

  lemma {:induction false} RoundDivNearest(n: int, d: int)
    requires d > 0
    ensures -d < 2 * d * RoundDiv(n, d) - 2 * n <= d
  {
    var q, m := RoundDiv(n, d), 2 * n + d;
    assert 2 * d * q + m % (2 * d) == m;
  }

  lemma {:induction false} QuotientUnique(q: int, r: int, d: int)
    requires d > 0 && -d < q * d - r * d < d
    ensures q == r
  {
    if q > r { TimesMonotone(r + 1, q, d); TimesNext(r, d); }
    if q < r { TimesMonotone(q + 1, r, d); TimesNext(q, d); }
  }

  lemma {:induction false} RoundDivMonotone(m: int, n: int, d: int)
    requires d > 0 && m <= n
    ensures RoundDiv(m, d) <= RoundDiv(n, d)
  {
    var a, b := RoundDiv(m, d), RoundDiv(n, d);
    assert 2 * d * a == a * (2 * d) && 2 * d * b == b * (2 * d);
    RoundDivNearest(m, d);
    RoundDivNearest(n, d);
    if a > b {
      TimesMonotone(b + 1, a, 2 * d);
      TimesNext(b, 2 * d);
    }
  }

  lemma {:induction false} RoundDivExact(k: int, d: int)
    requires d > 0
    ensures RoundDiv(k * d, d) == k
  {
    RoundDivNearest(k * d, d);
    var q := RoundDiv(k * d, d);
    assert 2 * d * q - 2 * (k * d) == 2 * (q * d - k * d);
    QuotientUnique(q, k, d);
  }

  // ---------- the surcharge on a cheque ----------

  datatype RateMode = Flat | Monthly

  const BASIS: int := 10_000

  function MonthsCounted(months: int, mode: RateMode): int {
    if mode == Flat then 1 else if months < 0 then 0 else months
  }

  function ChequeCharge(base: int, rateBp: int, months: int, mode: RateMode): int {
    if base <= 0 || rateBp <= 0 then 0
    else
      var m := MonthsCounted(months, mode);
      if m == 0 then 0 else Min(RoundDiv(base * rateBp * m, BASIS), base)
  }

  /** The exact charge, times the basis. */
  function Exact(base: int, rateBp: int, months: int, mode: RateMode): int {
    base * (rateBp * MonthsCounted(months, mode))
  }

  lemma {:induction false} ChargeIsRounded(base: int, rateBp: int, months: int, mode: RateMode)
    requires base >= 0 && rateBp >= 0
    ensures ChequeCharge(base, rateBp, months, mode) == Min(RoundDiv(Exact(base, rateBp, months, mode), BASIS), base)
  {
    var m := MonthsCounted(months, mode);
    assert base * rateBp * m == base * (rateBp * m);
    if base == 0 || rateBp == 0 || m == 0 {
      assert Exact(base, rateBp, months, mode) == 0;
      RoundDivExact(0, BASIS);
    }
  }

  lemma {:induction false} ProductMonotone(a: int, b: int, c: int, d: int)
    requires 0 <= a <= c && 0 <= b <= d
    ensures 0 <= a * b <= c * d
  {
    TimesMonotone(0, a, b);
    TimesMonotone(a, c, b);
    TimesMonotone(b, d, c);
    assert c * b == b * c && c * d == d * c;
  }

  /** The charge never falls below zero or exceeds the base, and grows with base, rate and months. */
  lemma {:induction false} ChargeMonotone(base: int, rateBp: int, months: int, base': int, rateBp': int, months': int,
                                          mode: RateMode)
    requires base <= base' && rateBp <= rateBp' && months <= months'
    ensures 0 <= ChequeCharge(base, rateBp, months, mode) <= ChequeCharge(base', rateBp', months', mode)
    ensures base' >= 0 ==> ChequeCharge(base', rateBp', months', mode) <= base'
  {
    var m, m' := MonthsCounted(months, mode), MonthsCounted(months', mode);
    var b, r := if base < 0 then 0 else base, if rateBp < 0 then 0 else rateBp;
    var b', r' := if base' < 0 then 0 else base', if rateBp' < 0 then 0 else rateBp';
    ProductMonotone(r, m, r', m');
    ProductMonotone(b, r * m, b', r' * m');
    RoundDivMonotone(Exact(b, r, months, mode), Exact(b', r', months', mode), BASIS);
    RoundDivMonotone(0, Exact(b, r, months, mode), BASIS);
    RoundDivExact(0, BASIS);
    ChargeIsRounded(b, r, months, mode);
    ChargeIsRounded(b', r', months', mode);
  }

  /**
   * Nothing is charged without a base, a rate or a month.  Up to 100 percent
   * the charge is within half a unit of the exact value, halves upwards; from
   * there on it is the base itself.  A flat rate counts as one month.
   */
  lemma {:induction false} ChargeAccuracy(base: int, rateBp: int, months: int, mode: RateMode)
    ensures var percent := rateBp * (if mode == Flat then 1 else if months < 0 then 0 else months);
      var charge := ChequeCharge(base, rateBp, months, mode);
      if base <= 0 || rateBp <= 0 then charge == 0
      else if percent >= 10_000 then charge == base
      else -10_000 < 20_000 * charge - 2 * (base * percent) <= 10_000
  {
    if base >= 0 && rateBp >= 0 { ChargeNearExact(base, rateBp, months, mode); }
  }

  lemma {:induction false} ChargeNearExact(base: int, rateBp: int, months: int, mode: RateMode)
    requires base >= 0 && rateBp >= 0
    ensures var percent := rateBp * MonthsCounted(months, mode);
      && (percent <= BASIS ==>
            -BASIS < 2 * BASIS * ChequeCharge(base, rateBp, months, mode) - 2 * Exact(base, rateBp, months, mode)
                   <= BASIS)
      && (percent >= BASIS ==> ChequeCharge(base, rateBp, months, mode) == base)
  {
    var percent := rateBp * MonthsCounted(months, mode);
    ChargeIsRounded(base, rateBp, months, mode);
    RoundDivNearest(Exact(base, rateBp, months, mode), BASIS);
    RoundDivExact(base, BASIS);
    if percent <= BASIS {
      TimesMonotone(percent, BASIS, base);
      assert percent * base == Exact(base, rateBp, months, mode);
      RoundDivMonotone(Exact(base, rateBp, months, mode), base * BASIS, BASIS);
    }
    if percent >= BASIS {
      TimesMonotone(BASIS, percent, base);
      assert percent * base == Exact(base, rateBp, months, mode);
      RoundDivMonotone(base * BASIS, Exact(base, rateBp, months, mode), BASIS);
    }
  }

  function Charges(parts: seq<int>, rateBp: int, months: int, mode: RateMode): int {
    if parts == [] then 0
    else ChequeCharge(parts[0], rateBp, months, mode) + Charges(parts[1..], rateBp, months, mode)
  }

  lemma {:induction false} ChargesNearExact(parts: seq<int>, rateBp: int, months: int, mode: RateMode)
    requires rateBp >= 0 && forall i | 0 <= i < |parts| :: parts[i] >= 0
    ensures SumSeq(parts) >= 0
    ensures var percent := rateBp * MonthsCounted(months, mode);
      && (percent <= BASIS ==>
            -BASIS * |parts| <= 2 * BASIS * Charges(parts, rateBp, months, mode)
                                - 2 * Exact(SumSeq(parts), rateBp, months, mode) <= BASIS * |parts|)
      && (percent >= BASIS ==> Charges(parts, rateBp, months, mode) == SumSeq(parts))
  {
    if parts != [] {
      var percent := rateBp * MonthsCounted(months, mode);
      ChargeNearExact(parts[0], rateBp, months, mode);
      ChargesNearExact(parts[1..], rateBp, months, mode);
      assert (parts[0] + SumSeq(parts[1..])) * percent == parts[0] * percent + SumSeq(parts[1..]) * percent;
    }
  }

  /** Charging n parts separately shifts the total by at most (n + 1) / 2. */
  lemma {:induction false} SplittingShiftsLittle(parts: seq<int>, rateBp: int, months: int, mode: RateMode)
    requires rateBp >= 0 && forall i | 0 <= i < |parts| :: parts[i] >= 0
    ensures var shift := Charges(parts, rateBp, months, mode) - ChequeCharge(SumSeq(parts), rateBp, months, mode);
      -(|parts| + 1) <= 2 * shift <= |parts| + 1
  {
    ChargesNearExact(parts, rateBp, months, mode);
    ChargeNearExact(SumSeq(parts), rateBp, months, mode);
  }

  // ---------- display in another unit ----------

  datatype Unit = Rial | Toman

  function ConvertMoney(value: int, from: Unit, to: Unit): int {
    if from == to then value
    else if from == Rial then RoundDiv(value, 10)
    else value * 10
  }

  /** The same unit leaves the value, rial are ten times the toman, and toman the nearest tenth of the rial. */
  lemma {:induction false} ConvertIs(value: int, unit: Unit)
    ensures ConvertMoney(value, unit, unit) == value
    ensures ConvertMoney(value, Toman, Rial) == 10 * value
    ensures -10 < 20 * ConvertMoney(value, Rial, Toman) - 2 * value <= 10
  {
    RoundDivNearest(value, 10);
  }

  /** From toman to rial and back nothing is lost; from rial to toman and back, exactly the last digit is. */
  lemma {:induction false} ConvertRoundTrip(value: int)
    ensures ConvertMoney(ConvertMoney(value, Toman, Rial), Rial, Toman) == value
    ensures ConvertMoney(ConvertMoney(value, Rial, Toman), Toman, Rial) == value <==> value % 10 == 0
  {
    RoundDivExact(value, 10);
  }

  function Converted(rows: seq<int>, from: Unit, to: Unit): int {
    if rows == [] then 0 else ConvertMoney(rows[0], from, to) + Converted(rows[1..], from, to)
  }

  lemma {:induction false} ConvertedNearExact(rows: seq<int>)
    ensures -10 * |rows| <= 20 * Converted(rows, Rial, Toman) - 2 * SumSeq(rows) <= 10 * |rows|
  {
    if rows != [] {
      RoundDivNearest(rows[0], 10);
      ConvertedNearExact(rows[1..]);
    }
  }

  /**
   * Converting n rows before adding them up differs from converting the sum by
   * at most (n + 1) / 2; to rial, not at all.
   */
  lemma {:induction false} RowsFirstShiftsLittle(rows: seq<int>)
    ensures var shift := Converted(rows, Rial, Toman) - ConvertMoney(SumSeq(rows), Rial, Toman);
      -(|rows| + 1) <= 2 * shift <= |rows| + 1
    ensures Converted(rows, Toman, Rial) == ConvertMoney(SumSeq(rows), Toman, Rial)
  {
    ConvertedNearExact(rows);
    RoundDivNearest(SumSeq(rows), 10);
    ToRialIsLinear(rows);
  }

  lemma {:induction false} ToRialIsLinear(rows: seq<int>)
    ensures Converted(rows, Toman, Rial) == 10 * SumSeq(rows)
  {
    if rows != [] { ToRialIsLinear(rows[1..]); }
  }
}
