/** Sums over the values of a finite map and over sequences. */
module Sums {

  ghost function SumMap<K(!new)>(m: map<K, int>): int {
    if m.Keys == {} then 0
    else
      var k :| k in m;
      m[k] + SumMap(m - {k})
  }

  /** Any key may be taken out first. */
  lemma {:induction false} SumMapRemove<K(!new)>(m: map<K, int>, k: K)
    requires k in m
    ensures SumMap(m) == m[k] + SumMap(m - {k})
    decreases |m|
  {
    var c :| c in m && SumMap(m) == m[c] + SumMap(m - {c});
    if c != k {
      assert |(m - {c}).Keys| < |m.Keys| && |(m - {k}).Keys| < |m.Keys| by {
        assert (m - {c}).Keys == m.Keys - {c} && (m - {k}).Keys == m.Keys - {k};
      }
      SumMapRemove(m - {c}, k);
      SumMapRemove(m - {k}, c);
      assert m - {c} - {k} == m - {k} - {c};
    }
  }

  lemma {:induction false} SumMapUpdate<K(!new)>(m: map<K, int>, k: K, v: int)
    ensures SumMap(m[k := v]) == SumMap(m) - (if k in m then m[k] else 0) + v
  {
    SumMapRemove(m[k := v], k);
    if k in m {
      SumMapRemove(m, k);
      assert m[k := v] - {k} == m - {k};
    } else {
      assert m[k := v] - {k} == m;
    }
  }

  lemma {:induction false} SumMapZero<K(!new)>(m: map<K, int>)
    requires forall k | k in m :: m[k] == 0
    ensures SumMap(m) == 0
    decreases |m|
  {
    if m.Keys != {} {
      var k :| k in m;
      SumMapRemove(m, k);
      assert (m - {k}).Keys == m.Keys - {k};
      SumMapZero(m - {k});
    }
  }

  function SumSeq(s: seq<int>): int {
    if s == [] then 0 else s[0] + SumSeq(s[1..])
  }

  lemma {:induction false} SumSeqUpdate(s: seq<int>, i: nat, v: int)
    requires i < |s|
    ensures SumSeq(s[i := v]) == SumSeq(s) - s[i] + v
  {
    if i > 0 {
      SumSeqUpdate(s[1..], i - 1, v);
      assert s[i := v][1..] == s[1..][i - 1 := v];
    } else {
      assert s[0 := v][1..] == s[1..];
    }
  }

  lemma {:induction false} SumSeqBound(a: seq<int>, b: seq<int>, d: int)
    requires |a| == |b| && forall i | 0 <= i < |a| :: b[i] <= a[i] + d
    ensures SumSeq(b) <= SumSeq(a) + d * |a|
  {
    if a != [] { SumSeqBound(a[1..], b[1..], d); }
  }

  lemma {:induction false} SumSeqNonNegative(s: seq<int>)
    requires forall i | 0 <= i < |s| :: s[i] >= 0
    ensures SumSeq(s) >= 0
  {
    if s != [] { SumSeqNonNegative(s[1..]); }
  }
}
