/** The order of identifiers, and stable sorting by a total preorder. */
module Order {

  ghost predicate TotalPreorder<T(!new)>(leq: (T, T) -> bool) {
    && (forall x, y :: leq(x, y) || leq(y, x))
    && (forall x, y, z :: leq(x, y) && leq(y, z) ==> leq(x, z))
  }

  predicate Sorted<T>(s: seq<T>, leq: (T, T) -> bool) {
    forall i, j | 0 <= i < j < |s| :: leq(s[i], s[j])
  }

  predicate Distinct<T(==)>(s: seq<T>) {
    forall i, j | 0 <= i < j < |s| :: s[i] != s[j]
  }

  // ---------- strings ----------

  /** Lexicographic order by character code, the order of `<` on strings. */
  predicate StringLeq(a: string, b: string) {
    if a == [] then true
    else if b == [] then false
    else a[0] < b[0] || (a[0] == b[0] && StringLeq(a[1..], b[1..]))
  }

  lemma {:induction false} StringLeqTotal(a: string, b: string)
    ensures StringLeq(a, b) || StringLeq(b, a)
  {
    if a != [] && b != [] {
      StringLeqTotal(a[1..], b[1..]);
    }
  }

  lemma {:induction false} StringLeqAntisymmetric(a: string, b: string)
    requires StringLeq(a, b) && StringLeq(b, a)
    ensures a == b
  {
    if a != [] && b != [] {
      StringLeqAntisymmetric(a[1..], b[1..]);
      assert a == [a[0]] + a[1..] && b == [b[0]] + b[1..];
    }
  }

  lemma {:induction false} StringLeqTransitive(a: string, b: string, c: string)
    requires StringLeq(a, b) && StringLeq(b, c)
    ensures StringLeq(a, c)
  {
    if a != [] && a[0] == b[0] == c[0] {
      StringLeqTransitive(a[1..], b[1..], c[1..]);
    }
  }

  lemma {:induction false} SameStart(a: string, b: string, i: nat)
    requires i < |a| && i < |b| && a[..i] == b[..i]
    ensures i == 0 || a[0] == b[0]
  {
    if i > 0 { assert a[0] == a[..i][0] && b[0] == b[..i][0]; }
  }

  /** One text is a prefix of the other, or has the smaller character at the first difference. */
  lemma {:induction false} StringLeqIsLexicographic(a: string, b: string)
    ensures StringLeq(a, b) <==> a <= b || exists i :: 0 <= i < |a| && i < |b| && a[..i] == b[..i] && a[i] < b[i]
  {
    if a != [] && b != [] {
      StringLeqIsLexicographic(a[1..], b[1..]);
      assert a == [a[0]] + a[1..] && b == [b[0]] + b[1..];
      if a[0] == b[0] {
        if i :| 0 <= i < |a[1..]| && i < |b[1..]| && a[1..][..i] == b[1..][..i] && a[1..][i] < b[1..][i] {
          assert a[..i + 1] == [a[0]] + a[1..][..i] && b[..i + 1] == [b[0]] + b[1..][..i];
          assert a[..i + 1] == b[..i + 1] && a[i + 1] < b[i + 1];
        }
        if i :| 0 <= i < |a| && i < |b| && a[..i] == b[..i] && a[i] < b[i] {
          assert a[1..][..i - 1] == a[..i][1..] && b[1..][..i - 1] == b[..i][1..];
          assert a[1..][i - 1] < b[1..][i - 1];
        }
      } else {
        if i :| 0 <= i < |a| && i < |b| && a[..i] == b[..i] && a[i] < b[i] { SameStart(a, b, i); }
        if a[0] < b[0] { assert a[..0] == b[..0] && a[0] < b[0]; }
      }
    }
  }

  lemma {:induction false} StringLeqIsTotalOrder()
    ensures TotalPreorder(StringLeq)
    ensures forall a, b :: StringLeq(a, b) && StringLeq(b, a) ==> a == b
  {
    forall a, b ensures StringLeq(a, b) || StringLeq(b, a) { StringLeqTotal(a, b); }
    forall a, b, c | StringLeq(a, b) && StringLeq(b, c) ensures StringLeq(a, c) {
      StringLeqTransitive(a, b, c);
    }
    forall a, b | StringLeq(a, b) && StringLeq(b, a) ensures a == b { StringLeqAntisymmetric(a, b); }
  }

  // ---------- sorting ----------

  function InsertBy<T>(x: T, s: seq<T>, leq: (T, T) -> bool): seq<T> {
    if s == [] then [x]
    else if leq(x, s[0]) then [x] + s
    else [s[0]] + InsertBy(x, s[1..], leq)
  }

  /** Stable sort: equal elements keep their order. */
  function SortBy<T>(s: seq<T>, leq: (T, T) -> bool): seq<T> {
    if s == [] then [] else InsertBy(s[0], SortBy(s[1..], leq), leq)
  }

  lemma {:induction false} InsertByKeeps<T>(x: T, s: seq<T>, leq: (T, T) -> bool)
    ensures multiset(InsertBy(x, s, leq)) == multiset{x} + multiset(s)
    ensures forall y :: y in InsertBy(x, s, leq) <==> y == x || y in s
  {
    if s != [] && !leq(x, s[0]) {
      InsertByKeeps(x, s[1..], leq);
      assert s == [s[0]] + s[1..];
    }
  }

  lemma {:induction false} ConsSorted<T>(x: T, s: seq<T>, leq: (T, T) -> bool)
    requires Sorted(s, leq) && forall y | y in s :: leq(x, y)
    ensures Sorted([x] + s, leq)
  {
    var t := [x] + s;
    forall i, j | 0 <= i < j < |t| ensures leq(t[i], t[j]) { assert t[j] == s[j - 1] && s[j - 1] in s; }
  }

  lemma {:induction false} InsertBySorted<T(!new)>(x: T, s: seq<T>, leq: (T, T) -> bool)
    requires TotalPreorder(leq) && Sorted(s, leq)
    ensures Sorted(InsertBy(x, s, leq), leq)
    ensures multiset(InsertBy(x, s, leq)) == multiset{x} + multiset(s)
  {
    InsertByKeeps(x, s, leq);
    if s == [] {
    } else if leq(x, s[0]) {
      forall y | y in s ensures leq(x, y) { assert y == s[0] || leq(s[0], y); }
      ConsSorted(x, s, leq);
    } else {
      InsertBySorted(x, s[1..], leq);
      InsertByKeeps(x, s[1..], leq);
      ConsSorted(s[0], InsertBy(x, s[1..], leq), leq);
    }
  }

  lemma {:induction false} SortByCorrect<T(!new)>(s: seq<T>, leq: (T, T) -> bool)
    requires TotalPreorder(leq)
    ensures Sorted(SortBy(s, leq), leq)
    ensures multiset(SortBy(s, leq)) == multiset(s)
    ensures |SortBy(s, leq)| == |s|
  {
    if s != [] {
      SortByCorrect(s[1..], leq);
      InsertBySorted(s[0], SortBy(s[1..], leq), leq);
      assert s == [s[0]] + s[1..];
    }
    SameSize(SortBy(s, leq), s);
  }

  lemma {:induction false} SameSize<T>(a: seq<T>, b: seq<T>)
    requires multiset(a) == multiset(b)
    ensures |a| == |b|
  {
    assert |multiset(a)| == |multiset(b)|;
  }

  /** A sorted arrangement is unique as soon as the order tells its elements apart. */
  lemma {:induction false} SortedUnique<T(!new)>(a: seq<T>, b: seq<T>, leq: (T, T) -> bool)
    requires TotalPreorder(leq) && Sorted(a, leq) && Sorted(b, leq)
    requires multiset(a) == multiset(b) && TellsApart(a, leq)
    ensures a == b
  {
    assert |multiset(a)| == |multiset(b)|;
    if a != [] {
      SameHead(a, b, leq);
      TailSorted(a, leq);
      TailSorted(b, leq);
      SortedUnique(a[1..], b[1..], leq);
    }
  }

  ghost predicate TellsApart<T(!new)>(a: seq<T>, leq: (T, T) -> bool) {
    forall x, y | x in a && y in a && leq(x, y) && leq(y, x) :: x == y
  }

  lemma {:induction false} SameHead<T(!new)>(a: seq<T>, b: seq<T>, leq: (T, T) -> bool)
    requires TotalPreorder(leq) && Sorted(a, leq) && Sorted(b, leq) && a != []
    requires multiset(a) == multiset(b) && TellsApart(a, leq)
    ensures b != [] && a[0] == b[0] && multiset(a[1..]) == multiset(b[1..])
  {
    assert |multiset(a)| == |multiset(b)|;
    assert a[0] in multiset(b) && b[0] in multiset(a);
    HeadIsLeast(a, leq, b[0]);
    HeadIsLeast(b, leq, a[0]);
    WithoutHead(a);
    WithoutHead(b);
  }

  lemma {:induction false} TailSorted<T(!new)>(a: seq<T>, leq: (T, T) -> bool)
    requires Sorted(a, leq) && a != []
    ensures Sorted(a[1..], leq) && (TellsApart(a, leq) ==> TellsApart(a[1..], leq))
  {
    forall i, j | 0 <= i < j < |a[1..]| ensures leq(a[1..][i], a[1..][j]) {
      assert a[1..][i] == a[i + 1] && a[1..][j] == a[j + 1];
    }
  }

  lemma {:induction false} HeadIsLeast<T(!new)>(a: seq<T>, leq: (T, T) -> bool, x: T)
    requires TotalPreorder(leq) && Sorted(a, leq) && x in a
    ensures leq(a[0], x)
  {
    var i :| 0 <= i < |a| && a[i] == x;
    if i == 0 { assert leq(x, x); }
  }

  lemma {:induction false} WithoutHead<T>(a: seq<T>)
    requires a != []
    ensures a == [a[0]] + a[1..] && multiset(a[1..]) == multiset(a) - multiset{a[0]}
  {
    assert a == [a[0]] + a[1..];
  }

  // ---------- the members of a set, in order ----------

  predicate IsLeast(m: string, s: set<string>) {
    m in s && forall x | x in s :: StringLeq(m, x)
  }

  lemma {:induction false} LeastExists(s: set<string>)
    requires s != {}
    ensures exists m :: IsLeast(m, s)
  {
    var m := LeastOf(s);
  }

  lemma {:induction false} LeastOf(s: set<string>) returns (m: string)
    requires s != {}
    ensures IsLeast(m, s)
  {
    var x :| x in s;
    var rest := s - {x};
    if rest == {} {
      m := x;
      StringLeqTotal(x, x);
      assert s == rest + {x};
    } else {
      var l := LeastOf(rest);
      StringLeqTotal(l, x);
      m := if StringLeq(l, x) then l else x;
      forall y | y in s ensures StringLeq(m, y) {
        StringLeqTotal(x, x);
        if y != x && m == x { StringLeqTransitive(x, l, y); }
      }
    }
  }

  function SortedIds(s: set<string>): (r: seq<string>)
    ensures forall x :: x in r <==> x in s
    ensures Distinct(r)
  {
    if s == {} then []
    else
      LeastExists(s);
      StringLeqIsTotalOrder();
      var m :| IsLeast(m, s);
      [m] + SortedIds(s - {m})
  }

  lemma {:induction false} SortedIdsSorted(s: set<string>)
    ensures Sorted(SortedIds(s), StringLeq)
  {
    if s != {} {
      var ids := SortedIds(s);
      assert IsLeast(ids[0], s);
      SortedIdsSorted(s - {ids[0]});
      forall j | 0 <= j < |ids| ensures StringLeq(ids[0], ids[j]) { assert ids[j] in ids; }
    }
  }

  // ---------- permutations ----------

  function Map<T, U>(s: seq<T>, f: T -> U): seq<U> {
    if s == [] then [] else [f(s[0])] + Map(s[1..], f)
  }

  function Filter<T>(s: seq<T>, keep: T -> bool): seq<T> {
    if s == [] then [] else (if keep(s[0]) then [s[0]] else []) + Filter(s[1..], keep)
  }

  lemma {:induction false} MapConcat<T, U>(a: seq<T>, b: seq<T>, f: T -> U)
    ensures Map(a + b, f) == Map(a, f) + Map(b, f)
  {
    if a == [] {
      assert a + b == b;
    } else {
      assert (a + b)[1..] == a[1..] + b;
      MapConcat(a[1..], b, f);
    }
  }

  lemma {:induction false} FilterConcat<T>(a: seq<T>, b: seq<T>, keep: T -> bool)
    ensures Filter(a + b, keep) == Filter(a, keep) + Filter(b, keep)
  {
    if a == [] {
      assert a + b == b;
    } else {
      var first := if keep(a[0]) then [a[0]] else [];
      assert (a + b)[1..] == a[1..] + b && (a + b)[0] == a[0];
      FilterConcat(a[1..], b, keep);
      assert first + (Filter(a[1..], keep) + Filter(b, keep)) == first + Filter(a[1..], keep) + Filter(b, keep);
    }
  }

  /** In a permutation the first element stands somewhere, and without it the rest are permutations. */
  lemma {:induction false} PermutedRest<T>(a: seq<T>, b: seq<T>) returns (j: nat)
    requires a != [] && multiset(a) == multiset(b)
    ensures j < |b| && b[j] == a[0] && b == b[..j] + [b[j]] + b[j + 1..]
    ensures multiset(a[1..]) == multiset(b[..j] + b[j + 1..])
  {
    assert a[0] in multiset(b);
    j :| 0 <= j < |b| && b[j] == a[0];
    assert b == b[..j] + [b[j]] + b[j + 1..];
    assert a == [a[0]] + a[1..];
    assert multiset(a[1..]) == multiset(a) - multiset{a[0]};
    assert multiset(b[..j] + b[j + 1..]) == multiset(b) - multiset{b[j]};
  }

  lemma {:induction false} MapPermuted<T, U>(a: seq<T>, b: seq<T>, f: T -> U)
    requires multiset(a) == multiset(b)
    ensures multiset(Map(a, f)) == multiset(Map(b, f))
    decreases |a|
  {
    if a == [] {
      assert |multiset(b)| == 0;
    } else {
      var j := PermutedRest(a, b);
      MapPermuted(a[1..], b[..j] + b[j + 1..], f);
      MapConcat(b[..j], b[j + 1..], f);
      MapConcat(b[..j], [b[j]], f);
      MapConcat(b[..j] + [b[j]], b[j + 1..], f);
      assert [b[j]][1..] == [];
    }
  }

  lemma {:induction false} FilterPermuted<T>(a: seq<T>, b: seq<T>, keep: T -> bool)
    requires multiset(a) == multiset(b)
    ensures multiset(Filter(a, keep)) == multiset(Filter(b, keep))
    decreases |a|
  {
    if a == [] {
      assert |multiset(b)| == 0;
    } else {
      var j := PermutedRest(a, b);
      FilterPermuted(a[1..], b[..j] + b[j + 1..], keep);
      FilterConcat(b[..j], b[j + 1..], keep);
      FilterConcat(b[..j], [b[j]], keep);
      FilterConcat(b[..j] + [b[j]], b[j + 1..], keep);
      assert [b[j]][1..] == [];
    }
  }

  lemma {:induction false} FilterMembers<T>(s: seq<T>, keep: T -> bool, x: T)
    ensures x in Filter(s, keep) <==> x in s && keep(x)
  {
    if s != [] { FilterMembers(s[1..], keep, x); }
  }

  lemma {:induction false} MapMembers<T, U>(s: seq<T>, f: T -> U, i: nat)
    requires i < |Map(s, f)|
    ensures |Map(s, f)| == |s| && Map(s, f)[i] == f(s[i])
  {
    if i > 0 { MapMembers(s[1..], f, i - 1); }
    else { MapLength(s, f); }
  }

  lemma {:induction false} MapLength<T, U>(s: seq<T>, f: T -> U)
    ensures |Map(s, f)| == |s|
  {
    if s != [] { MapLength(s[1..], f); }
  }
}
