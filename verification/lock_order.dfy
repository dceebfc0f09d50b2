/**
 * The fixed order in which multi-line stock operations visit their rows, and
 * why transactions that take their row locks in that order never block one
 * another for good.
 */
module LockOrder {
  import opened Wrappers
  import opened Order

  datatype LockKey = LockKey(product: string, location: Option<string>)

  /** The stock row that a key locks; a missing location counts as the empty one. */
  datatype Row = Row(product: string, location: string)

  function RowOf(k: LockKey): Row { Row(k.product, if k.location.None? then "" else k.location.value) }

  predicate StringLess(a: string, b: string) { a != b && StringLeq(a, b) }

  /** The comparator: negative, zero or positive. */
  function Compare(a: LockKey, b: LockKey): int {
    if a.product != b.product then if StringLess(a.product, b.product) then -1 else 1
    else
      var la, lb := RowOf(a).location, RowOf(b).location;
      if la == lb then 0 else if StringLess(la, lb) then -1 else 1
  }

  predicate RowLeq(a: Row, b: Row) {
    if a.product != b.product then StringLeq(a.product, b.product) else StringLeq(a.location, b.location)
  }

  function NotAfter<T>(key: T -> LockKey): (T, T) -> bool { (a, b) => Compare(key(a), key(b)) <= 0 }

  /** A sorted copy; the argument is a value and stays as it is. */
  function InLockOrder<T>(items: seq<T>, key: T -> LockKey): seq<T> { SortBy(items, NotAfter(key)) }

  // ---------- the comparator ----------

  lemma {:induction false} CompareIsRowOrder(a: LockKey, b: LockKey)
    ensures Compare(a, b) <= 0 <==> RowLeq(RowOf(a), RowOf(b))
    ensures Compare(a, b) <= 0 <==>
            if a.product != b.product then StringLeq(a.product, b.product)
            else StringLeq(a.location.GetOr(""), b.location.GetOr(""))
    ensures Compare(a, b) == -Compare(b, a)
    ensures Compare(a, b) == 0 <==> a.product == b.product && a.location.GetOr("") == b.location.GetOr("")
    ensures Compare(a, b) == 0 <==> RowOf(a) == RowOf(b)
  {
    StringLeqTotal(a.product, b.product);
    StringLeqTotal(RowOf(a).location, RowOf(b).location);
    if StringLeq(a.product, b.product) && StringLeq(b.product, a.product) {
      StringLeqAntisymmetric(a.product, b.product);
    }
    if StringLeq(RowOf(a).location, RowOf(b).location) && StringLeq(RowOf(b).location, RowOf(a).location) {
      StringLeqAntisymmetric(RowOf(a).location, RowOf(b).location);
    }
  }

  lemma {:induction false} RowLeqTransitive(a: Row, b: Row, c: Row)
    requires RowLeq(a, b) && RowLeq(b, c)
    ensures RowLeq(a, c)
  {
    if a.product == b.product == c.product {
      StringLeqTransitive(a.location, b.location, c.location);
    } else {
      StringLeqTotal(b.product, b.product);
      StringLeqTransitive(a.product, b.product, c.product);
      if a.product == c.product { StringLeqAntisymmetric(a.product, b.product); }
    }
  }

  lemma {:induction false} RowLeqAntisymmetric(a: Row, b: Row)
    requires RowLeq(a, b) && RowLeq(b, a)
    ensures a == b
  {
    if a.product != b.product { StringLeqAntisymmetric(a.product, b.product); }
    StringLeqAntisymmetric(a.location, b.location);
  }

  lemma {:induction false} RowLeqIsTotalOrder()
    ensures TotalPreorder(RowLeq)
    ensures forall a, b :: RowLeq(a, b) && RowLeq(b, a) ==> a == b
  {
    forall a, b ensures RowLeq(a, b) || RowLeq(b, a) {
      StringLeqTotal(a.product, b.product);
      StringLeqTotal(a.location, b.location);
    }
    forall a, b, c | RowLeq(a, b) && RowLeq(b, c) ensures RowLeq(a, c) { RowLeqTransitive(a, b, c); }
    forall a, b | RowLeq(a, b) && RowLeq(b, a) ensures a == b { RowLeqAntisymmetric(a, b); }
  }

  lemma {:induction false} ComparatorIsTotalPreorder<T(!new)>(key: T -> LockKey)
    ensures TotalPreorder(NotAfter(key))
  {
    RowLeqIsTotalOrder();
    forall a, b ensures NotAfter(key)(a, b) <==> RowLeq(RowOf(key(a)), RowOf(key(b))) {
      CompareIsRowOrder(key(a), key(b));
    }
  }

  // ---------- the sorted copy ----------

  /** The result holds exactly the given lines, in row order. */
  lemma {:induction false} InLockOrderIsSortedCopy<T(!new)>(items: seq<T>, key: T -> LockKey)
    ensures multiset(InLockOrder(items, key)) == multiset(items)
    ensures var r := InLockOrder(items, key);
      forall i, j | 0 <= i < j < |r| ::
        var a, b := key(r[i]), key(r[j]);
        if a.product != b.product then StringLeq(a.product, b.product)
        else StringLeq(a.location.GetOr(""), b.location.GetOr(""))
  {
    var r := InLockOrder(items, key);
    ComparatorIsTotalPreorder(key);
    SortByCorrect(items, NotAfter(key));
    forall i, j | 0 <= i < j < |r|
      ensures var a, b := key(r[i]), key(r[j]);
        if a.product != b.product then StringLeq(a.product, b.product)
        else StringLeq(a.location.GetOr(""), b.location.GetOr("")) {
      assert NotAfter(key)(r[i], r[j]);
      CompareIsRowOrder(key(r[i]), key(r[j]));
    }
  }

  function LinesOf<T>(items: seq<T>, key: T -> LockKey, row: Row): seq<T> {
    if items == [] then []
    else (if RowOf(key(items[0])) == row then [items[0]] else []) + LinesOf(items[1..], key, row)
  }

  lemma {:induction false} InsertKeepsLines<T>(x: T, items: seq<T>, key: T -> LockKey, row: Row)
    ensures LinesOf(InsertBy(x, items, NotAfter(key)), key, row)
            == (if RowOf(key(x)) == row then [x] else []) + LinesOf(items, key, row)
  {
    if items != [] && !NotAfter(key)(x, items[0]) {
      CompareIsRowOrder(key(x), key(items[0]));
      InsertKeepsLines(x, items[1..], key, row);
    }
  }

  /** Lines of the same row are visited in the order in which they were given. */
  lemma {:induction false} InLockOrderIsStable<T>(items: seq<T>, key: T -> LockKey, row: Row)
    ensures LinesOf(InLockOrder(items, key), key, row) == LinesOf(items, key, row)
  {
    if items != [] {
      InLockOrderIsStable(items[1..], key, row);
      InsertKeepsLines(items[0], InLockOrder(items[1..], key), key, row);
    }
  }

  function Rows<T>(items: seq<T>, key: T -> LockKey): seq<Row> {
    if items == [] then [] else [RowOf(key(items[0]))] + Rows(items[1..], key)
  }

  lemma {:induction false} RowsOfInsert<T>(x: T, items: seq<T>, key: T -> LockKey)
    ensures Rows(InsertBy(x, items, NotAfter(key)), key) == InsertBy(RowOf(key(x)), Rows(items, key), RowLeq)
  {
    if items != [] {
      CompareIsRowOrder(key(x), key(items[0]));
      RowsOfInsert(x, items[1..], key);
    }
  }

  /** A line asks for the row of its product and location. */
  lemma {:induction false} RowsAreKeys<T>(items: seq<T>, key: T -> LockKey)
    ensures |Rows(items, key)| == |items|
    ensures forall i | 0 <= i < |items| ::
              Rows(items, key)[i] == Row(key(items[i]).product, key(items[i]).location.GetOr(""))
  {
    if items != [] { RowsAreKeys(items[1..], key); }
  }

  /** The locks that are taken depend on the rows of the lines only. */
  lemma {:induction false} RowsOfLockOrder<T>(items: seq<T>, key: T -> LockKey)
    ensures Rows(InLockOrder(items, key), key) == SortBy(Rows(items, key), RowLeq)
  {
    if items != [] {
      RowsOfLockOrder(items[1..], key);
      RowsOfInsert(items[0], InLockOrder(items[1..], key), key);
    }
  }

  /** Two baskets with the same rows, in whatever order, lock them in the same order. */
  lemma {:induction false} SameRowsSameOrder<T, U>(a: seq<T>, keyA: T -> LockKey, b: seq<U>, keyB: U -> LockKey)
    requires multiset(Rows(a, keyA)) == multiset(Rows(b, keyB))
    ensures Rows(InLockOrder(a, keyA), keyA) == Rows(InLockOrder(b, keyB), keyB)
  {
    RowsOfLockOrder(a, keyA);
    RowsOfLockOrder(b, keyB);
    RowLeqIsTotalOrder();
    SortByCorrect(Rows(a, keyA), RowLeq);
    SortByCorrect(Rows(b, keyB), RowLeq);
    SortedUnique(SortBy(Rows(a, keyA), RowLeq), SortBy(Rows(b, keyB), RowLeq), RowLeq);
  }

  /** The rows that the lines of a basket name, one for each line. */
  function RowsNamed(basket: seq<LockKey>): seq<Row> {
    seq(|basket|, i requires 0 <= i < |basket| => Row(basket[i].product, basket[i].location.GetOr("")))
  }

  // ---------- transactions that wait for one another ----------

  /** A transaction takes its locks one by one, keeps them, and lets go of all at commit. */
  datatype Txn = Txn(locks: seq<Row>, taken: nat, committed: bool)

  type System = seq<Txn>

  datatype Event = Acquire(txn: nat) | Commit(txn: nat)

  predicate Holds(t: Txn, row: Row) {
    !t.committed && t.taken <= |t.locks| && row in t.locks[..t.taken]
  }

  /** A lock is granted when no other transaction holds it; one's own lock is granted again. */
  predicate Enabled(s: System, e: Event) {
    && e.txn < |s|
    && !s[e.txn].committed
    && match e
       case Acquire(i) =>
         && s[i].taken < |s[i].locks|
         && forall j | 0 <= j < |s| && j != i :: !Holds(s[j], s[i].locks[s[i].taken])
       case Commit(i) => s[i].taken == |s[i].locks|
  }

  function Apply(s: System, e: Event): System
    requires Enabled(s, e)
  {
    match e
    case Acquire(i) => s[i := s[i].(taken := s[i].taken + 1)]
    case Commit(i) => s[i := s[i].(committed := true)]
  }

  ghost predicate IsRun(s: System, run: seq<Event>)
    decreases |run|
  {
    run != [] ==> Enabled(s, run[0]) && IsRun(Apply(s, run[0]), run[1..])
  }

  ghost function End(s: System, run: seq<Event>): System
    requires IsRun(s, run)
    decreases |run|
  {
    if run == [] then s else End(Apply(s, run[0]), run[1..])
  }

  function Start(baskets: seq<seq<LockKey>>): System {
    seq(|baskets|, i requires 0 <= i < |baskets| =>
      Txn(Rows(InLockOrder(baskets[i], (k: LockKey) => k), (k: LockKey) => k), 0, false))
  }

  ghost predicate Invariant(s: System) {
    && (forall t | t in s :: t.taken <= |t.locks| && Sorted(t.locks, RowLeq))
    && (forall i, j, row | 0 <= i < j < |s| && Holds(s[i], row) :: !Holds(s[j], row))
  }

  lemma {:induction false} StartInvariant(baskets: seq<seq<LockKey>>)
    ensures Invariant(Start(baskets))
  {
    forall i | 0 <= i < |baskets| ensures Sorted(Start(baskets)[i].locks, RowLeq) {
      RowsOfLockOrder(baskets[i], (k: LockKey) => k);
      RowLeqIsTotalOrder();
      SortByCorrect(Rows(baskets[i], (k: LockKey) => k), RowLeq);
    }
  }

  /** At the start nothing is held, and a transaction is to lock exactly the rows that its basket names, in order. */
  lemma {:induction false} StartLocks(baskets: seq<seq<LockKey>>, i: nat)
    requires i < |baskets|
    ensures |Start(baskets)| == |baskets|
    ensures var t := Start(baskets)[i];
      && t == Txn(t.locks, 0, false)
      && multiset(t.locks) == multiset(RowsNamed(baskets[i]))
      && forall m, n | 0 <= m < n < |t.locks| ::
           var a, b := t.locks[m], t.locks[n];
           if a.product != b.product then StringLeq(a.product, b.product) else StringLeq(a.location, b.location)
  {
    RowsOfLockOrder(baskets[i], (k: LockKey) => k);
    RowsAreKeys(baskets[i], (k: LockKey) => k);
    RowLeqIsTotalOrder();
    SortByCorrect(Rows(baskets[i], (k: LockKey) => k), RowLeq);
    assert Rows(baskets[i], (k: LockKey) => k) == RowsNamed(baskets[i]);
    forall m, n | 0 <= m < n < |Start(baskets)[i].locks|
      ensures RowLeq(Start(baskets)[i].locks[m], Start(baskets)[i].locks[n]) {}
  }

  lemma {:induction false} StepInvariant(s: System, e: Event)
    requires Invariant(s) && Enabled(s, e)
    ensures Invariant(Apply(s, e))
  {
    var s' := Apply(s, e);
    forall j, row | 0 <= j < |s'| && Holds(s'[j], row)
      ensures Holds(s[j], row) || (e == Acquire(j) && row == s[j].locks[s[j].taken]) {
      if e == Acquire(j) {
        assert s[j].locks[..s[j].taken + 1] == s[j].locks[..s[j].taken] + [s[j].locks[s[j].taken]];
      }
    }
  }

  lemma {:induction false} RunInvariant(s: System, run: seq<Event>)
    requires Invariant(s) && IsRun(s, run)
    ensures Invariant(End(s, run)) && |End(s, run)| == |s|
    decreases |run|
  {
    if run != [] {
      StepInvariant(s, run[0]);
      RunInvariant(Apply(s, run[0]), run[1..]);
    }
  }

  function Wanted(t: Txn): Row
    requires t.taken < |t.locks|
  {
    t.locks[t.taken]
  }

  predicate Waiting(t: Txn) { !t.committed && t.taken < |t.locks| }

  /** The unfinished transaction that wants the greatest row. */
  lemma {:induction false} GreatestWanted(s: System) returns (i: nat)
    requires exists t | t in s :: Waiting(t)
    ensures i < |s| && Waiting(s[i])
    ensures forall j | 0 <= j < |s| && Waiting(s[j]) :: RowLeq(Wanted(s[j]), Wanted(s[i]))
  {
    RowLeqIsTotalOrder();
    var t :| t in s && Waiting(t);
    i :| 0 <= i < |s| && s[i] == t;
    for k := 0 to |s|
      invariant i < |s| && Waiting(s[i])
      invariant forall j | 0 <= j < k && Waiting(s[j]) :: RowLeq(Wanted(s[j]), Wanted(s[i]))
    {
      if Waiting(s[k]) && !RowLeq(Wanted(s[k]), Wanted(s[i])) {
        assert RowLeq(Wanted(s[i]), Wanted(s[k]));
        i := k;
      }
    }
  }

  ghost predicate Finished(s: System) { forall t | t in s :: t.committed }

  lemma {:induction false} SomeStepEnabled(s: System)
    requires Invariant(s) && !Finished(s)
    ensures exists e :: Enabled(s, e)
  {
    var t :| t in s && !t.committed;
    var u :| 0 <= u < |s| && s[u] == t;
    if !Waiting(t) {
      assert Enabled(s, Commit(u));
    } else {
      var i := GreatestWanted(s);
      var row := Wanted(s[i]);
      if j :| 0 <= j < |s| && j != i && Holds(s[j], row) {
        if s[j].taken == |s[j].locks| {
          assert Enabled(s, Commit(j));
        } else {
          var n :| 0 <= n < s[j].taken && s[j].locks[n] == row;
          assert RowLeq(s[j].locks[n], s[j].locks[s[j].taken]);
          RowLeqAntisymmetric(row, Wanted(s[j]));
          assert Enabled(s, Acquire(j));
        }
      } else {
        assert Enabled(s, Acquire(i));
      }
    }
  }

  function StepsLeft(s: System): nat { if s == [] then 0 else Left(s[0]) + StepsLeft(s[1..]) }

  function Left(t: Txn): nat { if t.committed || t.taken > |t.locks| then 0 else |t.locks| - t.taken + 1 }

  lemma {:induction false} StepUsesOne(s: System, e: Event)
    requires Enabled(s, e)
    ensures StepsLeft(Apply(s, e)) == StepsLeft(s) - 1
  {
    StepsLeftUpdate(s, e.txn, Apply(s, e)[e.txn]);
  }

  lemma {:induction false} StepsLeftUpdate(s: System, i: nat, t: Txn)
    requires i < |s|
    ensures StepsLeft(s[i := t]) == StepsLeft(s) - Left(s[i]) + Left(t)
  {
    if i > 0 {
      StepsLeftUpdate(s[1..], i - 1, t);
      assert s[i := t][1..] == s[1..][i - 1 := t];
    } else {
      assert s[0 := t][1..] == s[1..];
    }
  }

  lemma {:induction false} RunLength(s: System, run: seq<Event>)
    requires IsRun(s, run)
    ensures StepsLeft(End(s, run)) + |run| == StepsLeft(s)
    decreases |run|
  {
    if run != [] {
      StepUsesOne(s, run[0]);
      RunLength(Apply(s, run[0]), run[1..]);
    }
  }

  lemma {:induction false} FinishedHasNoStepsLeft(s: System)
    requires forall t | t in s :: t.taken <= |t.locks|
    ensures Finished(s) <==> StepsLeft(s) == 0
  {
    if s != [] {
      assert s == [s[0]] + s[1..];
      FinishedHasNoStepsLeft(s[1..]);
      assert s[0] in s;
    }
  }

  /** One step for each line, and one for each commit. */
  function Lines(baskets: seq<seq<LockKey>>): nat {
    if baskets == [] then 0 else |baskets[0]| + 1 + Lines(baskets[1..])
  }

  lemma {:induction false} StepsAtStart(baskets: seq<seq<LockKey>>)
    ensures StepsLeft(Start(baskets)) == Lines(baskets)
  {
    if baskets != [] {
      StepsAtStart(baskets[1..]);
      StartLocks(baskets, 0);
      assert |multiset(Start(baskets)[0].locks)| == |multiset(RowsNamed(baskets[0]))|;
      assert Start(baskets)[1..] == Start(baskets[1..]);
    }
  }

  lemma {:induction false} LocksAreKept(s: System, run: seq<Event>, i: nat)
    requires IsRun(s, run) && i < |s|
    ensures i < |End(s, run)| && End(s, run)[i].locks == s[i].locks
    decreases |run|
  {
    if run != [] { LocksAreKept(Apply(s, run[0]), run[1..], i); }
  }

  /** No row is held by two transactions at once. */
  lemma {:induction false} RowsAreHeldOnce(s: System, i: nat, j: nat, m: nat, n: nat)
    requires Invariant(s) && i < |s| && j < |s| && i != j && !s[i].committed && !s[j].committed
    requires m < s[i].taken && n < s[j].taken && s[i].taken <= |s[i].locks| && s[j].taken <= |s[j].locks|
    ensures s[i].locks[m] != s[j].locks[n]
  {
    var a, b := if i < j then i else j, if i < j then j else i;
    assert s[i].locks[..s[i].taken][m] == s[i].locks[m] && s[j].locks[..s[j].taken][n] == s[j].locks[n];
    if s[i].locks[m] == s[j].locks[n] {
      assert Holds(s[a], s[i].locks[m]) && Holds(s[b], s[i].locks[m]);
    }
  }

  /** Main result on exclusion: at any time every transaction asks for its basket's rows, and no row is held twice. */
  lemma {:induction false} NoRowIsHeldTwice(baskets: seq<seq<LockKey>>, run: seq<Event>, i: nat, j: nat)
    requires IsRun(Start(baskets), run) && i < |baskets| && j < |baskets| && i != j
    ensures var s := End(Start(baskets), run);
      && |s| == |baskets| && s[i].taken <= |s[i].locks| && s[j].taken <= |s[j].locks|
      && multiset(s[i].locks) == multiset(RowsNamed(baskets[i]))
      && (!s[i].committed && !s[j].committed ==>
            forall m, n | 0 <= m < s[i].taken && 0 <= n < s[j].taken :: s[i].locks[m] != s[j].locks[n])
  {
    var s := End(Start(baskets), run);
    StartInvariant(baskets);
    RunInvariant(Start(baskets), run);
    StartLocks(baskets, i);
    LocksAreKept(Start(baskets), run, i);
    assert s[i] in s && s[j] in s;
    if !s[i].committed && !s[j].committed {
      forall m, n | 0 <= m < s[i].taken && 0 <= n < s[j].taken ensures s[i].locks[m] != s[j].locks[n] {
        RowsAreHeldOnce(s, i, j, m, n);
      }
    }
  }

  /**
   * Main result: whatever the baskets and however their transactions
   * interleave, no state with an unfinished transaction is stuck, and a run
   * has finished exactly when it has taken one step for each line and one for
   * each commit.  So every run can be extended to one that finishes, and none
   * goes on for ever.
   */
  lemma {:induction false} OrderedLocksNeverDeadlock(baskets: seq<seq<LockKey>>, run: seq<Event>)
    requires IsRun(Start(baskets), run)
    ensures var s := End(Start(baskets), run);
      && ((exists t :: t in s && !t.committed) ==> exists e :: Enabled(s, e))
      && |run| <= Lines(baskets)
      && (|run| == Lines(baskets) <==> forall t | t in s :: t.committed)
  {
    var s := End(Start(baskets), run);
    StartInvariant(baskets);
    RunInvariant(Start(baskets), run);
    RunLength(Start(baskets), run);
    StepsAtStart(baskets);
    FinishedHasNoStepsLeft(s);
    if !Finished(s) { SomeStepEnabled(s); }
  }

  /** The order is what does it: two baskets with the same two rows the other way round can block for good. */
  lemma {:induction false} UnorderedLocksCanDeadlock(a: Row, b: Row)
    requires a != b
    ensures var s := [Txn([a, b], 0, false), Txn([b, a], 0, false)];
      var run := [Acquire(0), Acquire(1)];
      && IsRun(s, run)
      && !Finished(End(s, run))
      && forall e :: !Enabled(End(s, run), e)
  {
    var s := [Txn([a, b], 0, false), Txn([b, a], 0, false)];
    var s1 := Apply(s, Acquire(0));
    assert s1 == [Txn([a, b], 1, false), Txn([b, a], 0, false)];
    assert [Acquire(0), Acquire(1)][1..] == [Acquire(1)];
    assert Enabled(s1, Acquire(1));
    var s2 := Apply(s1, Acquire(1));
    assert s2 == [Txn([a, b], 1, false), Txn([b, a], 1, false)];
    assert [Acquire(1)][1..] == [];
    assert End(s, [Acquire(0), Acquire(1)]) == s2;
    assert s2[0] in s2;
    assert Holds(s2[0], a) && Holds(s2[1], b);
  }
}
