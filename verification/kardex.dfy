/**
 * The kardex: one product's movements with a running balance, filtered and
 * paged for display, and the totals of a date range.
 */
module Kardex {
  import opened Wrappers
  import opened Arithmetic
  import opened Order
  import opened StockEngine
  import opened StockLedger

  /** When a log row was written, and its primary key. */
  datatype Stamp = Stamp(createdAt: int, id: string)

  datatype Move = Move(stamp: Stamp, row: LogRow)

  datatype Line = Line(move: Move, balance: int)

  datatype Query = Query(start: Option<int>, end: Option<int>, action: Option<Action>)

  predicate StampLeq(a: Stamp, b: Stamp) {
    a.createdAt < b.createdAt || (a.createdAt == b.createdAt && StringLeq(a.id, b.id))
  }

  predicate MoveLeq(a: Move, b: Move) { StampLeq(a.stamp, b.stamp) }

  lemma {:induction false} MoveLeqIsTotal()
    ensures TotalPreorder(MoveLeq)
    ensures forall a, b :: MoveLeq(a, b) && MoveLeq(b, a) ==> a.stamp == b.stamp
  {
    StringLeqIsTotalOrder();
  }

  // ---------- the query ----------

  function Moves(log: seq<LogRow>, stamps: seq<Stamp>, product: Id): seq<Move>
    requires |log| == |stamps|
  {
    if log == [] then []
    else
      (if log[0].key.product == product then [Move(stamps[0], log[0])] else [])
      + Moves(log[1..], stamps[1..], product)
  }

  /** The window sum, over movements already in time order. */
  function Balances(moves: seq<Move>, opening: int): seq<Line> {
    if moves == [] then []
    else
      var balance := opening + Signed(moves[0].row);
      [Line(moves[0], balance)] + Balances(moves[1..], balance)
  }

  predicate InRange(q: Query, m: Move) {
    (q.start.Some? ==> q.start.value <= m.stamp.createdAt) && (q.end.Some? ==> m.stamp.createdAt <= q.end.value)
  }

  predicate Shown(q: Query, m: Move) {
    InRange(q, m) && (q.action.Some? ==> m.row.action == q.action.value)
  }

  /** The lines that pass the filter, newest first. */
  function NewestFirst(lines: seq<Line>, q: Query): seq<Line> {
    if lines == [] then []
    else NewestFirst(lines[1..], q) + (if Shown(q, lines[0].move) then [lines[0]] else [])
  }

  function Lines(moves: seq<Move>, q: Query): seq<Line> {
    NewestFirst(Balances(SortBy(moves, MoveLeq), 0), q)
  }

  function PageNumber(page: int): nat { if page < 1 then 1 else page }

  function PageSize(limit: int): (n: nat)
    ensures 1 <= n <= 10000
  {
    var asked := if limit == 0 then 50 else limit;
    if asked < 1 then 1 else if asked > 10000 then 10000 else asked
  }

  function Clip(n: int, bound: nat): nat { if n < 0 then 0 else if n > bound then bound else n }

  function Page(lines: seq<Line>, page: int, limit: int): seq<Line> {
    var skip := (PageNumber(page) - 1) * PageSize(limit);
    lines[Clip(skip, |lines|)..Clip(skip + PageSize(limit), |lines|)]
  }

  function LastPage(total: nat, limit: int): nat {
    var pages := (total + PageSize(limit) - 1) / PageSize(limit);
    if pages < 1 then 1 else pages
  }

  // ---------- sums over movements ----------

  function SumBy(moves: seq<Move>, f: Move -> int): int {
    if moves == [] then 0 else f(moves[0]) + SumBy(moves[1..], f)
  }

  lemma {:induction false} SumByInsert(m: Move, moves: seq<Move>, f: Move -> int)
    ensures SumBy(InsertBy(m, moves, MoveLeq), f) == f(m) + SumBy(moves, f)
  {
    if moves != [] && !MoveLeq(m, moves[0]) {
      SumByInsert(m, moves[1..], f);
    }
  }

  lemma {:induction false} SumBySort(moves: seq<Move>, f: Move -> int)
    ensures SumBy(SortBy(moves, MoveLeq), f) == SumBy(moves, f)
  {
    if moves != [] {
      SumBySort(moves[1..], f);
      SumByInsert(moves[0], SortBy(moves[1..], MoveLeq), f);
    }
  }

  lemma {:induction false} SumByMinus(moves: seq<Move>, f: Move -> int, g: Move -> int, h: Move -> int)
    requires forall m | m in moves :: f(m) - g(m) == h(m)
    ensures SumBy(moves, f) - SumBy(moves, g) == SumBy(moves, h)
  {
    if moves != [] {
      assert moves[0] in moves;
      SumByMinus(moves[1..], f, g, h);
    }
  }

  function Everything(): Move -> int { (m: Move) => Signed(m.row) }

  function UpTo(stamp: Stamp): Move -> int {
    (m: Move) =>
      if m.stamp.createdAt < stamp.createdAt
         || (m.stamp.createdAt == stamp.createdAt && StringLeq(m.stamp.id, stamp.id))
      then Signed(m.row) else 0
  }

  function Before(start: Option<int>): Move -> int {
    (m: Move) => if start.Some? && m.stamp.createdAt < start.value then Signed(m.row) else 0
  }

  function Until(end: Option<int>): Move -> int {
    (m: Move) => if end.None? || m.stamp.createdAt <= end.value then Signed(m.row) else 0
  }

  function Inbound(q: Query): Move -> int {
    (m: Move) => if InRange(q, m) && Signed(m.row) > 0 then Signed(m.row) else 0
  }

  function Outbound(q: Query): Move -> int {
    (m: Move) => if InRange(q, m) && Signed(m.row) < 0 then -Signed(m.row) else 0
  }

  // ---------- balances ----------

  /** No two rows share a primary key. */
  predicate DistinctStamps(moves: seq<Move>) {
    forall i, j | 0 <= i < j < |moves| :: moves[i].stamp != moves[j].stamp
  }

  lemma {:induction false} MovesHaveStamps(log: seq<LogRow>, stamps: seq<Stamp>, product: Id)
    requires |log| == |stamps|
    ensures forall m | m in Moves(log, stamps, product) :: m.stamp in stamps
  {
    if log != [] {
      MovesHaveStamps(log[1..], stamps[1..], product);
      assert stamps == [stamps[0]] + stamps[1..];
    }
  }

  lemma {:induction false} ConsKeepsStamps(m: Move, moves: seq<Move>)
    requires DistinctStamps(moves) && forall x | x in moves :: x.stamp != m.stamp
    ensures DistinctStamps([m] + moves)
  {
    var all := [m] + moves;
    forall i, j | 0 <= i < j < |all| ensures all[i].stamp != all[j].stamp {
      assert all[j] == moves[j - 1] && moves[j - 1] in moves;
      assert i > 0 ==> all[i] == moves[i - 1];
    }
  }

  lemma {:induction false} MovesAreStamped(log: seq<LogRow>, stamps: seq<Stamp>, product: Id)
    requires |log| == |stamps| && Distinct(stamps)
    ensures DistinctStamps(Moves(log, stamps, product))
  {
    if log != [] {
      var rest := Moves(log[1..], stamps[1..], product);
      MovesAreStamped(log[1..], stamps[1..], product);
      MovesHaveStamps(log[1..], stamps[1..], product);
      forall x | x in rest ensures x.stamp != stamps[0] {
        var i :| 0 <= i < |stamps[1..]| && stamps[1..][i] == x.stamp;
        assert stamps[i + 1] == x.stamp;
      }
      ConsKeepsStamps(Move(stamps[0], log[0]), rest);
      assert [] + rest == rest;
    }
  }

  lemma {:induction false} MovesSum(log: seq<LogRow>, stamps: seq<Stamp>, product: Id)
    requires |log| == |stamps|
    ensures SumBy(Moves(log, stamps, product), Everything()) == ProductSum(log, product)
  {
    if log != [] {
      var rest := Moves(log[1..], stamps[1..], product);
      MovesSum(log[1..], stamps[1..], product);
      if log[0].key.product == product {
        assert Moves(log, stamps, product)[1..] == rest;
      } else {
        assert Moves(log, stamps, product) == rest;
      }
    }
  }

  lemma {:induction false} InsertKeepsStamps(m: Move, moves: seq<Move>)
    requires DistinctStamps(moves) && forall x | x in moves :: x.stamp != m.stamp
    ensures DistinctStamps(InsertBy(m, moves, MoveLeq))
    ensures forall x :: x in InsertBy(m, moves, MoveLeq) <==> x == m || x in moves
  {
    if moves != [] && !MoveLeq(m, moves[0]) {
      InsertKeepsStamps(m, moves[1..]);
      assert moves == [moves[0]] + moves[1..];
      forall x | x in InsertBy(m, moves[1..], MoveLeq) ensures x.stamp != moves[0].stamp {}
    }
  }

  lemma {:induction false} SortKeepsMoves(moves: seq<Move>)
    requires DistinctStamps(moves)
    ensures DistinctStamps(SortBy(moves, MoveLeq)) && forall m :: m in SortBy(moves, MoveLeq) <==> m in moves
  {
    if moves != [] {
      var rest := SortBy(moves[1..], MoveLeq);
      SortKeepsMoves(moves[1..]);
      assert moves == [moves[0]] + moves[1..];
      forall x | x in rest ensures x.stamp != moves[0].stamp {
        var i :| 0 <= i < |moves[1..]| && moves[1..][i] == x;
        assert moves[i + 1] == x;
      }
      InsertKeepsStamps(moves[0], rest);
    }
  }

  lemma {:induction false} SortKeepsStamps(moves: seq<Move>)
    requires DistinctStamps(moves)
    ensures var s := SortBy(moves, MoveLeq);
      && Sorted(s, MoveLeq) && DistinctStamps(s) && |s| == |moves|
      && forall m :: m in s <==> m in moves
  {
    MoveLeqIsTotal();
    SortByCorrect(moves, MoveLeq);
    SortKeepsMoves(moves);
  }

  lemma {:induction false} NothingUpTo(moves: seq<Move>, stamp: Stamp)
    requires forall m | m in moves :: !StampLeq(m.stamp, stamp)
    ensures SumBy(moves, UpTo(stamp)) == 0
  {
    if moves != [] {
      assert moves[0] in moves;
      NothingUpTo(moves[1..], stamp);
    }
  }

  /** In time order, the balance at a line is the opening plus all that is not later. */
  lemma {:induction false} BalanceInOrder(moves: seq<Move>, opening: int, i: nat)
    requires Sorted(moves, MoveLeq) && DistinctStamps(moves) && i < |moves|
    ensures |Balances(moves, opening)| == |moves|
    ensures Balances(moves, opening)[i].move == moves[i]
    ensures Balances(moves, opening)[i].balance == opening + SumBy(moves, UpTo(moves[i].stamp))
  {
    MoveLeqIsTotal();
    BalancesLength(moves, opening);
    if i == 0 {
      forall m | m in moves[1..] ensures !StampLeq(m.stamp, moves[0].stamp) {
        var j :| 1 <= j < |moves| && moves[j] == m;
        assert MoveLeq(moves[0], moves[j]);
      }
      NothingUpTo(moves[1..], moves[0].stamp);
      assert MoveLeq(moves[0], moves[0]);
    } else {
      BalanceInOrder(moves[1..], opening + Signed(moves[0].row), i - 1);
      assert MoveLeq(moves[0], moves[i]);
    }
  }

  lemma {:induction false} BalancesLength(moves: seq<Move>, opening: int)
    ensures |Balances(moves, opening)| == |moves|
  {
    if moves != [] { BalancesLength(moves[1..], opening + Signed(moves[0].row)); }
  }

  lemma {:induction false} NewestFirstMembers(lines: seq<Line>, q: Query, line: Line)
    ensures line in NewestFirst(lines, q) <==> line in lines && Shown(q, line.move)
  {
    if lines != [] {
      NewestFirstMembers(lines[1..], q, line);
      assert lines == [lines[0]] + lines[1..];
    }
  }

  /**
   * Main result on balances: whatever dates and action are filtered, a line
   * that is shown carries the signed sum of all the product's movements up to
   * it.  So its balance is the same under every filter and on every page.
   */
  lemma {:induction false} BalanceIgnoresFilter(moves: seq<Move>, q: Query, line: Line)
    requires DistinctStamps(moves)
    ensures line in Lines(moves, q)
            <==> && line.move in moves
                 && (q.start.Some? ==> q.start.value <= line.move.stamp.createdAt)
                 && (q.end.Some? ==> line.move.stamp.createdAt <= q.end.value)
                 && (q.action.Some? ==> line.move.row.action == q.action.value)
                 && line.balance == SumBy(moves, UpTo(line.move.stamp))
  {
    var sorted := SortBy(moves, MoveLeq);
    var all := Balances(sorted, 0);
    SortKeepsStamps(moves);
    NewestFirstMembers(all, q, line);
    SumBySort(moves, UpTo(line.move.stamp));
    BalancesLength(sorted, 0);
    if line in all {
      var i :| 0 <= i < |all| && all[i] == line;
      BalanceInOrder(sorted, 0, i);
    }
    if line.move in moves && line.balance == SumBy(moves, UpTo(line.move.stamp)) {
      var i :| 0 <= i < |sorted| && sorted[i] == line.move;
      BalanceInOrder(sorted, 0, i);
      assert all[i] == line;
    }
  }

  predicate Earlier(a: Move, b: Move) { MoveLeq(a, b) && a.stamp != b.stamp }

  lemma {:induction false} NewestFirstOrder(lines: seq<Line>, q: Query)
    requires forall i, j | 0 <= i < j < |lines| :: Earlier(lines[i].move, lines[j].move)
    ensures Descending(NewestFirst(lines, q))
  {
    if lines != [] {
      NewestFirstOrder(lines[1..], q);
      var rest := NewestFirst(lines[1..], q);
      forall i | 0 <= i < |rest| ensures Earlier(lines[0].move, rest[i].move) {
        NewestFirstMembers(lines[1..], q, rest[i]);
      }
    }
  }

  /** Each line is strictly later than the next. */
  ghost predicate Descending(lines: seq<Line>) {
    forall i, j | 0 <= i < j < |lines| :: Earlier(lines[j].move, lines[i].move)
  }

  /** By time, and at the same time by primary key. */
  lemma {:induction false} LinesAreNewestFirst(moves: seq<Move>, q: Query, i: nat, j: nat)
    requires DistinctStamps(moves) && i < j < |Lines(moves, q)|
    ensures var a, b := Lines(moves, q)[i].move.stamp, Lines(moves, q)[j].move.stamp;
      a.createdAt > b.createdAt || (a.createdAt == b.createdAt && StringLeq(b.id, a.id) && a.id != b.id)
  {
    LinesDescend(moves, q);
    assert Earlier(Lines(moves, q)[j].move, Lines(moves, q)[i].move);
  }

  lemma {:induction false} LinesDescend(moves: seq<Move>, q: Query)
    requires DistinctStamps(moves)
    ensures Descending(Lines(moves, q))
  {
    var sorted := SortBy(moves, MoveLeq);
    var all := Balances(sorted, 0);
    SortKeepsStamps(moves);
    BalancesLength(sorted, 0);
    forall i, j | 0 <= i < j < |all| ensures Earlier(all[i].move, all[j].move) {
      BalanceInOrder(sorted, 0, i);
      BalanceInOrder(sorted, 0, j);
      assert MoveLeq(sorted[i], sorted[j]);
    }
    NewestFirstOrder(all, q);
  }

  lemma {:induction false} SumByEqual(moves: seq<Move>, f: Move -> int, g: Move -> int)
    requires forall m | m in moves :: f(m) == g(m)
    ensures SumBy(moves, f) == SumBy(moves, g)
  {
    if moves != [] {
      assert moves[0] in moves;
      SumByEqual(moves[1..], f, g);
    }
  }

  /** The newest line of a date range carries the range's closing balance. */
  lemma {:induction false} NewestLineCloses(moves: seq<Move>, q: Query)
    requires DistinctStamps(moves) && q.action.None?
    requires Lines(moves, q) != []
    ensures Lines(moves, q)[0].balance == SumBy(moves, Until(q.end))
  {
    var top := Lines(moves, q)[0];
    BalanceIgnoresFilter(moves, q, top);
    LinesDescend(moves, q);
    MoveLeqIsTotal();
    forall m | m in moves ensures UpTo(top.move.stamp)(m) == Until(q.end)(m) {
      if Shown(q, m) {
        var line := Line(m, SumBy(moves, UpTo(m.stamp)));
        BalanceIgnoresFilter(moves, q, line);
        var i :| 0 <= i < |Lines(moves, q)| && Lines(moves, q)[i] == line;
        assert i == 0 || Earlier(Lines(moves, q)[i].move, Lines(moves, q)[0].move);
        assert StringLeq(m.stamp.id, m.stamp.id) by { StringLeqTotal(m.stamp.id, m.stamp.id); }
      }
    }
    SumByEqual(moves, UpTo(top.move.stamp), Until(q.end));
  }

  /**
   * Main result against the stock table: with no filter, the newest balance is
   * the product's stock summed over all locations.
   */
  lemma {:induction false} NewestBalanceIsStock(s: State, stamps: seq<Stamp>, product: Id)
    requires Agrees(s) && |stamps| == |s.log| && Distinct(stamps)
    ensures var lines := Lines(Moves(s.log, stamps, product), Query(None, None, None));
      Total(s.inventory, product) == if lines == [] then 0 else lines[0].balance
  {
    var moves := Moves(s.log, stamps, product);
    var q := Query(None, None, None);
    MovesAreStamped(s.log, stamps, product);
    MovesSum(s.log, stamps, product);
    TotalIsProductSum(s, product);
    if Lines(moves, q) == [] {
      if moves != [] {
        BalanceIgnoresFilter(moves, q, Line(moves[0], SumBy(moves, UpTo(moves[0].stamp))));
      }
    } else {
      NewestLineCloses(moves, q);
      SumByEqual(moves, Until(None), Everything());
    }
  }

  /** So it is after any calls from empty tables. */
  lemma {:induction false} KardexMatchesStock(calls: seq<Call>, stamps: seq<Stamp>, product: Id)
    requires |stamps| == |Run(EMPTY, calls).log| && Distinct(stamps)
    ensures var s := Run(EMPTY, calls);
      var lines := Lines(Moves(s.log, stamps, product), Query(None, None, None));
      Total(s.inventory, product) == if lines == [] then 0 else lines[0].balance
  {
    RunAgrees(EMPTY, calls);
    NewestBalanceIsStock(Run(EMPTY, calls), stamps, product);
  }

  // ---------- the totals of a range ----------

  /** The movements between the two ends of a reversed range, ends excluded. */
  function Gap(q: Query): Move -> int {
    (m: Move) =>
      if q.start.Some? && q.end.Some? && q.end.value < m.stamp.createdAt < q.start.value then Signed(m.row) else 0
  }

  function Net(q: Query): Move -> int { (m: Move) => if InRange(q, m) then Signed(m.row) else 0 }

  predicate SummaryIsChange(moves: seq<Move>, q: Query) {
    SumBy(moves, Inbound(q)) - SumBy(moves, Outbound(q)) == SumBy(moves, Until(q.end)) - SumBy(moves, Before(q.start))
  }

  /** Opening plus what the summary reports is closing, up to the movements in the gap of a reversed range. */
  lemma {:induction false} SummaryUpToGap(moves: seq<Move>, q: Query)
    ensures SumBy(moves, Inbound(q)) - SumBy(moves, Outbound(q))
            == SumBy(moves, Until(q.end)) - SumBy(moves, Before(q.start)) + SumBy(moves, Gap(q))
    ensures SummaryIsChange(moves, q) <==> SumBy(moves, Gap(q)) == 0
  {
    var change := (m: Move) => Until(q.end)(m) - Before(q.start)(m);
    SumByMinus(moves, Inbound(q), Outbound(q), Net(q));
    SumByMinus(moves, Until(q.end), Before(q.start), change);
    SumByMinus(moves, Net(q), Gap(q), change);
  }

  /** A range in which no movement can fall between a later start and an earlier end. */
  predicate NoGap(q: Query) { q.start.None? || q.end.None? || q.start.value <= q.end.value + 1 }

  /** Over any range without gap, total in minus total out is the closing balance minus the opening balance. */
  lemma {:induction false} SummaryIsBalanceChange(moves: seq<Move>, q: Query)
    requires NoGap(q)
    ensures SummaryIsChange(moves, q)
  {
    var none := (m: Move) => 0;
    SummaryUpToGap(moves, q);
    SumByEqual(moves, Gap(q), none);
    SumByMinus(moves, none, none, none);
  }

  /** One entry just after the end of the range. */
  function JustAfter(end: int): Move { Move(Stamp(end + 1, "x"), LogRow(Key("p", "l"), 1, IN, None)) }

  lemma {:induction false} GapIsMissed(q: Query)
    requires !NoGap(q)
    ensures !SummaryIsChange([JustAfter(q.end.value)], q)
  {
    var m := JustAfter(q.end.value);
    assert [m][1..] == [];
    SummaryUpToGap([m], q);
    assert SumBy([m], Gap(q)) == Gap(q)(m) + SumBy([], Gap(q)) == 1;
  }

  /** Main result on the summary: it is the change of the balance for every history exactly if the range has no gap. */
  lemma {:induction false} SummaryIsBalanceChangeIff(q: Query)
    ensures (forall moves :: SummaryIsChange(moves, q)) <==> NoGap(q)
  {
    if NoGap(q) {
      forall moves ensures SummaryIsChange(moves, q) { SummaryIsBalanceChange(moves, q); }
    } else {
      GapIsMissed(q);
    }
  }

  /** A date range, written out. */
  function Ranged(q: Query, f: Move -> int): Move -> int {
    (m: Move) =>
      if (q.start.Some? ==> q.start.value <= m.stamp.createdAt) && (q.end.Some? ==> m.stamp.createdAt <= q.end.value)
      then f(m) else 0
  }

  /** Each total on its own: what came in adds up to the range's positive movements, what went out to the negative. */
  lemma {:induction false} TotalsAre(moves: seq<Move>, q: Query)
    ensures SumBy(moves, Inbound(q))
            == SumBy(moves, Ranged(q, (m: Move) => if Signed(m.row) > 0 then Signed(m.row) else 0))
    ensures SumBy(moves, Outbound(q))
            == SumBy(moves, Ranged(q, (m: Move) => if Signed(m.row) < 0 then -Signed(m.row) else 0))
  {
    SumByEqual(moves, Inbound(q), Ranged(q, (m: Move) => if Signed(m.row) > 0 then Signed(m.row) else 0));
    SumByEqual(moves, Outbound(q), Ranged(q, (m: Move) => if Signed(m.row) < 0 then -Signed(m.row) else 0));
  }

  function SumOver(lines: seq<Line>, f: Move -> int): int {
    if lines == [] then 0 else f(lines[0].move) + SumOver(lines[1..], f)
  }

  lemma {:induction false} SumOverConcat(a: seq<Line>, b: seq<Line>, f: Move -> int)
    ensures SumOver(a + b, f) == SumOver(a, f) + SumOver(b, f)
  {
    if a == [] {
      assert a + b == b;
    } else {
      assert (a + b)[1..] == a[1..] + b;
      SumOverConcat(a[1..], b, f);
    }
  }

  lemma {:induction false} SumOverShown(moves: seq<Move>, opening: int, q: Query, f: Move -> int)
    requires q.action.None?
    ensures SumOver(NewestFirst(Balances(moves, opening), q), f) == SumBy(moves, Ranged(q, f))
  {
    if moves != [] {
      var balance := opening + Signed(moves[0].row);
      var line := Line(moves[0], balance);
      var last := if Shown(q, moves[0]) then [line] else [];
      SumOverShown(moves[1..], balance, q, f);
      assert Balances(moves, opening)[1..] == Balances(moves[1..], balance);
      SumOverConcat(NewestFirst(Balances(moves[1..], balance), q), last, f);
      assert [line][1..] == [];
    }
  }

  /**
   * Main result on the two totals: they are the sums of the positive and of the
   * negated negative quantities in the lines of the range, over all its pages.
   */
  lemma {:induction false} TotalsAddUpLines(moves: seq<Move>, q: Query)
    requires q.action.None?
    ensures SumBy(moves, Inbound(q))
            == SumOver(Lines(moves, q), (m: Move) => if Signed(m.row) > 0 then Signed(m.row) else 0)
    ensures SumBy(moves, Outbound(q))
            == SumOver(Lines(moves, q), (m: Move) => if Signed(m.row) < 0 then -Signed(m.row) else 0)
  {
    var ins := (m: Move) => if Signed(m.row) > 0 then Signed(m.row) else 0;
    var outs := (m: Move) => if Signed(m.row) < 0 then -Signed(m.row) else 0;
    TotalsAre(moves, q);
    SumOverShown(SortBy(moves, MoveLeq), 0, q, ins);
    SumOverShown(SortBy(moves, MoveLeq), 0, q, outs);
    SumBySort(moves, Ranged(q, ins));
    SumBySort(moves, Ranged(q, outs));
    SumByEqual(moves, Inbound(q), Ranged(q, ins));
    SumByEqual(moves, Outbound(q), Ranged(q, outs));
  }

  /** Over a reversed range both totals are zero, whatever happened in between. */
  lemma {:induction false} ReversedRangeIsEmpty(moves: seq<Move>, q: Query)
    requires q.start.Some? && q.end.Some? && q.start.value > q.end.value
    ensures SumBy(moves, Inbound(q)) == 0 == SumBy(moves, Outbound(q)) && Lines(moves, q) == []
  {
    var none := (m: Move) => 0;
    SumByEqual(moves, Inbound(q), none);
    SumByEqual(moves, Outbound(q), none);
    SumByMinus(moves, none, none, none);
    if Lines(moves, q) != [] {
      NewestFirstMembers(Balances(SortBy(moves, MoveLeq), 0), q, Lines(moves, q)[0]);
    }
  }

  // ---------- pages ----------

  function Pages(lines: seq<Line>, limit: int, from: nat, to: nat): seq<Line>
    requires from <= to
    decreases if from < to then to - from else 0
  {
    if from == to then [] else Page(lines, from + 1, limit) + Pages(lines, limit, from + 1, to)
  }

  /** Fifty lines by default, at least one, at most ten thousand; there is no page before the first. */
  lemma {:induction false} PageHolds(lines: seq<Line>, page: int, limit: int, i: nat)
    ensures var size := if limit == 0 then 50 else if limit < 0 then 1 else if limit > 10000 then 10000 else limit;
      var n := (if page <= 1 then 0 else page - 1) * size + i;
      && |Page(lines, page, limit)| <= size
      && (i < |Page(lines, page, limit)| <==> i < size && n < |lines|)
      && (i < |Page(lines, page, limit)| && n < |lines| ==> Page(lines, page, limit)[i] == lines[n])
  {
    TimesMonotone(0, PageNumber(page) - 1, PageSize(limit));
  }

  /** The last page is the first one if there are no lines, and otherwise the last that has any. */
  lemma {:induction false} LastPageHasLines(total: nat, limit: int)
    ensures var last := LastPage(total, limit);
      last >= 1 && total <= last * PageSize(limit) && (last > 1 ==> (last - 1) * PageSize(limit) < total)
  {
    var n := PageSize(limit);
    var pages := (total + n - 1) / n;
    assert pages * n + (total + n - 1) % n == total + n - 1;
    TimesNext(pages - 1, n);
    LastPageCovers(total, limit);
  }

  /** Where a page begins, counted from zero. */
  function PageStart(lines: seq<Line>, limit: int, from: nat): (n: nat)
    ensures n <= |lines|
  {
    Clip(from * PageSize(limit), |lines|)
  }

  lemma {:induction false} NextPage(lines: seq<Line>, limit: int, from: nat)
    ensures PageStart(lines, limit, from) <= PageStart(lines, limit, from + 1)
    ensures Page(lines, from + 1, limit) == lines[PageStart(lines, limit, from)..PageStart(lines, limit, from + 1)]
  {
    TimesNext(from, PageSize(limit));
  }

  lemma {:induction false} SliceJoin(lines: seq<Line>, a: nat, b: nat)
    requires a <= b <= |lines|
    ensures lines[a..b] + lines[b..] == lines[a..]
  {
  }

  lemma {:induction false} PagesFrom(lines: seq<Line>, limit: int, from: nat, to: nat)
    requires from <= to && PageStart(lines, limit, to) == |lines|
    ensures Pages(lines, limit, from, to) == lines[PageStart(lines, limit, from)..]
    decreases if from < to then to - from else 0
  {
    if from < to {
      NextPage(lines, limit, from);
      PagesFrom(lines, limit, from + 1, to);
      SliceJoin(lines, PageStart(lines, limit, from), PageStart(lines, limit, from + 1));
    }
  }

  lemma {:induction false} LastPageCovers(total: nat, limit: int)
    ensures LastPage(total, limit) * PageSize(limit) >= total
  {
    var n := PageSize(limit);
    var pages := (total + n - 1) / n;
    assert pages * n + (total + n - 1) % n == total + n - 1;
    TimesMonotone(pages, LastPage(total, limit), n);
  }

  /** The pages from the first to the last, one after another, are the whole list. */
  lemma {:induction false} PagesCoverLines(lines: seq<Line>, limit: int)
    ensures Pages(lines, limit, 0, LastPage(|lines|, limit)) == lines
  {
    LastPageCovers(|lines|, limit);
    PagesFrom(lines, limit, 0, LastPage(|lines|, limit));
    assert lines[0..] == lines;
  }

  // ---------- photos by movement ----------

  datatype Asset = Asset(id: Id, logId: Option<Id>)

  function PhotosOf(assets: seq<Asset>, log: Id): seq<Asset> {
    if assets == [] then []
    else PhotosOf(assets[..|assets| - 1], log)
         + (if assets[|assets| - 1].logId == Some(log) then [assets[|assets| - 1]] else [])
  }

  /** They are the photos of that movement, in the order of the list. */
  lemma {:induction false} PhotosAreFiltered(assets: seq<Asset>, log: Id)
    ensures PhotosOf(assets, log) == Filter(assets, (a: Asset) => a.logId == Some(log))
  {
    if assets != [] {
      var front, last := assets[..|assets| - 1], assets[|assets| - 1];
      PhotosAreFiltered(front, log);
      FilterConcat(front, [last], (a: Asset) => a.logId == Some(log));
      assert assets == front + [last] && [last][1..] == [];
    }
  }

  /** The photos listed under a movement. */
  function GroupAt(groups: map<Id, seq<Asset>>, log: Id): seq<Asset> { if log in groups then groups[log] else [] }

  lemma {:induction false} NextPhoto(assets: seq<Asset>, i: nat, log: Id)
    requires i < |assets|
    ensures PhotosOf(assets[..i + 1], log)
            == PhotosOf(assets[..i], log) + (if assets[i].logId == Some(log) then [assets[i]] else [])
  {
    assert assets[..i + 1][..i] == assets[..i];
  }

  /** Groups photos by log row; each group keeps the order of the list. */
  method AssetsByLog(assets: seq<Asset>) returns (groups: map<Id, seq<Asset>>)
    ensures forall log :: GroupAt(groups, log) == PhotosOf(assets, log)
  {
    groups := map[];
    for i := 0 to |assets|
      invariant forall log :: GroupAt(groups, log) == PhotosOf(assets[..i], log)
    {
      var a := assets[i];
      forall log
        ensures PhotosOf(assets[..i + 1], log) == GroupAt(groups, log) + (if a.logId == Some(log) then [a] else []) {
        NextPhoto(assets, i, log);
      }
      if a.logId.None? { continue; }
      groups := groups[a.logId.value := GroupAt(groups, a.logId.value) + [a]];
    }
    assert assets[..|assets|] == assets;
  }
}
