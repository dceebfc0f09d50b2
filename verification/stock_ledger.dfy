/**
 * What holds of the stock table and the movement log over every run of the
 * engine: they agree under the sign decoding that the kardex uses, stock that
 * is never oversold stays non-negative, and an entry clears recorded shortages.
 */
module StockLedger {
  import opened Wrappers
  import opened Order
  import opened StockEngine
  import opened Sums

  /** The sign that the kardex query gives to a log row (its CASE, null notes included). */
  function Signed(row: LogRow): int {
    match row.action
    case IN => row.quantity
    case RETURN => row.quantity
    case OUT => -row.quantity
    case SALE => -row.quantity
    case ADJUST => row.quantity
    case TRANSFER =>
      if row.note.Some? && "TRANSFER IN" <= row.note.value then row.quantity
      else if row.note.Some? && "TRANSFER OUT" <= row.note.value then -row.quantity
      else row.quantity
  }

  function LedgerSum(log: seq<LogRow>, k: Key): int {
    if log == [] then 0
    else (if log[0].key == k then Signed(log[0]) else 0) + LedgerSum(log[1..], k)
  }

  lemma {:induction false} LedgerSumConcat(a: seq<LogRow>, b: seq<LogRow>, k: Key)
    ensures LedgerSum(a + b, k) == LedgerSum(a, k) + LedgerSum(b, k)
  {
    if a == [] {
      assert a + b == b;
    } else {
      assert (a + b)[1..] == a[1..] + b;
      LedgerSumConcat(a[1..], b, k);
    }
  }

  /** Every stock row equals the signed sum of its log rows, and every log row has a stock row. */
  ghost predicate Agrees(s: State) {
    && (forall k :: Qty(s.inventory, k) == LedgerSum(s.log, k))
    && (forall row | row in s.log :: row.key in s.inventory)
  }

  // ---------- one step ----------

  lemma {:induction false} ClearingRowsSum(inventory: map<Key, int>, product: Id, locations: seq<Id>,
                                           note: string, k: Key)
    requires Distinct(locations)
    ensures LedgerSum(ClearingRows(inventory, product, locations, note), k)
            == if k.product == product && k.location in locations then -Qty(inventory, k) else 0
  {
    var rows := ClearingRows(inventory, product, locations, note);
    if locations != [] {
      assert rows[1..] == ClearingRows(inventory, product, locations[1..], note);
      ClearingRowsSum(inventory, product, locations[1..], note, k);
      assert locations == [locations[0]] + locations[1..];
      assert locations[0] !in locations[1..];
    }
  }

  lemma {:induction false} ClearedAgrees(t: Tables, s: State, r: Request)
    requires Agrees(s)
    ensures Agrees(Cleared(t, s, r))
    ensures forall k :: k in s.inventory <==> k in Cleared(t, s, r).inventory
  {
    if r.location in t.warehouses {
      var ids := SortedIds(NegativeLocations(t, s.inventory, r.product, t.warehouses[r.location]));
      var rows := ClearingRows(s.inventory, r.product, ids, ClearingNote(r.note));
      forall k ensures Qty(Cleared(t, s, r).inventory, k) == LedgerSum(s.log + rows, k) {
        LedgerSumConcat(s.log, rows, k);
        ClearingRowsSum(s.inventory, r.product, ids, ClearingNote(r.note), k);
      }
      forall row | row in rows ensures row.key in s.inventory {
        var i :| 0 <= i < |rows| && rows[i] == row;
        assert ids[i] in ids;
      }
    }
  }

  /** Appending rows that account for exactly the changed quantities keeps the agreement. */
  lemma {:induction false} AppendAgrees(s: State, inventory: map<Key, int>, rows: seq<LogRow>)
    requires Agrees(s)
    requires forall k :: Qty(inventory, k) == Qty(s.inventory, k) + LedgerSum(rows, k)
    requires forall k | k in s.inventory :: k in inventory
    requires forall row | row in rows :: row.key in inventory
    ensures Agrees(State(inventory, s.log + rows))
  {
    forall k ensures Qty(inventory, k) == LedgerSum(s.log + rows, k) {
      LedgerSumConcat(s.log, rows, k);
    }
  }

  lemma {:induction false} TransferNotesDecode(a: Id, b: Id)
    ensures "TRANSFER OUT" <= OutNote(b).value && !("TRANSFER IN" <= OutNote(b).value)
    ensures "TRANSFER IN" <= InNote(a).value
  {
    assert OutNote(b).value[9] == 'O';
  }

  lemma {:induction false} OneRowSum(row: LogRow, k: Key)
    ensures LedgerSum([row], k) == if row.key == k then Signed(row) else 0
  {
    assert [row][1..] == [];
  }

  /** A call that changes one row and logs one movement of the same size agrees. */
  lemma {:induction false} OneRowAgrees(s: State, row: LogRow)
    requires Agrees(s)
    ensures Agrees(State(s.inventory[row.key := Qty(s.inventory, row.key) + Signed(row)], s.log + [row]))
  {
    var inventory := s.inventory[row.key := Qty(s.inventory, row.key) + Signed(row)];
    forall k ensures Qty(inventory, k) == Qty(s.inventory, k) + LedgerSum([row], k) {
      OneRowSum(row, k);
    }
    AppendAgrees(s, inventory, [row]);
  }

  lemma {:induction false} EntryAgrees(t: Tables, s: State, r: Request)
    requires Agrees(s) && r.quantity.Whole?
    ensures Agrees(Entry(t, s, r).state)
  {
    if Clears(r) { ClearedAgrees(t, s, r); }
    OneRowAgrees(if Clears(r) then Cleared(t, s, r) else s,
                 LogRow(r.Source(), r.quantity.n, if r.kind == Return then RETURN else IN, r.note));
  }

  lemma {:induction false} WithdrawalAgrees(s: State, r: Request)
    requires Agrees(s) && r.quantity.Whole?
    ensures var o := Withdrawal(s, r); o.Done? ==> Agrees(o.state)
  {
    OneRowAgrees(s, LogRow(r.Source(), r.quantity.n, if r.kind == Sale then SALE else OUT, r.note));
  }

  /** The two rows of a transfer are one withdrawal and one entry, told apart by their notes only. */
  lemma {:induction false} RelocationAgrees(s: State, r: Request)
    requires Agrees(s) && r.quantity.Whole?
    ensures var o := Relocation(s, r); o.Done? ==> Agrees(o.state)
  {
    var o := Relocation(s, r);
    if o.Done? {
      var to := Key(r.product, r.toLocation.value);
      var out := LogRow(r.Source(), r.quantity.n, TRANSFER, OutNote(to.location));
      var entry := LogRow(to, r.quantity.n, TRANSFER, InNote(r.location));
      TransferNotesDecode(r.location, to.location);
      OneRowAgrees(s, out);
      OneRowAgrees(State(s.inventory[out.key := Qty(s.inventory, out.key) + Signed(out)], s.log + [out]), entry);
      assert s.log + [out, entry] == s.log + [out] + [entry];
    }
  }

  lemma {:induction false} AdjustmentAgrees(s: State, r: Request)
    requires Agrees(s) && r.targetQuantity.Whole?
    ensures Agrees(Adjustment(s, r).state)
  {
    var diff := r.targetQuantity.n - Qty(s.inventory, r.Source());
    if diff == 0 {
      AppendAgrees(s, Adjustment(s, r).state.inventory, []);
    } else {
      OneRowAgrees(s, LogRow(r.Source(), diff, ADJUST, r.note));
    }
  }

  /** Each call, of any kind and with any arguments, keeps table and log in agreement. */
  lemma {:induction false} StepAgrees(t: Tables, s: State, r: Request)
    requires Agrees(s)
    ensures var o := Step(t, s, r); o.Done? ==> Agrees(o.state)
  {
    if Step(t, s, r).Done? {
      match r.kind
      case In => EntryAgrees(t, s, r);
      case Return => EntryAgrees(t, s, r);
      case Out => WithdrawalAgrees(s, r);
      case Sale => WithdrawalAgrees(s, r);
      case Transfer => RelocationAgrees(s, r);
      case Adjust => AdjustmentAgrees(s, r);
    }
  }

  /** When a call is refused, in the terms of the request, and with which error; an unknown session comes first. */
  lemma {:induction false} CallRefusedIff(t: Tables, s: State, r: Request)
    ensures var o, at := Step(t, s, r), Qty(s.inventory, Key(r.product, r.location));
      var unknown := r.session.Some? && r.session.value != "" && r.session.value !in t.sessions;
      && (o.Refused? <==>
            || unknown
            || (if r.kind == Adjust then !(r.targetQuantity.Whole? && r.targetQuantity.n >= 0)
                else
                  || !(r.quantity.Whole? && r.quantity.n > 0)
                  || r.kind == Unknown
                  || ((r.kind == Out || r.kind == Sale) && !r.allowNegative && at < r.quantity.n)
                  || (r.kind == Transfer && (r.toLocation == None || r.toLocation == Some("") || at < r.quantity.n))))
      && (unknown ==> o == Refused(SessionNotFound))
      && (o.Refused? && !unknown ==>
            match o.error
            case SessionNotFound => false
            case InvalidTargetQuantity => r.kind == Adjust
            case InvalidQuantity => r.kind != Adjust && !(r.quantity.Whole? && r.quantity.n > 0)
            case InvalidOperationType => r.kind == Unknown
            case DestinationRequired => r.kind == Transfer && (r.toLocation == None || r.toLocation == Some(""))
            case InsufficientStock(available) => available == at < r.quantity.n)
  {
  }

  /**
   * What a call that clears no shortages does to each row: a purchase, a return
   * and an entry with clearing off are among these.  A transfer onto itself
   * changes nothing.
   */
  lemma {:induction false} CallMovesRows(t: Tables, s: State, r: Request, k: Key)
    requires Step(t, s, r).Done?
    requires r.kind == In ==> !(r.purchase == None || r.purchase == Some("")) || !r.clearNegative
    ensures var was, now := Qty(s.inventory, k), Qty(Step(t, s, r).state.inventory, k);
      var here := k == Key(r.product, r.location);
      match r.kind
      case In => now == was + (if here then r.quantity.n else 0)
      case Return => now == was + (if here then r.quantity.n else 0)
      case Out => now == was - (if here then r.quantity.n else 0)
      case Sale => now == was - (if here then r.quantity.n else 0)
      case Transfer =>
        && r.toLocation.Some?
        && now == was - (if here then r.quantity.n else 0)
                  + (if k == Key(r.product, r.toLocation.value) then r.quantity.n else 0)
      case Adjust => now == if here then r.targetQuantity.n else was
      case Unknown => false
  {
  }

  /** The reply tells the quantity that the row, or the destination, now holds, and where the call was logged. */
  lemma {:induction false} ReplyTellsState(t: Tables, s: State, r: Request)
    requires Step(t, s, r).Done?
    ensures var o, source := Step(t, s, r), Key(r.product, r.location);
      if r.kind == Transfer then
        r.toLocation.Some? && o.reply == Transferred(Qty(o.state.inventory, Key(r.product, r.toLocation.value)))
      else if r.kind == Adjust then
        var was, now := Qty(s.inventory, source), Qty(o.state.inventory, source);
        o.reply == Adjusted(was, now, now - was)
      else
        && o.state.log != []
        && o.reply == Moved(Qty(o.state.inventory, source), |o.state.log| - 1)
        && o.state.log[|o.state.log| - 1].key == source
  {
  }

  /** What such a call logs; an adjustment to the same value logs nothing. */
  lemma {:induction false} CallIsLogged(t: Tables, s: State, r: Request)
    requires Step(t, s, r).Done?
    requires r.kind == In ==> !(r.purchase == None || r.purchase == Some("")) || !r.clearNegative
    ensures s.log <= Step(t, s, r).state.log
    ensures var added, source := Step(t, s, r).state.log[|s.log|..], Key(r.product, r.location);
      match r.kind
      case In => added == [LogRow(source, r.quantity.n, IN, r.note)]
      case Return => added == [LogRow(source, r.quantity.n, RETURN, r.note)]
      case Out => added == [LogRow(source, r.quantity.n, OUT, r.note)]
      case Sale => added == [LogRow(source, r.quantity.n, SALE, r.note)]
      case Transfer =>
        var to := r.toLocation.GetOr("");
        added == [LogRow(source, r.quantity.n, TRANSFER, Some("TRANSFER OUT -> " + to)),
                  LogRow(Key(r.product, to), r.quantity.n, TRANSFER, Some("TRANSFER IN <- " + r.location))]
      case Adjust =>
        var diff := r.targetQuantity.n - Qty(s.inventory, source);
        added == if diff == 0 then [] else [LogRow(source, diff, ADJUST, r.note)]
      case Unknown => false
  {
  }

  // ---------- runs ----------

  /** One call with the location and session tables as they are at that moment. */
  datatype Call = Call(tables: Tables, request: Request)

  function After(s: State, c: Call): State {
    var o := Step(c.tables, s, c.request);
    if o.Done? then o.state else s
  }

  function Run(s: State, calls: seq<Call>): State
    decreases |calls|
  {
    if calls == [] then s else Run(After(s, calls[0]), calls[1..])
  }

  lemma {:induction false} RunAgrees(s: State, calls: seq<Call>)
    requires Agrees(s)
    ensures Agrees(Run(s, calls))
    decreases |calls|
  {
    if calls != [] {
      StepAgrees(calls[0].tables, s, calls[0].request);
      RunAgrees(After(s, calls[0]), calls[1..]);
    }
  }

  /** Main result: from empty tables, after any calls, every quantity is the signed sum of its log rows. */
  lemma {:induction false} LedgerMatchesStock(calls: seq<Call>, k: Key)
    ensures Qty(Run(EMPTY, calls).inventory, k) == LedgerSum(Run(EMPTY, calls).log, k)
    ensures k !in Run(EMPTY, calls).inventory ==> forall row | row in Run(EMPTY, calls).log :: row.key != k
  {
    RunAgrees(EMPTY, calls);
  }

  /** The log only grows: rows once written are never changed or removed. */
  lemma {:induction false} LogIsAppendOnly(s: State, calls: seq<Call>)
    ensures s.log <= Run(s, calls).log
    decreases |calls|
  {
    if calls != [] {
      LogIsAppendOnly(After(s, calls[0]), calls[1..]);
    }
  }

  // ---------- stock that is never oversold ----------

  ghost predicate NonNegative(inventory: map<Key, int>) {
    forall k | k in inventory :: inventory[k] >= 0
  }

  predicate MayOversell(r: Request) { (r.kind == Sale || r.kind == Out) && r.allowNegative }

  /** A sale or withdrawal that is allowed to go negative and does. */
  predicate Oversells(s: State, c: Call) {
    && Guard(c.tables, c.request) == None && MayOversell(c.request)
    && Qty(s.inventory, c.request.Source()) < c.request.quantity.n
  }

  lemma {:induction false} ClearedIsNonNegative(t: Tables, s: State, r: Request)
    requires NonNegative(s.inventory)
    ensures NonNegative(Cleared(t, s, r).inventory)
  {
  }

  /** One call takes stock below zero exactly if it oversells; a withdrawal can do so as well as a sale. */
  lemma {:induction false} StepNonNegativeIff(s: State, c: Call)
    requires NonNegative(s.inventory)
    ensures NonNegative(After(s, c).inventory) <==> !Oversells(s, c)
  {
    ClearedIsNonNegative(c.tables, s, c.request);
    if Oversells(s, c) { assert After(s, c).inventory[c.request.Source()] < 0; }
  }

  ghost predicate AlwaysNonNegative(s: State, calls: seq<Call>)
    decreases |calls|
  {
    NonNegative(s.inventory) && (calls != [] ==> AlwaysNonNegative(After(s, calls[0]), calls[1..]))
  }

  predicate NeverOversells(s: State, calls: seq<Call>)
    decreases |calls|
  {
    calls != [] ==> !Oversells(s, calls[0]) && NeverOversells(After(s, calls[0]), calls[1..])
  }

  /** Main result: a run keeps every quantity at zero or above all the way exactly if none of its calls oversells. */
  lemma {:induction false} RunNonNegativeIff(s: State, calls: seq<Call>)
    requires NonNegative(s.inventory)
    ensures AlwaysNonNegative(s, calls) <==> NeverOversells(s, calls)
    decreases |calls|
  {
    if calls != [] {
      StepNonNegativeIff(s, calls[0]);
      if !Oversells(s, calls[0]) { RunNonNegativeIff(After(s, calls[0]), calls[1..]); }
    }
  }

  /** In particular without leave to go negative. */
  lemma {:induction false} RunNonNegative(s: State, calls: seq<Call>)
    requires NonNegative(s.inventory)
    requires forall c | c in calls :: !MayOversell(c.request)
    ensures AlwaysNonNegative(s, calls)
    decreases |calls|
  {
    if calls != [] {
      assert calls[0] in calls;
      StepNonNegativeIff(s, calls[0]);
      RunNonNegative(After(s, calls[0]), calls[1..]);
    }
  }

  // ---------- clearing of shortages ----------

  ghost predicate SameWarehouse(t: Tables, a: Id, b: Id) {
    a in t.warehouses && b in t.warehouses && t.warehouses[a] == t.warehouses[b]
  }

  /** The rows that an entry clears are the product's shortages in the warehouse of its location. */
  lemma {:induction false} ClearedRows(t: Tables, s: State, r: Request, k: Key)
    ensures Qty(Cleared(t, s, r).inventory, k)
            == if k.product == r.product && SameWarehouse(t, r.location, k.location) && Qty(s.inventory, k) < 0
               then 0 else Qty(s.inventory, k)
  {
    if r.location in t.warehouses {
      var gone := NegativeLocations(t, s.inventory, r.product, t.warehouses[r.location]);
      var ids := SortedIds(gone);
      if k in s.inventory && k.product == r.product {
        assert k.location in ids <==> k.location in gone;
        assert k == Key(r.product, k.location);
      }
    }
  }

  /**
   * An entry that is no purchase, with clearing on: where its location has a
   * warehouse, the target holds max(0, old) + q and the product has no shortage
   * left in that warehouse; every other row is as before.
   */
  lemma {:induction false} EntryClearsShortages(t: Tables, s: State, r: Request)
    requires Step(t, s, r).Done?
    requires r.kind == In && (r.purchase == None || r.purchase == Some("")) && r.clearNegative
    ensures var after, source := Step(t, s, r).state.inventory, Key(r.product, r.location);
      && (Qty(after, source)
          == (var was := Qty(s.inventory, source);
              if r.location in t.warehouses && was < 0 then 0 else was) + r.quantity.n)
      && (forall k | k != source ::
            Qty(after, k) == if k.product == r.product && SameWarehouse(t, r.location, k.location)
                                && Qty(s.inventory, k) < 0
                             then 0 else Qty(s.inventory, k))
      && (r.location in t.warehouses ==>
            forall k: Key | k.product == r.product && SameWarehouse(t, r.location, k.location) :: Qty(after, k) >= 0)
  {
    forall k ensures Qty(Cleared(t, s, r).inventory, k)
                     == if k.product == r.product && SameWarehouse(t, r.location, k.location)
                           && Qty(s.inventory, k) < 0
                        then 0 else Qty(s.inventory, k) {
      ClearedRows(t, s, r, k);
    }
  }

  /** The target holds max(0, old) + q exactly when its location has a warehouse or held no shortage. */
  lemma {:induction false} EntryStartsFromZeroIff(t: Tables, s: State, r: Request)
    requires Step(t, s, r).Done?
    requires r.kind == In && (r.purchase == None || r.purchase == Some("")) && r.clearNegative
    ensures var source := Key(r.product, r.location);
      var was := Qty(s.inventory, source);
      (Qty(Step(t, s, r).state.inventory, source) == (if was < 0 then 0 else was) + r.quantity.n)
      <==> (r.location in t.warehouses || was >= 0)
  {
    EntryClearsShortages(t, s, r);
  }

  /** Some order of exactly the locations in the warehouse of `location` where the product is short. */
  ghost predicate AreShort(t: Tables, inventory: map<Key, int>, product: Id, location: Id, ids: seq<Id>) {
    Distinct(ids) && forall id :: id in ids <==> Qty(inventory, Key(product, id)) < 0 && SameWarehouse(t, location, id)
  }

  /** A list of clearing rows: each the opposite of a shortage, as an adjustment with the clearing note. */
  ghost predicate AreClearings(inventory: map<Key, int>, r: Request, ids: seq<Id>, rows: seq<LogRow>) {
    var given := if r.note == None || r.note == Some("") then "" else r.note.value + " — ";
    && |rows| == |ids|
    && forall i | 0 <= i < |ids| ::
         rows[i] == LogRow(Key(r.product, ids[i]), -Qty(inventory, Key(r.product, ids[i])), ADJUST,
                           Some(given + "صفرکردن کسریِ پیش از ثبت، هنگام ورود کالا"))
  }

  lemma {:induction false} NegativesAreShort(t: Tables, inventory: map<Key, int>, product: Id, location: Id)
    requires location in t.warehouses
    ensures var ids := SortedIds(NegativeLocations(t, inventory, product, t.warehouses[location]));
      AreShort(t, inventory, product, location, ids) && Sorted(ids, StringLeq)
  {
    var negative := NegativeLocations(t, inventory, product, t.warehouses[location]);
    var ids := SortedIds(negative);
    SortedIdsSorted(negative);
    forall id ensures id in ids <==> Qty(inventory, Key(product, id)) < 0 && SameWarehouse(t, location, id) {
      assert Qty(inventory, Key(product, id)) < 0 ==> Key(product, id) in inventory;
      if id in negative { assert exists k :: k in inventory && k.location == id && k.product == product; }
    }
  }

  /** The clearing is logged as adjustments, one per cleared row in location order, before the entry itself. */
  lemma {:induction false} ClearingIsLogged(t: Tables, s: State, r: Request)
    requires Step(t, s, r).Done?
    requires r.kind == In && (r.purchase == None || r.purchase == Some("")) && r.clearNegative
    ensures exists ids, rows ::
      && AreShort(t, s.inventory, r.product, r.location, ids) && Sorted(ids, StringLeq)
      && AreClearings(s.inventory, r, ids, rows)
      && Step(t, s, r).state.log == s.log + rows + [LogRow(Key(r.product, r.location), r.quantity.n, IN, r.note)]
  {
    var ids := if r.location !in t.warehouses then []
               else SortedIds(NegativeLocations(t, s.inventory, r.product, t.warehouses[r.location]));
    var rows := ClearingRows(s.inventory, r.product, ids, ClearingNote(r.note));
    if r.location in t.warehouses { NegativesAreShort(t, s.inventory, r.product, r.location); }
    assert AreShort(t, s.inventory, r.product, r.location, ids) && Sorted(ids, StringLeq);
    assert AreClearings(s.inventory, r, ids, rows);
    assert Step(t, s, r).state.log == s.log + rows + [LogRow(Key(r.product, r.location), r.quantity.n, IN, r.note)];
  }

  // ---------- a product's total over all locations ----------

  function RowsOf(inventory: map<Key, int>, product: Id): map<Key, int> {
    map k | k in inventory && k.product == product :: inventory[k]
  }

  ghost function Total(inventory: map<Key, int>, product: Id): int {
    SumMap(RowsOf(inventory, product))
  }

  lemma {:induction false} TotalUpdate(inventory: map<Key, int>, product: Id, k: Key, v: int)
    ensures Total(inventory[k := v], product)
            == Total(inventory, product) + if k.product == product then v - Qty(inventory, k) else 0
  {
    if k.product == product {
      SumMapUpdate(RowsOf(inventory, product), k, v);
      assert RowsOf(inventory[k := v], product) == RowsOf(inventory, product)[k := v];
    } else {
      assert RowsOf(inventory[k := v], product) == RowsOf(inventory, product);
    }
  }

  /** A transfer moves stock but keeps every product's total. */
  lemma {:induction false} TransferKeepsTotals(t: Tables, s: State, r: Request, product: Id)
    requires r.kind == Transfer
    ensures var o := Step(t, s, r); o.Done? ==> Total(o.state.inventory, product) == Total(s.inventory, product)
  {
    var o := Step(t, s, r);
    if o.Done? {
      var taken := s.inventory[r.Source() := Qty(s.inventory, r.Source()) - r.quantity.n];
      var to := Key(r.product, r.toLocation.value);
      TotalUpdate(s.inventory, product, r.Source(), Qty(s.inventory, r.Source()) - r.quantity.n);
      TotalUpdate(taken, product, to, Qty(taken, to) + r.quantity.n);
    }
  }

  function ProductSum(log: seq<LogRow>, product: Id): int {
    if log == [] then 0
    else (if log[0].key.product == product then Signed(log[0]) else 0) + ProductSum(log[1..], product)
  }

  ghost function LedgerOf(keys: set<Key>, log: seq<LogRow>, product: Id): map<Key, int> {
    map k | k in keys && k.product == product :: LedgerSum(log, k)
  }

  /** Summing each row's ledger over all rows of a product is summing the product's log once. */
  lemma {:induction false} LedgerTotal(keys: set<Key>, log: seq<LogRow>, product: Id)
    requires forall row | row in log :: row.key in keys
    ensures SumMap(LedgerOf(keys, log, product)) == ProductSum(log, product)
  {
    var m := LedgerOf(keys, log, product);
    if log == [] {
      SumMapZero(m);
    } else {
      var m' := LedgerOf(keys, log[1..], product);
      LedgerTotal(keys, log[1..], product);
      var k := log[0].key;
      assert log[0] in log;
      if k.product == product {
        assert m == m'[k := m'[k] + Signed(log[0])];
        SumMapUpdate(m', k, m'[k] + Signed(log[0]));
      } else {
        assert m == m';
      }
    }
  }

  /** In agreement, a product's stock over all locations is the signed sum of its log rows. */
  lemma {:induction false} TotalIsProductSum(s: State, product: Id)
    requires Agrees(s)
    ensures Total(s.inventory, product) == ProductSum(s.log, product)
  {
    LedgerTotal(s.inventory.Keys, s.log, product);
    var m := LedgerOf(s.inventory.Keys, s.log, product);
    forall k | k in m ensures m[k] == RowsOf(s.inventory, product)[k] {
      assert Qty(s.inventory, k) == LedgerSum(s.log, k);
    }
    assert m == RowsOf(s.inventory, product);
  }
}
