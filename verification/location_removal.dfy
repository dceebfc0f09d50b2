/**
 * Removing a location with its whole subtree: the live stock on it is moved or
 * written off through the engine first, then the locations are deleted
 * bottom-up, or only deactivated when anything still refers to them.
 */
module LocationRemoval {
  import opened Wrappers
  import opened Sums
  import Order
  import opened StockEngine
  import opened StockLedger
  import opened LocationForest
  import opened LockOrder

  datatype StockRow = StockRow(key: Key, quantity: int)

  datatype StockAction = NoDecision | MoveTo(destination: Option<Id>) | WriteOff(reason: string)

  datatype RemoveError =
    | LocationNotFound | LocationHasStock(units: int, products: nat, locations: nat) | NoDestination
    | DestinationInsideSubtree | DestinationNotFound | ReasonRequired
    | Refusal(error: Error)

  datatype Removal = Removal(deactivated: bool, affected: nat, movedUnits: int)

  function RowLock(r: StockRow): LockKey { LockKey(r.key.product, Some(r.key.location)) }

  predicate LiveOn(inventory: map<Key, int>, ids: set<Id>, k: Key) {
    k in inventory && inventory[k] > 0 && k.location in ids
  }

  /** Exactly the rows with positive stock on the given locations, each once, in any order. */
  ghost predicate AreLiveRows(inventory: map<Key, int>, ids: set<Id>, rows: seq<StockRow>) {
    && (forall i, j | 0 <= i < j < |rows| :: rows[i].key != rows[j].key)
    && (forall r | r in rows :: LiveOn(inventory, ids, r.key) && r.quantity == inventory[r.key])
    && (forall k | LiveOn(inventory, ids, k) :: StockRow(k, inventory[k]) in rows)
  }

  function Units(rows: seq<StockRow>): int {
    if rows == [] then 0 else rows[0].quantity + Units(rows[1..])
  }

  // ---------- draining ----------

  function DrainRequest(r: StockRow, action: StockAction, note: Option<string>): Request {
    if action.MoveTo? then
      Request(Transfer, r.key.product, r.key.location, action.destination, Whole(r.quantity), NotWhole,
              note, None, None, false, true)
    else
      Request(Adjust, r.key.product, r.key.location, None, NotWhole, Whole(0),
              if action.WriteOff? then Some(action.reason) else note, None, None, false, true)
  }

  /** The engine's state after the drain, provided that no call is refused. */
  function Drain(t: Tables, s: State, rows: seq<StockRow>, action: StockAction, note: Option<string>): Outcome
    decreases |rows|
  {
    if rows == [] then Done(s, Transferred(0))
    else
      var o := Step(t, s, DrainRequest(rows[0], action, note));
      if o.Refused? then o else Drain(t, o.state, rows[1..], action, note)
  }

  function MovedTo(rows: seq<StockRow>, product: Id): int {
    if rows == [] then 0
    else (if rows[0].key.product == product then rows[0].quantity else 0) + MovedTo(rows[1..], product)
  }

  /** The rows to drain are still as they were read. */
  ghost predicate Fresh(s: State, rows: seq<StockRow>) {
    && (forall i, j | 0 <= i < j < |rows| :: rows[i].key != rows[j].key)
    && forall r | r in rows :: r.quantity > 0 && Qty(s.inventory, r.key) == r.quantity
  }

  ghost predicate GoesOutside(action: StockAction, rows: seq<StockRow>) {
    && action.MoveTo? && Given(action.destination)
    && forall r | r in rows :: r.key.location != action.destination.value
  }

  /** Some row of the list is the given one. */
  ghost predicate Listed(rows: seq<StockRow>, k: Key) { exists r :: r in rows && r.key == k }

  lemma {:induction false} ListedStep(rows: seq<StockRow>, k: Key)
    requires rows != []
    ensures Listed(rows, k) <==> rows[0].key == k || Listed(rows[1..], k)
  {
    assert rows == [rows[0]] + rows[1..];
    if r :| r in rows[1..] && r.key == k { assert r in rows; }
    assert rows[0] in rows;
  }

  /** A step that leaves the other rows alone leaves them as they were read. */
  lemma {:induction false} FreshRest(s: State, s': State, rows: seq<StockRow>)
    requires Fresh(s, rows) && rows != []
    requires forall r | r in rows[1..] :: Qty(s'.inventory, r.key) == Qty(s.inventory, r.key)
    ensures Fresh(s', rows[1..])
  {
    assert rows == [rows[0]] + rows[1..];
  }

  lemma {:induction false} OthersDiffer(rows: seq<StockRow>, r: StockRow)
    requires rows != [] && r in rows[1..]
    requires forall i, j | 0 <= i < j < |rows| :: rows[i].key != rows[j].key
    ensures r in rows && r.key != rows[0].key
  {
    var i :| 0 <= i < |rows[1..]| && rows[1..][i] == r;
    assert rows[i + 1] == r;
  }

  lemma {:induction false} TransferStep(t: Tables, s: State, row: StockRow, action: StockAction, note: Option<string>)
    requires row.quantity > 0 && Qty(s.inventory, row.key) == row.quantity
    requires action.MoveTo? && Given(action.destination) && row.key.location != action.destination.value
    ensures var o := Step(t, s, DrainRequest(row, action, note));
      && o.Done?
      && forall k :: Qty(o.state.inventory, k)
                     == if k == row.key then 0
                        else if k == Key(row.key.product, action.destination.value)
                             then Qty(s.inventory, k) + row.quantity
                             else Qty(s.inventory, k)
  {
  }

  /** A drain by transfer is never refused, empties its rows, and adds them all up at the destination. */
  lemma {:induction false} TransferDrain(t: Tables, s: State, rows: seq<StockRow>, action: StockAction,
                                         note: Option<string>, k: Key)
    requires Fresh(s, rows) && GoesOutside(action, rows)
    ensures var o := Drain(t, s, rows, action, note);
      && o.Done?
      && Qty(o.state.inventory, k)
         == (if Listed(rows, k) then 0
             else if k.location == action.destination.value then Qty(s.inventory, k) + MovedTo(rows, k.product)
             else Qty(s.inventory, k))
    decreases |rows|
  {
    if rows != [] {
      assert rows[0] in rows;
      var s' := Step(t, s, DrainRequest(rows[0], action, note)).state;
      TransferStep(t, s, rows[0], action, note);
      forall r | r in rows[1..] ensures Qty(s'.inventory, r.key) == Qty(s.inventory, r.key) { OthersDiffer(rows, r); }
      FreshRest(s, s', rows);
      TransferDrain(t, s', rows[1..], action, note, k);
      ListedStep(rows, k);
    }
  }

  /** A drain by transfer keeps every product's total. */
  lemma {:induction false} TransferDrainTotals(t: Tables, s: State, rows: seq<StockRow>, action: StockAction,
                                               note: Option<string>, product: Id)
    requires action.MoveTo?
    ensures var o := Drain(t, s, rows, action, note);
      o.Done? ==> Total(o.state.inventory, product) == Total(s.inventory, product)
    decreases |rows|
  {
    if rows != [] {
      var r := DrainRequest(rows[0], action, note);
      var o := Step(t, s, r);
      TransferKeepsTotals(t, s, r, product);
      if o.Done? { TransferDrainTotals(t, o.state, rows[1..], action, note, product); }
    }
  }

  lemma {:induction false} WriteOffStep(t: Tables, s: State, row: StockRow, action: StockAction, note: Option<string>)
    requires row.quantity > 0 && Qty(s.inventory, row.key) == row.quantity && action.WriteOff?
    ensures Step(t, s, DrainRequest(row, action, note))
            == Done(State(s.inventory[row.key := 0],
                          s.log + [LogRow(row.key, -row.quantity, ADJUST, Some(action.reason))]),
                    Adjusted(row.quantity, 0, -row.quantity))
  {
  }

  /** A write-off is never refused, sets exactly its rows to zero, and logs the negative of each. */
  lemma {:induction false} WriteOffDrain(t: Tables, s: State, rows: seq<StockRow>, action: StockAction,
                                         note: Option<string>, k: Key)
    requires Fresh(s, rows) && action.WriteOff?
    ensures var o := Drain(t, s, rows, action, note);
      && o.Done?
      && Qty(o.state.inventory, k) == (if Listed(rows, k) then 0 else Qty(s.inventory, k))
      && o.state.log == s.log + WriteOffRows(rows, action.reason)
    decreases |rows|
  {
    if rows != [] {
      assert rows[0] in rows;
      var s' := Step(t, s, DrainRequest(rows[0], action, note)).state;
      WriteOffStep(t, s, rows[0], action, note);
      forall r | r in rows[1..] ensures Qty(s'.inventory, r.key) == Qty(s.inventory, r.key) { OthersDiffer(rows, r); }
      FreshRest(s, s', rows);
      WriteOffDrain(t, s', rows[1..], action, note, k);
      ListedStep(rows, k);
    }
  }

  // ---------- stock that has changed since it was read ----------

  /** The quantity that was read for a row. */
  function Read(rows: seq<StockRow>, k: Key): int {
    if rows == [] then 0 else if rows[0].key == k then rows[0].quantity else Read(rows[1..], k)
  }

  /** Rows as the query reads them, whatever the stock is by now. */
  ghost predicate WereRead(rows: seq<StockRow>) {
    && (forall i, j | 0 <= i < j < |rows| :: rows[i].key != rows[j].key)
    && forall r | r in rows :: r.quantity > 0
  }

  lemma {:induction false} ReadRest(rows: seq<StockRow>)
    requires WereRead(rows) && rows != []
    ensures WereRead(rows[1..]) && rows[0].quantity > 0
    ensures forall r | r in rows[1..] :: r in rows && r.key != rows[0].key
    ensures Read(rows[1..], rows[0].key) == 0
  {
    assert rows == [rows[0]] + rows[1..];
    forall r | r in rows[1..] ensures r in rows && r.key != rows[0].key { OthersDiffer(rows, r); }
    NotRead(rows[1..], rows[0].key);
  }

  lemma {:induction false} NotRead(rows: seq<StockRow>, k: Key)
    requires forall r | r in rows :: r.key != k
    ensures Read(rows, k) == 0
  {
    if rows != [] {
      assert rows[0] in rows;
      NotRead(rows[1..], k);
    }
  }

  lemma {:induction false} StaleTransferStep(t: Tables, s: State, row: StockRow, action: StockAction,
                                             note: Option<string>)
    requires row.quantity > 0 && action.MoveTo? && Given(action.destination)
    requires row.key.location != action.destination.value
    ensures var o := Step(t, s, DrainRequest(row, action, note));
      && (o.Done? <==> Qty(s.inventory, row.key) >= row.quantity)
      && (o.Done? ==> forall k ::
            Qty(o.state.inventory, k)
            == Qty(s.inventory, k) - (if k == row.key then row.quantity else 0)
               + (if k == Key(row.key.product, action.destination.value) then row.quantity else 0))
  {
  }

  /**
   * The rows are read before the transaction begins.  If stock has changed since
   * then, a transfer goes through exactly if every row still holds what was read.
   */
  lemma {:induction false} StaleTransferDoneIff(t: Tables, s: State, rows: seq<StockRow>, action: StockAction,
                                                note: Option<string>)
    requires WereRead(rows) && GoesOutside(action, rows)
    ensures Drain(t, s, rows, action, note).Done? <==> forall r | r in rows :: Qty(s.inventory, r.key) >= r.quantity
    decreases |rows|
  {
    if rows != [] {
      assert rows[0] in rows && rows == [rows[0]] + rows[1..];
      var o := Step(t, s, DrainRequest(rows[0], action, note));
      ReadRest(rows);
      StaleTransferStep(t, s, rows[0], action, note);
      if o.Done? {
        StaleTransferDoneIff(t, o.state, rows[1..], action, note);
      }
    }
  }

  /** A transfer that goes through takes from each row what was read, and brings it to the destination. */
  lemma {:induction false} StaleTransferMoves(t: Tables, s: State, rows: seq<StockRow>, action: StockAction,
                                              note: Option<string>, k: Key)
    requires WereRead(rows) && GoesOutside(action, rows) && Drain(t, s, rows, action, note).Done?
    ensures Qty(Drain(t, s, rows, action, note).state.inventory, k)
            == Qty(s.inventory, k) - Read(rows, k)
               + (if k.location == action.destination.value then MovedTo(rows, k.product) else 0)
    decreases |rows|
  {
    if rows != [] {
      assert rows[0] in rows;
      ReadRest(rows);
      StaleTransferStep(t, s, rows[0], action, note);
      StaleTransferMoves(t, Step(t, s, DrainRequest(rows[0], action, note)).state, rows[1..], action, note, k);
    }
  }

  /** No positive stock is left on the locations. */
  ghost predicate NothingLeft(inventory: map<Key, int>, ids: set<Id>) { forall k :: !LiveOn(inventory, ids, k) }

  /** It leaves no positive stock on the subtree exactly if no row there has grown beyond what was read. */
  lemma {:induction false} StaleTransferEmptiesIff(t: Tables, s: State, ids: set<Id>, rows: seq<StockRow>,
                                                   action: StockAction, note: Option<string>)
    requires WereRead(rows) && GoesOutside(action, rows) && action.destination.value !in ids
    requires Drain(t, s, rows, action, note).Done?
    ensures NothingLeft(Drain(t, s, rows, action, note).state.inventory, ids)
            <==> forall k: Key | k.location in ids :: Qty(s.inventory, k) <= Read(rows, k)
  {
    var after := Drain(t, s, rows, action, note).state.inventory;
    forall k: Key | k.location in ids
      ensures LiveOn(after, ids, k) <==> !(Qty(s.inventory, k) <= Read(rows, k)) {
      StaleTransferMoves(t, s, rows, action, note, k);
    }
  }

  lemma {:induction false} StaleWriteOffStep(t: Tables, s: State, row: StockRow, action: StockAction,
                                             note: Option<string>)
    requires action.WriteOff?
    ensures var o := Step(t, s, DrainRequest(row, action, note));
      o.Done? && o.state.inventory == s.inventory[row.key := 0]
  {
  }

  /** A write-off is never refused, and sets its rows to zero whatever they hold by now. */
  lemma {:induction false} StaleWriteOffDone(t: Tables, s: State, rows: seq<StockRow>, action: StockAction,
                                             note: Option<string>, k: Key)
    requires action.WriteOff?
    ensures var o := Drain(t, s, rows, action, note);
      o.Done? && Qty(o.state.inventory, k) == if Listed(rows, k) then 0 else Qty(s.inventory, k)
    decreases |rows|
  {
    if rows != [] {
      var s' := Step(t, s, DrainRequest(rows[0], action, note)).state;
      StaleWriteOffStep(t, s, rows[0], action, note);
      StaleWriteOffDone(t, s', rows[1..], action, note, k);
      ListedStep(rows, k);
    }
  }

  /** It leaves no positive stock on the subtree exactly if no row has come to hold any since the reading. */
  lemma {:induction false} StaleWriteOffEmptiesIff(t: Tables, s: State, ids: set<Id>, rows: seq<StockRow>,
                                                   action: StockAction, note: Option<string>)
    requires action.WriteOff?
    ensures Drain(t, s, rows, action, note).Done?
    ensures NothingLeft(Drain(t, s, rows, action, note).state.inventory, ids)
            <==> forall k | LiveOn(s.inventory, ids, k) :: Listed(rows, k)
  {
    StaleWriteOffDone(t, s, rows, action, note, Key("", ""));
    var after := Drain(t, s, rows, action, note).state.inventory;
    forall k ensures LiveOn(after, ids, k) <==> LiveOn(s.inventory, ids, k) && !Listed(rows, k) {
      StaleWriteOffDone(t, s, rows, action, note, k);
    }
  }

  function WriteOffRows(rows: seq<StockRow>, reason: string): seq<LogRow> {
    if rows == [] then []
    else [LogRow(rows[0].key, -rows[0].quantity, ADJUST, Some(reason))] + WriteOffRows(rows[1..], reason)
  }

  // ---------- totals ----------

  function LiveStock(inventory: map<Key, int>, ids: set<Id>, product: Id): map<Key, int> {
    map k | k in inventory && LiveOn(inventory, ids, k) && k.product == product :: inventory[k]
  }

  /** Whatever their order, the rows of a product add up to its positive stock on the locations. */
  lemma {:induction false} RowsAddUp(inventory: map<Key, int>, ids: set<Id>, product: Id, rows: seq<StockRow>,
                                     m: map<Key, int>)
    requires forall i, j | 0 <= i < j < |rows| :: rows[i].key != rows[j].key
    requires forall k :: k in m <==> k.product == product && exists r :: r in rows && r.key == k
    requires forall r | r in rows && r.key.product == product :: m[r.key] == r.quantity
    ensures MovedTo(rows, product) == SumMap(m)
  {
    if rows == [] {
      assert m == map[];
    } else {
      assert rows == [rows[0]] + rows[1..];
      var k := rows[0].key;
      var rest := if k.product == product then m - {k} else m;
      forall x ensures x in rest <==> x.product == product && exists r :: r in rows[1..] && r.key == x {
        if r :| r in rows && r.key == x {
          assert r == rows[0] || r in rows[1..];
        }
        if r :| r in rows[1..] && r.key == x { assert r in rows; }
      }
      forall r | r in rows[1..] && r.key.product == product ensures rest[r.key] == r.quantity { assert r in rows; }
      RowsAddUp(inventory, ids, product, rows[1..], rest);
      if k.product == product {
        assert rows[0] in rows;
        SumMapRemove(m, k);
      }
    }
  }

  lemma {:induction false} LiveRowsAddUp(inventory: map<Key, int>, ids: set<Id>, product: Id, rows: seq<StockRow>)
    requires AreLiveRows(inventory, ids, rows)
    ensures MovedTo(rows, product) == SumMap(LiveStock(inventory, ids, product))
  {
    var m := LiveStock(inventory, ids, product);
    forall k ensures k in m <==> k.product == product && exists r :: r in rows && r.key == k {
      if k in m { assert StockRow(k, inventory[k]) in rows; }
    }
    RowsAddUp(inventory, ids, product, rows, m);
  }

  lemma {:induction false} UnitsSign(rows: seq<StockRow>)
    requires forall r | r in rows :: r.quantity > 0
    ensures Units(rows) >= 0 && (Units(rows) == 0 <==> rows == [])
  {
    if rows != [] {
      assert rows == [rows[0]] + rows[1..];
      UnitsSign(rows[1..]);
    }
  }

  /** The sorted copy still lists the same rows, each once. */
  lemma {:induction false} SortedRowsAreLiveRows(inventory: map<Key, int>, ids: set<Id>, rows: seq<StockRow>)
    requires AreLiveRows(inventory, ids, rows)
    ensures AreLiveRows(inventory, ids, InLockOrder(rows, RowLock))
  {
    var sorted := InLockOrder(rows, RowLock);
    InLockOrderIsSortedCopy(rows, RowLock);
    forall r ensures r in sorted <==> r in rows { assert r in multiset(sorted) <==> r in multiset(rows); }
    SortKeepsKeysApart(rows);
  }

  lemma {:induction false} InsertKeepsKeysApart(r: StockRow, rows: seq<StockRow>)
    requires forall i, j | 0 <= i < j < |rows| :: rows[i].key != rows[j].key
    requires forall x | x in rows :: x.key != r.key
    ensures var s := Order.InsertBy(r, rows, NotAfter(RowLock));
      && (forall i, j | 0 <= i < j < |s| :: s[i].key != s[j].key)
      && (forall x :: x in s <==> x == r || x in rows)
  {
    if rows != [] && !NotAfter(RowLock)(r, rows[0]) {
      assert rows == [rows[0]] + rows[1..];
      InsertKeepsKeysApart(r, rows[1..]);
      forall x | x in Order.InsertBy(r, rows[1..], NotAfter(RowLock)) ensures x.key != rows[0].key {
        assert x == r || x in rows[1..];
      }
    }
  }

  lemma {:induction false} SortKeepsKeysApart(rows: seq<StockRow>)
    requires forall i, j | 0 <= i < j < |rows| :: rows[i].key != rows[j].key
    ensures var s := InLockOrder(rows, RowLock);
      && (forall i, j | 0 <= i < j < |s| :: s[i].key != s[j].key)
      && (forall x :: x in s <==> x in rows)
  {
    if rows != [] {
      assert rows == [rows[0]] + rows[1..];
      SortKeepsKeysApart(rows[1..]);
      InsertKeepsKeysApart(rows[0], InLockOrder(rows[1..], RowLock));
    }
  }

  // ---------- the service ----------

  /** Whether the decision about the stock on the subtree is usable; without stock none is needed. */
  function Validate(nodes: Nodes, node: Node, ids: set<Id>, rows: seq<StockRow>, action: StockAction)
    : Option<RemoveError>
  {
    if Units(rows) <= 0 then None
    else
      match action
      case NoDecision =>
        Some(LocationHasStock(Units(rows), |set r | r in rows :: r.key.product|,
                              |set r | r in rows :: r.key.location|))
      case MoveTo(destination) =>
        if !Given(destination) then Some(NoDestination)
        else if destination.value in ids then Some(DestinationInsideSubtree)
        else if destination.value !in nodes || !nodes[destination.value].active
                || nodes[destination.value].warehouse != node.warehouse then Some(DestinationNotFound)
        else None
      case WriteOff(reason) => if reason == "" then Some(ReasonRequired) else None
  }

  /** The positive stock on the locations, of all products. */
  ghost function LiveStockOn(inventory: map<Key, int>, ids: set<Id>): map<Key, int> {
    map k | k in inventory && k.location in ids && inventory[k] > 0 :: inventory[k]
  }

  lemma {:induction false} UnitsAddUp(rows: seq<StockRow>, m: map<Key, int>)
    requires forall i, j | 0 <= i < j < |rows| :: rows[i].key != rows[j].key
    requires forall k :: k in m <==> Listed(rows, k)
    requires forall r | r in rows :: r.key in m && m[r.key] == r.quantity
    ensures Units(rows) == SumMap(m)
  {
    if rows == [] {
      assert m == map[];
    } else {
      var k := rows[0].key;
      var rest := m - {k};
      assert rows == [rows[0]] + rows[1..];
      forall x { ListedStep(rows, x); }
      forall r | r in rows[1..] ensures r.key != k && r in rows { OthersDiffer(rows, r); }
      assert !Listed(rows[1..], k);
      UnitsAddUp(rows[1..], rest);
      assert rows[0] in rows;
      SumMapRemove(m, k);
    }
  }

  /** What a refusal for lack of a decision counts: the units, the products and the locations of the live stock. */
  lemma {:induction false} LiveRowsCount(inventory: map<Key, int>, ids: set<Id>, rows: seq<StockRow>)
    requires AreLiveRows(inventory, ids, rows)
    ensures Units(rows) == SumMap(LiveStockOn(inventory, ids))
    ensures (set r | r in rows :: r.key.product) == set k | k in LiveStockOn(inventory, ids) :: k.product
    ensures (set r | r in rows :: r.key.location) == set k | k in LiveStockOn(inventory, ids) :: k.location
    ensures rows == [] <==> LiveStockOn(inventory, ids) == map[]
  {
    var m := LiveStockOn(inventory, ids);
    forall k ensures k in m <==> Listed(rows, k) {
      if k in m { assert StockRow(k, inventory[k]) in rows; }
    }
    forall k | k in m ensures exists r :: r in rows && r.key == k { assert Listed(rows, k); }
    UnitsAddUp(rows, m);
    if rows != [] { assert rows[0] in rows && rows[0].key in m; }
  }

  /**
   * When a removal is refused for its decision, and how, in the order of the
   * checks.  Without live stock any decision will do.
   */
  lemma {:induction false} DecisionIs(nodes: Nodes, node: Node, inventory: map<Key, int>, ids: set<Id>,
                                      rows: seq<StockRow>, action: StockAction)
    requires AreLiveRows(inventory, ids, rows)
    ensures var live, refusal := LiveStockOn(inventory, ids), Validate(nodes, node, ids, rows, action);
      if live == map[] then refusal == None
      else
        match action
        case NoDecision =>
          refusal == Some(LocationHasStock(SumMap(live), |set k | k in live :: k.product|,
                                           |set k | k in live :: k.location|))
        case MoveTo(destination) =>
          && (refusal == None <==>
                && destination.Some? && destination.value != "" && destination.value !in ids
                && destination.value in nodes && nodes[destination.value].active
                && nodes[destination.value].warehouse == node.warehouse)
          && (refusal == Some(NoDestination) <==> destination == None || destination == Some(""))
          && (refusal == Some(DestinationInsideSubtree) <==>
                destination.Some? && destination.value != "" && destination.value in ids)
          && (refusal.Some? ==> refusal.value in {NoDestination, DestinationInsideSubtree, DestinationNotFound})
        case WriteOff(reason) => refusal == if reason == "" then Some(ReasonRequired) else None
  {
    LiveRowsCount(inventory, ids, rows);
    UnitsSign(rows);
  }

  class LocationsService {
    const operation: InventoryOperations
    var nodes: Nodes
    /** Locations that pending operations, counts, sessions, print jobs or requests refer to. */
    var referenced: set<Id>

    constructor (operation: InventoryOperations)
      ensures this.operation == operation && nodes == map[] && referenced == {}
    {
      this.operation := operation;
      nodes, referenced := map[], {};
    }

    predicate HasHistory(ids: set<Id>)
      reads this, operation
    {
      || (exists k | k in operation.inventory :: k.location in ids)
      || (exists row | row in operation.log :: row.key.location in ids)
      || referenced * ids != {}
    }

    method StockOnSubtree(ids: set<Id>) returns (rows: seq<StockRow>)
      ensures AreLiveRows(operation.inventory, ids, rows)
    {
      rows := [];
      var keys := operation.inventory.Keys;
      while keys != {}
        invariant keys <= operation.inventory.Keys
        invariant AreLiveRows(operation.inventory - keys, ids, rows)
        decreases keys
      {
        var k :| k in keys;
        ghost var before := operation.inventory - keys;
        keys := keys - {k};
        ghost var after := operation.inventory - keys;
        assert after == before[k := operation.inventory[k]];
        assert forall r | r in rows :: r.key in before;
        if operation.inventory[k] > 0 && k.location in ids {
          rows := rows + [StockRow(k, operation.inventory[k])];
        }
      }
      assert operation.inventory - keys == operation.inventory;
    }

    /** Drains the rows one by one through the engine. */
    method DrainStock(rows: seq<StockRow>, action: StockAction, note: Option<string>) returns (refusal: Option<Error>)
      modifies operation
      ensures operation.tables == old(operation.tables)
      ensures match Drain(operation.tables, old(operation.Contents()), rows, action, note)
              case Done(s, _) => refusal == None && operation.Contents() == s
              case Refused(e) => refusal == Some(e)
    {
      ghost var goal := Drain(operation.tables, operation.Contents(), rows, action, note);
      assert rows[0..] == rows;
      for i := 0 to |rows|
        invariant operation.tables == old(operation.tables)
        invariant Drain(operation.tables, operation.Contents(), rows[i..], action, note) == goal
      {
        assert rows[i..][0] == rows[i] && rows[i..][1..] == rows[i + 1..];
        var r := operation.Execute(DrainRequest(rows[i], action, note));
        if r.Failure? { return Some(r.error); }
      }
      refusal := None;
    }

    /** The subtree, and the live rows on it in lock order. */
    method FindRows(id: Id) returns (levels: seq<set<Id>>, rows: seq<StockRow>)
      requires Acyclic(nodes)
      ensures AreLevels(nodes, id, levels) && forall x :: x in Union(levels) <==> Below(nodes, x, id)
      ensures AreLiveRows(operation.inventory, Union(levels), rows)
      ensures forall i, j | 0 <= i < j < |rows| ::
                var a, b := rows[i].key, rows[j].key;
                if a.product != b.product then Order.StringLeq(a.product, b.product)
                else Order.StringLeq(a.location, b.location)
      ensures Units(rows) >= 0 && (Units(rows) == 0 <==> rows == [])
    {
      levels := CollectSubtreeLevels(nodes, id);
      LevelsAreSubtree(nodes, id, levels);
      var found := StockOnSubtree(Union(levels));
      SortedRowsAreLiveRows(operation.inventory, Union(levels), found);
      InLockOrderIsSortedCopy(found, RowLock);
      rows := InLockOrder(found, RowLock);
      UnitsSign(rows);
    }

    /** Drains rows that were just read, after the decision has been validated. */
    method DrainValidated(ids: set<Id>, rows: seq<StockRow>, action: StockAction, note: Option<string>)
      requires AreLiveRows(operation.inventory, ids, rows)
      requires action.WriteOff? || (action.MoveTo? && Given(action.destination) && action.destination.value !in ids)
      modifies operation
      ensures operation.tables == old(operation.tables)
      ensures Drain(operation.tables, old(operation.Contents()), rows, action, note).Done?
      ensures operation.Contents() == Drain(operation.tables, old(operation.Contents()), rows, action, note).state
    {
      if action.MoveTo? { TransferDrain(operation.tables, operation.Contents(), rows, action, note, Key("", "")); }
      else { WriteOffDrain(operation.tables, operation.Contents(), rows, action, note, Key("", "")); }
      var refusal := DrainStock(rows, action, note);
    }

    /** Deactivates the subtree, or deletes it bottom-up. */
    method Retire(id: Id, levels: seq<set<Id>>, deactivated: bool)
      requires Acyclic(nodes) && Linked(nodes)
      requires AreLevels(nodes, id, levels) && forall x :: x in Union(levels) <==> Below(nodes, x, id)
      modifies this`nodes
      ensures Acyclic(nodes) && Linked(nodes)
      ensures nodes == if deactivated then Deactivated(old(nodes), Union(levels)) else old(nodes) - Union(levels)
    {
      if deactivated {
        DeactivationKeepsForest(nodes, Union(levels));
        nodes := Deactivated(nodes, Union(levels));
      } else {
        RemovalKeepsForest(nodes, id, Union(levels));
        nodes := DeleteLevels(nodes, id, levels);
      }
    }

    /**
     * `reason` is the text after trimming.  `ids` and `rows` are what the walk
     * and the stock query find.
     */
    method Remove(id: Id, action: StockAction, note: Option<string>)
      returns (result: Result<Removal, RemoveError>, ghost ids: set<Id>, ghost rows: seq<StockRow>)
      requires Acyclic(nodes) && Linked(nodes)
      modifies this`nodes, operation
      ensures forall x :: x in ids <==> Below(old(nodes), x, id)
      ensures AreLiveRows(old(operation.inventory), ids, rows)
      ensures forall i, j | 0 <= i < j < |rows| ::
                var a, b := rows[i].key, rows[j].key;
                if a.product != b.product then Order.StringLeq(a.product, b.product)
                else Order.StringLeq(a.location, b.location)
      ensures Acyclic(nodes) && Linked(nodes)
      // Refused before anything is changed, and never by the engine.
      ensures result.Failure? ==>
        && nodes == old(nodes) && operation.Contents() == old(operation.Contents())
        && result.error == (if id !in old(nodes) then LocationNotFound
                            else old(Validate(nodes, nodes[id], ids, rows, action)).GetOr(LocationNotFound))
      ensures result.Success? <==>
        id in old(nodes) && old(Validate(nodes, nodes[id], ids, rows, action)).None?
      ensures result.Success? ==>
        && result.value.affected == |ids|
        && result.value.movedUnits == SumMap(LiveStockOn(old(operation.inventory), ids))
        && (result.value.deactivated <==>
              || LiveStockOn(old(operation.inventory), ids) != map[] || old(referenced) * ids != {}
              || (exists k :: k in old(operation.inventory) && k.location in ids)
              || (exists row :: row in old(operation.log) && row.key.location in ids))
        && Drain(operation.tables, old(operation.Contents()), rows, action, note).Done?
        && operation.Contents() == Drain(operation.tables, old(operation.Contents()), rows, action, note).state
        && (result.value.deactivated ==>
              nodes == map x | x in old(nodes) ::
                         if x in ids then old(nodes)[x].(active := false) else old(nodes)[x])
        && (!result.value.deactivated ==> nodes == old(nodes) - ids)
    {
      var levels, found := FindRows(id);
      var allIds := Union(levels);
      ids, rows := allIds, found;
      LiveRowsCount(operation.inventory, allIds, found);
      if id !in nodes { return Failure(LocationNotFound), ids, rows; }
      var units := Units(found);
      var invalid := Validate(nodes, nodes[id], allIds, found, action);
      if invalid.Some? { return Failure(invalid.value), ids, rows; }
      var history := HasHistory(allIds);
      if units > 0 { DrainValidated(allIds, found, action, note); }
      Retire(id, levels, history || units > 0);
      return Success(Removal(history || units > 0, |allIds|, units)), ids, rows;
    }
  }

  function Deactivated(t: Nodes, ids: set<Id>): Nodes {
    map x | x in t :: if x in ids then t[x].(active := false) else t[x]
  }

  lemma {:induction false} DeactivationKeepsForest(t: Nodes, ids: set<Id>)
    requires Acyclic(t) && Linked(t)
    ensures Acyclic(Deactivated(t, ids)) && Linked(Deactivated(t, ids))
  {
    var off := Deactivated(t, ids);
    forall x, n: nat | n >= 1 ensures Up(off, x, n) != Some(x) { SameParentsSameUp(t, off, x, n); }
  }

  lemma {:induction false} SameParentsSameUp(t: Nodes, u: Nodes, x: Id, n: nat)
    requires forall y :: ParentOf(t, y) == ParentOf(u, y)
    ensures Up(t, x, n) == Up(u, x, n)
    decreases n
  {
    if n > 0 && ParentOf(t, x).Some? { SameParentsSameUp(t, u, ParentOf(t, x).value, n - 1); }
  }

  // ---------- what a removal does to the stock ----------

  /**
   * Main result for a move: no positive stock is left on the subtree, the
   * destination gains exactly each product's positive total there, no other
   * row changes, and every product keeps its total.
   */
  lemma {:induction false} MovingStockAway(t: Tables, s: State, ids: set<Id>, rows: seq<StockRow>, destination: Id,
                                           note: Option<string>)
    requires AreLiveRows(s.inventory, ids, rows) && destination !in ids && destination != ""
    ensures var o := Drain(t, s, rows, MoveTo(Some(destination)), note);
      && o.Done?
      && (forall k ::
            Qty(o.state.inventory, k)
            == if LiveOn(s.inventory, ids, k) then 0
               else if k.location == destination
                    then Qty(s.inventory, k) + SumMap(LiveStock(s.inventory, ids, k.product))
                    else Qty(s.inventory, k))
      && (forall p :: Total(o.state.inventory, p) == Total(s.inventory, p))
  {
    var action := MoveTo(Some(destination));
    var o := Drain(t, s, rows, action, note);
    TransferDrain(t, s, rows, action, note, Key("", ""));
    forall p ensures Total(o.state.inventory, p) == Total(s.inventory, p) {
      TransferDrainTotals(t, s, rows, action, note, p);
    }
    forall k ensures Qty(o.state.inventory, k)
            == if LiveOn(s.inventory, ids, k) then 0
               else if k.location == destination
                    then Qty(s.inventory, k) + SumMap(LiveStock(s.inventory, ids, k.product))
                    else Qty(s.inventory, k) {
      TransferDrain(t, s, rows, action, note, k);
      LiveRowsAddUp(s.inventory, ids, k.product, rows);
      if LiveOn(s.inventory, ids, k) { assert StockRow(k, s.inventory[k]) in rows; }
    }
  }

  /** Main result for a write-off: exactly the positive rows become zero, and each is logged with its negative. */
  lemma {:induction false} WritingStockOff(t: Tables, s: State, ids: set<Id>, rows: seq<StockRow>, reason: string,
                                           note: Option<string>)
    requires AreLiveRows(s.inventory, ids, rows)
    ensures var o := Drain(t, s, rows, WriteOff(reason), note);
      && o.Done?
      && (forall k :: Qty(o.state.inventory, k) == if LiveOn(s.inventory, ids, k) then 0 else Qty(s.inventory, k))
      && o.state.log == s.log + WriteOffRows(rows, reason)
  {
    var o := Drain(t, s, rows, WriteOff(reason), note);
    WriteOffDrain(t, s, rows, WriteOff(reason), note, Key("", ""));
    forall k ensures Qty(o.state.inventory, k) == if LiveOn(s.inventory, ids, k) then 0 else Qty(s.inventory, k) {
      WriteOffDrain(t, s, rows, WriteOff(reason), note, k);
      if LiveOn(s.inventory, ids, k) { assert StockRow(k, s.inventory[k]) in rows; }
    }
  }
}
