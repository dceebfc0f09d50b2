/**
 * The single place where stock changes: one quantity per (product, location)
 * and an append-only log of movements.  `Step` is the specification of one
 * call; the class `InventoryOperations` carries it out on mutable tables.
 */
module StockEngine {
  import opened Wrappers
  import opened Order

  datatype Key = Key(product: Id, location: Id)

  datatype Action = IN | OUT | SALE | RETURN | TRANSFER | ADJUST

  datatype LogRow = LogRow(key: Key, quantity: int, action: Action, note: Option<string>)

  datatype State = State(inventory: map<Key, int>, log: seq<LogRow>)

  const EMPTY := State(map[], [])

  /** The tables that a call only reads: the warehouse of each location that has one, and the sessions. */
  datatype Tables = Tables(warehouses: map<Id, Id>, sessions: set<Id>)

  /** What `Number(x)` makes of a field of the request: a whole number, or anything else. */
  datatype Number = Whole(n: int) | NotWhole

  datatype Kind = In | Return | Out | Sale | Transfer | Adjust | Unknown

  datatype Request = Request(
    kind: Kind, product: Id, location: Id, toLocation: Option<Id>,
    quantity: Number, targetQuantity: Number, note: Option<string>, session: Option<Id>,
    purchase: Option<Id>, allowNegative: bool, clearNegative: bool)
  {
    function Source(): Key { Key(product, location) }
  }

  datatype Error =
    | SessionNotFound | InvalidQuantity | InvalidTargetQuantity
    | InsufficientStock(available: int) | DestinationRequired | InvalidOperationType

  /** `quantity` is the source row's (for a transfer the destination row's) quantity after the call. */
  datatype Reply =
    | Moved(quantity: int, logIndex: nat)
    | Transferred(quantity: int)
    | Adjusted(oldQuantity: int, newQuantity: int, diff: int)

  datatype Outcome = Done(state: State, reply: Reply) | Refused(error: Error)

  function Qty(inventory: map<Key, int>, k: Key): int {
    if k in inventory then inventory[k] else 0
  }

  function Guard(t: Tables, r: Request): Option<Error> {
    if Given(r.session) && r.session.value !in t.sessions then Some(SessionNotFound)
    else if r.kind == Adjust then
      if r.targetQuantity.Whole? && r.targetQuantity.n >= 0 then None else Some(InvalidTargetQuantity)
    else if r.quantity.Whole? && r.quantity.n > 0 then None
    else Some(InvalidQuantity)
  }

  // ---------- clearing of negative stock before an entry ----------

  const CLEARING_NOTE := "صفرکردن کسریِ پیش از ثبت، هنگام ورود کالا"

  function ClearingNote(note: Option<string>): string {
    (if Given(note) then note.value + " — " else "") + CLEARING_NOTE
  }

  function NegativeLocations(t: Tables, inventory: map<Key, int>, product: Id, warehouse: Id): set<Id> {
    set k | k in inventory && k.product == product && inventory[k] < 0
            && k.location in t.warehouses && t.warehouses[k.location] == warehouse
      :: k.location
  }

  function Zeroed(inventory: map<Key, int>, product: Id, locations: seq<Id>): map<Key, int> {
    map k | k in inventory :: if k.product == product && k.location in locations then 0 else inventory[k]
  }

  function ClearingRows(inventory: map<Key, int>, product: Id, locations: seq<Id>, note: string): seq<LogRow> {
    seq(|locations|, i requires 0 <= i < |locations| =>
      var k := Key(product, locations[i]);
      LogRow(k, -Qty(inventory, k), ADJUST, Some(note)))
  }

  function ZeroedOut(s: State, product: Id, locations: seq<Id>, note: string): State {
    State(Zeroed(s.inventory, product, locations), s.log + ClearingRows(s.inventory, product, locations, note))
  }

  function Cleared(t: Tables, s: State, r: Request): State {
    if r.location !in t.warehouses then s
    else ZeroedOut(s, r.product, SortedIds(NegativeLocations(t, s.inventory, r.product, t.warehouses[r.location])),
                   ClearingNote(r.note))
  }

  lemma {:induction false} NothingZeroed(s: State, product: Id, note: string)
    ensures ZeroedOut(s, product, [], note) == s
  {
    assert s.log + ClearingRows(s.inventory, product, [], note) == s.log;
  }

  /** Clearing one more row: its quantity is still untouched, exactly it becomes zero, and one row is logged. */
  lemma {:induction false} NextZeroed(s: State, product: Id, rows: seq<Id>, note: string, i: nat)
    requires Distinct(rows) && i < |rows| && Key(product, rows[i]) in s.inventory
    ensures var before, k := ZeroedOut(s, product, rows[..i], note), Key(product, rows[i]);
      && k in before.inventory
      && ZeroedOut(s, product, rows[..i + 1], note)
         == State(before.inventory[k := 0],
                  before.log + [LogRow(k, -before.inventory[k], ADJUST, Some(note))])
  {
    ZeroedNext(s.inventory, product, rows, i);
    ClearingRowsNext(s.inventory, product, rows, note, i);
  }

  lemma {:induction false} ZeroedNext(inventory: map<Key, int>, product: Id, rows: seq<Id>, i: nat)
    requires Distinct(rows) && i < |rows|
    requires Key(product, rows[i]) in inventory
    ensures var k := Key(product, rows[i]);
      && k in Zeroed(inventory, product, rows[..i])
      && Zeroed(inventory, product, rows[..i])[k] == inventory[k]
      && Zeroed(inventory, product, rows[..i + 1]) == Zeroed(inventory, product, rows[..i])[k := 0]
  {
    assert rows[..i + 1] == rows[..i] + [rows[i]];
    forall k ensures k in rows[..i + 1] <==> k in rows[..i] || k == rows[i] {}
  }

  lemma {:induction false} ClearingRowsNext(inventory: map<Key, int>, product: Id, rows: seq<Id>, note: string, i: nat)
    requires i < |rows|
    ensures var k := Key(product, rows[i]);
      ClearingRows(inventory, product, rows[..i + 1], note)
      == ClearingRows(inventory, product, rows[..i], note)
         + [LogRow(k, -Qty(inventory, k), ADJUST, Some(note))]
  {
  }

  predicate Clears(r: Request) { r.kind == In && !Given(r.purchase) && r.clearNegative }

  // ---------- one call ----------

  function OutNote(to: Id): Option<string> { Some("TRANSFER OUT -> " + to) }
  function InNote(from: Id): Option<string> { Some("TRANSFER IN <- " + from) }

  function Entry(t: Tables, s: State, r: Request): Outcome
    requires r.quantity.Whole?
  {
    var c := if Clears(r) then Cleared(t, s, r) else s;
    var after := Qty(c.inventory, r.Source()) + r.quantity.n;
    var row := LogRow(r.Source(), r.quantity.n, if r.kind == Return then RETURN else IN, r.note);
    Done(State(c.inventory[r.Source() := after], c.log + [row]), Moved(after, |c.log|))
  }

  function Withdrawal(s: State, r: Request): Outcome
    requires r.quantity.Whole?
  {
    var before := Qty(s.inventory, r.Source());
    if !r.allowNegative && before < r.quantity.n then Refused(InsufficientStock(before))
    else
      var after := before - r.quantity.n;
      var row := LogRow(r.Source(), r.quantity.n, if r.kind == Sale then SALE else OUT, r.note);
      Done(State(s.inventory[r.Source() := after], s.log + [row]), Moved(after, |s.log|))
  }

  function Relocation(s: State, r: Request): Outcome
    requires r.quantity.Whole?
  {
    if !Given(r.toLocation) then Refused(DestinationRequired)
    else
      var to := Key(r.product, r.toLocation.value);
      var q := r.quantity.n;
      var before := Qty(s.inventory, r.Source());
      if before < q then Refused(InsufficientStock(before))
      else
        var taken := s.inventory[r.Source() := before - q];
        var after := Qty(taken, to) + q;
        Done(State(taken[to := after],
                   s.log + [LogRow(r.Source(), q, TRANSFER, OutNote(to.location)),
                            LogRow(to, q, TRANSFER, InNote(r.location))]),
             Transferred(after))
  }

  function Adjustment(s: State, r: Request): Outcome
    requires r.targetQuantity.Whole?
  {
    var before := Qty(s.inventory, r.Source());
    var target := r.targetQuantity.n;
    var diff := target - before;
    var rows := if diff == 0 then [] else [LogRow(r.Source(), diff, ADJUST, r.note)];
    Done(State(s.inventory[r.Source() := target], s.log + rows), Adjusted(before, target, diff))
  }

  /** One call of `execute`, as one atomic step. */
  function Step(t: Tables, s: State, r: Request): Outcome {
    var refusal := Guard(t, r);
    if refusal.Some? then Refused(refusal.value)
    else
      match r.kind
      case In => Entry(t, s, r)
      case Return => Entry(t, s, r)
      case Out => Withdrawal(s, r)
      case Sale => Withdrawal(s, r)
      case Transfer => Relocation(s, r)
      case Adjust => Adjustment(s, r)
      case Unknown => Refused(InvalidOperationType)
  }

  /** The service over its mutable tables. */
  class InventoryOperations {
    var inventory: map<Key, int>
    var log: seq<LogRow>
    var tables: Tables

    constructor (tables: Tables)
      ensures this.tables == tables && Contents() == EMPTY
    {
      this.tables := tables;
      inventory, log := map[], [];
    }

    function Contents(): State
      reads this
    {
      State(inventory, log)
    }

    /** One round of the clearing loop. */
    method ZeroOne(product: Id, rows: seq<Id>, note: string, i: nat, ghost start: State)
      requires Distinct(rows) && i < |rows| && Key(product, rows[i]) in start.inventory
      requires Contents() == ZeroedOut(start, product, rows[..i], note)
      modifies this`inventory, this`log
      ensures Contents() == ZeroedOut(start, product, rows[..i + 1], note)
    {
      NextZeroed(start, product, rows, note, i);
      var k := Key(product, rows[i]);
      var quantity := inventory[k];
      inventory := inventory[k := 0];
      log := log + [LogRow(k, -quantity, ADJUST, Some(note))];
    }

    /** Sets the given rows of a product to zero, logging each as an adjustment. */
    method ZeroOut(product: Id, rows: seq<Id>, note: string)
      requires Distinct(rows) && forall id | id in rows :: Key(product, id) in inventory
      modifies this`inventory, this`log
      ensures Contents() == ZeroedOut(old(Contents()), product, rows, note)
    {
      ghost var start := Contents();
      NothingZeroed(start, product, note);
      assert rows[..0] == [];
      for i := 0 to |rows|
        invariant Contents() == ZeroedOut(start, product, rows[..i], note)
      {
        assert rows[i] in rows;
        ZeroOne(product, rows, note, i, start);
      }
      assert rows[..|rows|] == rows;
    }

    method ZeroOutNegatives(r: Request)
      modifies this`inventory, this`log
      ensures Contents() == Cleared(tables, old(Contents()), r)
    {
      if r.location !in tables.warehouses { return; }
      ZeroOut(r.product,
              SortedIds(NegativeLocations(tables, inventory, r.product, tables.warehouses[r.location])),
              ClearingNote(r.note));
    }

    method Enter(r: Request) returns (reply: Reply)
      requires r.quantity.Whole?
      modifies this`inventory, this`log
      ensures Entry(tables, old(Contents()), r) == Done(Contents(), reply)
    {
      if r.kind == In && !Given(r.purchase) && r.clearNegative {
        ZeroOutNegatives(r);
      }
      var k := r.Source();
      inventory := inventory[k := Qty(inventory, k) + r.quantity.n];
      var index := |log|;
      log := log + [LogRow(k, r.quantity.n, if r.kind == Return then RETURN else IN, r.note)];
      reply := Moved(inventory[k], index);
    }

    /** The conditional decrement: changes the row only if it holds enough. */
    method TakeIfEnough(k: Key, quantity: int) returns (taken: bool)
      requires quantity > 0
      modifies this`inventory
      ensures taken <==> Qty(old(inventory), k) >= quantity
      ensures inventory == if taken then old(inventory)[k := Qty(old(inventory), k) - quantity] else old(inventory)
    {
      taken := k in inventory && inventory[k] >= quantity;
      if taken {
        inventory := inventory[k := inventory[k] - quantity];
      }
    }

    method Withdraw(r: Request) returns (result: Result<Reply, Error>)
      requires r.quantity.Whole? && r.quantity.n > 0
      modifies this`inventory, this`log
      ensures match Withdrawal(old(Contents()), r)
              case Done(s, reply) => Contents() == s && result == Success(reply)
              case Refused(e) => Contents() == old(Contents()) && result == Failure(e)
    {
      var k := r.Source();
      if r.allowNegative {
        inventory := inventory[k := Qty(inventory, k) - r.quantity.n];
      } else {
        var taken := TakeIfEnough(k, r.quantity.n);
        if !taken { return Failure(InsufficientStock(Qty(inventory, k))); }
      }
      var index := |log|;
      log := log + [LogRow(k, r.quantity.n, if r.kind == Sale then SALE else OUT, r.note)];
      return Success(Moved(inventory[k], index));
    }

    method Relocate(r: Request) returns (result: Result<Reply, Error>)
      requires r.quantity.Whole? && r.quantity.n > 0
      modifies this`inventory, this`log
      ensures match Relocation(old(Contents()), r)
              case Done(s, reply) => Contents() == s && result == Success(reply)
              case Refused(e) => Contents() == old(Contents()) && result == Failure(e)
    {
      if !Given(r.toLocation) { return Failure(DestinationRequired); }
      var k, to := r.Source(), Key(r.product, r.toLocation.value);
      var taken := TakeIfEnough(k, r.quantity.n);
      if !taken { return Failure(InsufficientStock(Qty(inventory, k))); }
      inventory := inventory[to := Qty(inventory, to) + r.quantity.n];
      log := log + [LogRow(k, r.quantity.n, TRANSFER, OutNote(to.location)),
                    LogRow(to, r.quantity.n, TRANSFER, InNote(r.location))];
      return Success(Transferred(inventory[to]));
    }

    method SetTo(r: Request) returns (reply: Reply)
      requires r.targetQuantity.Whole?
      modifies this`inventory, this`log
      ensures Adjustment(old(Contents()), r) == Done(Contents(), reply)
    {
      var k := r.Source();
      var before := Qty(inventory, k);
      var diff := r.targetQuantity.n - before;
      inventory := inventory[k := r.targetQuantity.n];
      if diff != 0 {
        log := log + [LogRow(k, diff, ADJUST, r.note)];
      }
      reply := Adjusted(before, r.targetQuantity.n, diff);
    }

    method Execute(r: Request) returns (result: Result<Reply, Error>)
      modifies this`inventory, this`log
      ensures match Step(tables, old(Contents()), r)
              case Done(s, reply) => Contents() == s && result == Success(reply)
              case Refused(e) => Contents() == old(Contents()) && result == Failure(e)
    {
      if Given(r.session) && r.session.value !in tables.sessions {
        return Failure(SessionNotFound);
      }
      if r.kind == Adjust {
        if !r.targetQuantity.Whole? || r.targetQuantity.n < 0 { return Failure(InvalidTargetQuantity); }
      } else if !r.quantity.Whole? || r.quantity.n <= 0 {
        return Failure(InvalidQuantity);
      }
      if r.kind == In || r.kind == Return {
        var reply := Enter(r);
        return Success(reply);
      }
      if r.kind == Out || r.kind == Sale {
        result := Withdraw(r);
        return;
      }
      if r.kind == Transfer {
        result := Relocate(r);
        return;
      }
      if r.kind == Adjust {
        var reply := SetTo(r);
        return Success(reply);
      }
      return Failure(InvalidOperationType);
    }
  }
}
