/**
 * Approval of one pending operation by any number of concurrent callers.
 * Every caller reads, claims, executes and then links or releases; the steps
 * of all callers, and all other stock traffic, interleave freely.
 */
module PendingOperations {
  import opened Wrappers
  import opened StockEngine
  import opened StockLedger

  datatype Status = PENDING | APPROVED | REJECTED

  datatype Operation = Operation(
    count: bool, status: Status, product: Option<Id>, quantity: int, location: Option<Id>,
    voiceText: Option<string>, committedLog: Option<nat>)

  /** Where a caller of `approve` stands, with what it has read so far. */
  datatype Phase =
    | Arriving
    | Confirming(countProduct: Option<Id>, countQuantity: int)
    | Claiming(product: Id, quantity: int, location: Id)
    | Executing(product: Id, quantity: int, location: Id)
    | Releasing
    | Linking(log: nat)
    | Returned
    | Thrown

  /** A caller with the manager's product and quantity, if given, and the operation as it has read it. */
  datatype Caller = Caller(product: Option<Id>, quantity: Option<int>, phase: Phase, seen: Option<Operation>)

  /**
   * `written` remembers the log rows that the callers' executions have written,
   * and `winner` the caller whose update made the operation APPROVED.
   */
  datatype System = System(op: Operation, stock: State, callers: seq<Caller>, written: seq<nat>, winner: Option<nat>)

  datatype Event =
    | Read(caller: nat)
    | Confirm(caller: nat)
    | Claim(caller: nat)
    | Execute(caller: nat, tables: Tables, databaseFails: bool)
    | LostReply(caller: nat, tables: Tables)   // the stock is committed, but the caller sees an error
    | Release(caller: nat)
    | Link(caller: nat, databaseFails: bool)
    | Reject        // the check for PENDING and the update as one step
    | LateReject    // the update alone, after a check that is out of date
    | Other(call: Call)

  const APPROVAL_NOTE := "تأیید مدیر برای عملیات صوتی کارگر"

  function NoteOf(op: Operation): Option<string> {
    Some(if Given(op.voiceText) then op.voiceText.value else APPROVAL_NOTE)
  }

  function EntryRequest(op: Operation, product: Id, quantity: int, location: Id): Request {
    Request(In, product, location, None, Whole(quantity), NotWhole, NoteOf(op), None, None, false, true)
  }

  function PhaseOf(s: System, i: nat): Phase
    requires i < |s.callers|
  {
    s.callers[i].phase
  }

  predicate Enabled(s: System, e: Event) {
    match e
    case Read(i) => i < |s.callers| && PhaseOf(s, i).Arriving?
    case Confirm(i) => i < |s.callers| && PhaseOf(s, i).Confirming?
    case Claim(i) => i < |s.callers| && PhaseOf(s, i).Claiming?
    case Execute(i, _, _) => i < |s.callers| && PhaseOf(s, i).Executing?
    case LostReply(i, _) => i < |s.callers| && PhaseOf(s, i).Executing?
    case Release(i) => i < |s.callers| && PhaseOf(s, i).Releasing?
    case Link(i, _) => i < |s.callers| && PhaseOf(s, i).Linking?
    case Reject => s.op.status == PENDING
    case LateReject => true
    case Other(_) => true
  }

  function Moved(s: System, i: nat, phase: Phase): System
    requires i < |s.callers|
  {
    s.(callers := s.callers[i := s.callers[i].(phase := phase)])
  }

  /** The manager's product and quantity where given, else those of the operation. */
  function ChosenProduct(c: Caller, op: Operation): Option<Id> { if c.product.Some? then c.product else op.product }
  function ChosenQuantity(c: Caller, op: Operation): int {
    if c.quantity.Some? then c.quantity.value else op.quantity
  }

  function PhaseAfterRead(op: Operation, c: Caller): Phase {
    var product, quantity := ChosenProduct(c, op), ChosenQuantity(c, op);
    if op.status == APPROVED then Returned
    else if op.status == REJECTED then Thrown
    else if op.count then Confirming(product, quantity)
    else if !Given(product) || !Given(op.location) then Thrown
    else Claiming(product.value, quantity, op.location.value)
  }

  function Apply(s: System, e: Event): System
    requires Enabled(s, e)
  {
    match e
    case Read(i) =>
      var c := s.callers[i];
      s.(callers := s.callers[i := c.(phase := PhaseAfterRead(s.op, c), seen := Some(s.op))])
    case Confirm(i) =>
      var p := PhaseOf(s, i);
      var t := Moved(s, i, Returned);
      if s.op.status != PENDING then t
      else
        t.(op := s.op.(status := APPROVED, quantity := p.countQuantity,
                       product := if p.countProduct.Some? then p.countProduct else s.op.product),
           winner := Some(i))
    case Claim(i) =>
      var p := PhaseOf(s, i);
      if s.op.status != PENDING then Moved(s, i, Returned)
      else
        Moved(s, i, Executing(p.product, p.quantity, p.location))
        .(op := s.op.(status := APPROVED, product := Some(p.product), quantity := p.quantity), winner := Some(i))
    case Execute(i, tables, fails) =>
      var p := PhaseOf(s, i);
      var o := Step(tables, s.stock, EntryRequest(s.op, p.product, p.quantity, p.location));
      if fails || o.Refused? || !o.reply.Moved? then Moved(s, i, Releasing)
      else Moved(s, i, Linking(o.reply.logIndex)).(stock := o.state, written := s.written + [o.reply.logIndex])
    case LostReply(i, tables) =>
      var p := PhaseOf(s, i);
      var o := Step(tables, s.stock, EntryRequest(s.op, p.product, p.quantity, p.location));
      if o.Refused? || !o.reply.Moved? then Moved(s, i, Releasing)
      else Moved(s, i, Releasing).(stock := o.state, written := s.written + [o.reply.logIndex])
    case Release(i) => Moved(s, i, Thrown).(op := s.op.(status := PENDING), winner := None)
    case Link(i, fails) =>
      if fails then Moved(s, i, Thrown)
      else Moved(s, i, Returned).(op := s.op.(committedLog := Some(PhaseOf(s, i).log)))
    case Reject => s.(op := s.op.(status := REJECTED))
    case LateReject => s.(op := s.op.(status := REJECTED))
    case Other(call) => s.(stock := After(s.stock, call))
  }

  ghost predicate IsRun(s: System, run: seq<Event>)
    decreases |run|
  {
    run != [] ==> Enabled(s, run[0]) && IsRun(Apply(s, run[0]), run[1..])
  }

  ghost function End(s: System, run: seq<Event>): System
    requires IsRun(s, run)
    decreases |run|
  {
    if run == [] then s else End(Apply(s, run[0]), run[1..])
  }

  /** Any number of callers, each with its own overrides, none of which has begun. */
  ghost predicate IsStart(s: System) {
    && s.op.status == PENDING && s.op.committedLog.None? && s.written == [] && s.winner == None
    && forall c | c in s.callers :: c.phase.Arriving? && c.seen == None
  }

  /** No caller is under way. */
  ghost predicate Quiet(s: System) {
    forall c | c in s.callers :: c.phase.Arriving? || c.phase.Returned? || c.phase.Thrown?
  }

  // ---------- the invariant of an entry ----------

  predicate Owns(p: Phase) { p.Executing? || p.Releasing? }

  predicate Records(s: System, index: nat) {
    && index < |s.stock.log|
    && Given(s.op.product) && Given(s.op.location)
    && s.stock.log[index]
       == LogRow(Key(s.op.product.value, s.op.location.value), s.op.quantity, IN,
                 Some(if s.op.voiceText == None || s.op.voiceText == Some("") then "تأیید مدیر برای عملیات صوتی کارگر"
                      else s.op.voiceText.value))
  }

  ghost predicate OneOwner(s: System) {
    forall i, j | 0 <= i < j < |s.callers| :: !(Owns(PhaseOf(s, i)) && Owns(PhaseOf(s, j)))
  }

  ghost predicate Invariant(s: System) {
    && !s.op.count
    && |s.written| <= 1
    && OneOwner(s)
    && (forall i | 0 <= i < |s.callers| :: CallerOk(s, PhaseOf(s, i)))
    && (s.op.status != APPROVED ==> s.written == [])
    && (s.op.status == APPROVED && s.written == [] ==> exists i :: 0 <= i < |s.callers| && Owns(PhaseOf(s, i)))
    && (forall index | index in s.written :: Records(s, index))
    && (s.op.committedLog.Some? ==> s.written == [s.op.committedLog.value])
  }

  ghost predicate CallerOk(s: System, p: Phase) {
    && !p.Confirming?
    && (Owns(p) ==> s.op.status == APPROVED && s.written == [])
    && (p.Claiming? ==> p.product != "" && Given(s.op.location) && p.location == s.op.location.value)
    && (p.Executing? ==> p.product != "" && s.op.product == Some(p.product) && p.quantity == s.op.quantity
                         && Given(s.op.location) && p.location == s.op.location.value)
    && (p.Linking? ==> s.written == [p.log])
  }

  /** An entry that goes through appends its own row and touches no earlier one. */
  lemma {:induction false} EntryWritesRow(t: Tables, stock: State, op: Operation, product: Id, quantity: int,
                                          location: Id)
    ensures var o := Step(t, stock, EntryRequest(op, product, quantity, location));
      o.Done? ==>
        && o.reply.Moved?
        && stock.log <= o.state.log
        && o.reply.logIndex == |o.state.log| - 1
        && o.state.log[o.reply.logIndex] == LogRow(Key(product, location), quantity, IN, NoteOf(op))
  {
  }

  lemma {:induction false} CallAppends(s: State, c: Call)
    ensures s.log <= After(s, c).log
  {
    LogIsAppendOnly(s, [c]);
  }

  /** While one caller owns the claim, the others neither own nor record anything. */
  lemma {:induction false} OnlyOwner(s: System, i: nat)
    requires Invariant(s) && i < |s.callers| && Owns(PhaseOf(s, i))
    ensures forall j | 0 <= j < |s.callers| && j != i :: !Owns(PhaseOf(s, j)) && !PhaseOf(s, j).Linking?
    ensures s.op.status == APPROVED && s.written == []
  {
    assert CallerOk(s, PhaseOf(s, i));
    forall j | 0 <= j < |s.callers| && j != i ensures !Owns(PhaseOf(s, j)) && !PhaseOf(s, j).Linking? {
      assert CallerOk(s, PhaseOf(s, j));
    }
  }

  lemma {:induction false} OneOwnerKept(s: System, s': System)
    requires OneOwner(s) && |s'.callers| == |s.callers|
    requires forall i | 0 <= i < |s.callers| && Owns(PhaseOf(s', i)) :: Owns(PhaseOf(s, i))
    ensures OneOwner(s')
  {
    forall i, j | 0 <= i < j < |s'.callers| ensures !(Owns(PhaseOf(s', i)) && Owns(PhaseOf(s', j))) {
      assert !(Owns(PhaseOf(s, i)) && Owns(PhaseOf(s, j)));
    }
  }

  lemma {:induction false} CallersOkKept(s: System, s': System, i: nat)
    requires Invariant(s) && |s'.callers| == |s.callers|
    requires forall j | 0 <= j < |s.callers| && j != i :: s'.callers[j] == s.callers[j]
    requires i < |s.callers| ==> CallerOk(s', PhaseOf(s', i))
    requires s'.op.location == s.op.location
    requires (s'.written == s.written && s'.op == s.op)
             || forall j | 0 <= j < |s.callers| && j != i :: !Owns(PhaseOf(s, j)) && !PhaseOf(s, j).Linking?
    ensures forall j | 0 <= j < |s.callers| :: CallerOk(s', PhaseOf(s', j))
  {
    forall j | 0 <= j < |s.callers| && j != i ensures CallerOk(s', PhaseOf(s', j)) {
      assert CallerOk(s, PhaseOf(s, j)) && PhaseOf(s', j) == PhaseOf(s, j);
    }
  }

  lemma {:induction false} ExecuteInvariant(s: System, e: Event)
    requires Invariant(s) && Enabled(s, e) && e.Execute?
    ensures Invariant(Apply(s, e))
  {
    var s' := Apply(s, e);
    var p := PhaseOf(s, e.caller);
    EntryWritesRow(e.tables, s.stock, s.op, p.product, p.quantity, p.location);
    assert CallerOk(s, p);
    OnlyOwner(s, e.caller);
    CallersOkKept(s, s', e.caller);
    OneOwnerKept(s, s');
    if s'.written == [] { assert Owns(PhaseOf(s', e.caller)); }
  }

  /** A claim that wins the flip makes its caller the only owner. */
  lemma {:induction false} ClaimInvariant(s: System, e: Event)
    requires Invariant(s) && Enabled(s, e) && e.Claim?
    ensures Invariant(Apply(s, e))
  {
    var s' := Apply(s, e);
    assert CallerOk(s, PhaseOf(s, e.caller));
    if s.op.status == PENDING {
      forall j | 0 <= j < |s.callers| ensures !Owns(PhaseOf(s, j)) && !PhaseOf(s, j).Linking? {
        assert CallerOk(s, PhaseOf(s, j));
      }
      forall j | 0 <= j < |s.callers| && j != e.caller ensures !Owns(PhaseOf(s', j)) {
        assert PhaseOf(s', j) == PhaseOf(s, j);
      }
      assert Owns(PhaseOf(s', e.caller));
    } else {
      OneOwnerKept(s, s');
      WitnessKept(s, s');
    }
    CallersOkKept(s, s', e.caller);
  }

  lemma {:induction false} ReleaseInvariant(s: System, e: Event)
    requires Invariant(s) && Enabled(s, e) && e.Release?
    ensures Invariant(Apply(s, e))
  {
    OnlyOwner(s, e.caller);
    CallersOkKept(s, Apply(s, e), e.caller);
    OneOwnerKept(s, Apply(s, e));
  }

  lemma {:induction false} LinkInvariant(s: System, e: Event)
    requires Invariant(s) && Enabled(s, e) && e.Link?
    ensures Invariant(Apply(s, e))
  {
    var s' := Apply(s, e);
    assert CallerOk(s, PhaseOf(s, e.caller));
    forall j | 0 <= j < |s.callers| ensures CallerOk(s', PhaseOf(s', j)) {
      assert CallerOk(s, PhaseOf(s, j));
    }
    OneOwnerKept(s, s');
  }

  lemma {:induction false} ReadInvariant(s: System, e: Event)
    requires Invariant(s) && Enabled(s, e) && e.Read?
    ensures Invariant(Apply(s, e))
  {
    CallersOkKept(s, Apply(s, e), e.caller);
    OneOwnerKept(s, Apply(s, e));
    WitnessKept(s, Apply(s, e));
  }

  /** Steps that move no caller: an atomic rejection, or other stock traffic. */
  lemma {:induction false} OutsideInvariant(s: System, e: Event)
    requires Invariant(s) && Enabled(s, e) && (e.Reject? || e.Other?)
    ensures Invariant(Apply(s, e))
  {
    var s' := Apply(s, e);
    if e.Other? { CallAppends(s.stock, e.call); }
    forall j | 0 <= j < |s.callers| ensures CallerOk(s', PhaseOf(s', j)) {
      assert CallerOk(s, PhaseOf(s, j));
    }
    OneOwnerKept(s, s');
    WitnessKept(s, s');
  }

  /** A late rejection keeps the invariant exactly if it does not hit an approved operation. */
  lemma {:induction false} LateRejectInvariantIff(s: System)
    requires Invariant(s)
    ensures Invariant(Apply(s, LateReject)) <==> s.op.status != APPROVED
    ensures Quiet(s) ==> (SettledOnce(Apply(s, LateReject)) <==> s.op.status != APPROVED)
  {
    var s' := Apply(s, LateReject);
    if s.op.status == APPROVED {
      if s.written == [] {
        var i :| 0 <= i < |s.callers| && Owns(PhaseOf(s, i));
        assert Owns(PhaseOf(s', i)) && !CallerOk(s', PhaseOf(s', i));
        assert s.callers[i] in s.callers;
      }
    } else {
      forall j | 0 <= j < |s.callers| ensures CallerOk(s', PhaseOf(s', j)) {
        assert CallerOk(s, PhaseOf(s, j));
      }
      OneOwnerKept(s, s');
    }
  }

  /** APPROVED, with one row written; or not APPROVED, with none. */
  ghost predicate SettledOnce(s: System) { |s.written| <= 1 && (s.op.status == APPROVED <==> |s.written| == 1) }

  /** The engine refuses the entry that the caller is about to make. */
  predicate EntryRefused(s: System, i: nat, tables: Tables)
    requires i < |s.callers| && PhaseOf(s, i).Executing?
  {
    var p := PhaseOf(s, i);
    Step(tables, s.stock, EntryRequest(s.op, p.product, p.quantity, p.location)).Refused?
  }

  /** A lost reply keeps the invariant exactly if there was nothing to commit. */
  lemma {:induction false} LostReplyInvariantIff(s: System, i: nat, tables: Tables)
    requires Invariant(s) && Enabled(s, LostReply(i, tables))
    ensures Invariant(Apply(s, LostReply(i, tables))) <==> EntryRefused(s, i, tables)
  {
    var p := PhaseOf(s, i);
    var s' := Apply(s, LostReply(i, tables));
    EntryWritesRow(tables, s.stock, s.op, p.product, p.quantity, p.location);
    OnlyOwner(s, i);
    if EntryRefused(s, i, tables) {
      assert s' == Apply(s, Execute(i, tables, true));
      ExecuteInvariant(s, Execute(i, tables, true));
    } else {
      assert Owns(PhaseOf(s', i)) && !CallerOk(s', PhaseOf(s', i));
    }
  }

  /**
   * A rejection does not hit an approved operation, the guard that is missing
   * between its check and its update; and no reply of a commit gets lost.
   */
  predicate Harmless(s: System, e: Event)
    requires Enabled(s, e)
  {
    match e
    case LateReject => s.op.status != APPROVED
    case LostReply(i, tables) => EntryRefused(s, i, tables)
    case _ => true
  }

  ghost predicate HarmlessRun(s: System, run: seq<Event>)
    requires IsRun(s, run)
    decreases |run|
  {
    run != [] ==> Harmless(s, run[0]) && HarmlessRun(Apply(s, run[0]), run[1..])
  }

  lemma {:induction false} StepInvariant(s: System, e: Event)
    requires Invariant(s) && Enabled(s, e) && Harmless(s, e)
    ensures Invariant(Apply(s, e))
  {
    match e
    case Read(_) => ReadInvariant(s, e);
    case Confirm(_) => assert false;
    case Claim(_) => ClaimInvariant(s, e);
    case Execute(_, _, _) => ExecuteInvariant(s, e);
    case LostReply(i, tables) => LostReplyInvariantIff(s, i, tables);
    case Release(_) => ReleaseInvariant(s, e);
    case Link(_, _) => LinkInvariant(s, e);
    case Reject => OutsideInvariant(s, e);
    case LateReject => LateRejectInvariantIff(s);
    case Other(_) => OutsideInvariant(s, e);
  }

  /** If the owning caller does not move, it still owns. */
  lemma {:induction false} WitnessKept(s: System, s': System)
    requires |s'.callers| == |s.callers|
    requires forall i | 0 <= i < |s.callers| && Owns(PhaseOf(s, i)) :: Owns(PhaseOf(s', i))
    ensures (exists i :: 0 <= i < |s.callers| && Owns(PhaseOf(s, i)))
            ==> exists i :: 0 <= i < |s'.callers| && Owns(PhaseOf(s', i))
  {
    if i :| 0 <= i < |s.callers| && Owns(PhaseOf(s, i)) {
      assert Owns(PhaseOf(s', i));
    }
  }

  lemma {:induction false} RunInvariant(s: System, run: seq<Event>)
    requires Invariant(s) && IsRun(s, run) && HarmlessRun(s, run)
    ensures Invariant(End(s, run))
    decreases |run|
  {
    if run != [] {
      StepInvariant(s, run[0]);
      RunInvariant(Apply(s, run[0]), run[1..]);
    }
  }

  /**
   * Main result for an entry, in every state that is reached without rejecting
   * an approved operation and without losing the reply of a commit: at most one
   * stock row has been written.  When nobody is under way, the operation is
   * APPROVED exactly if one was, and then that row carries the product, quantity
   * and location that the operation now stores.
   */
  lemma {:induction false} ApprovedExactlyOnce(s: System, run: seq<Event>)
    requires IsStart(s) && !s.op.count && IsRun(s, run) && HarmlessRun(s, run)
    ensures var t := End(s, run);
      && |t.written| <= 1
      && (forall index | index in t.written :: Records(t, index))
      && (Quiet(t) ==> SettledOnce(t))
      && (t.op.committedLog.Some? ==> t.written == [t.op.committedLog.value])
  {
    RunInvariant(s, run);
  }

  lemma {:induction false} RejectedStays(s: System, run: seq<Event>)
    requires Invariant(s) && s.op.status == REJECTED && IsRun(s, run) && HarmlessRun(s, run)
    ensures End(s, run).op.status == REJECTED && End(s, run).written == []
    decreases |run|
  {
    if run != [] {
      var e := run[0];
      StepInvariant(s, e);
      if e.Release? || e.Execute? || e.LostReply? { OnlyOwner(s, e.caller); }
      RejectedStays(Apply(s, e), run[1..]);
    }
  }

  /** A rejection that finds the operation PENDING is final: whoever approves later, nothing is ever written. */
  lemma {:induction false} RejectionIsFinal(s: System, run: seq<Event>)
    requires IsStart(s) && !s.op.count && IsRun(s, [Reject] + run) && HarmlessRun(s, [Reject] + run)
    ensures End(s, [Reject] + run).op.status == REJECTED && End(s, [Reject] + run).written == []
  {
    assert ([Reject] + run)[1..] == run;
    StepInvariant(s, Reject);
    RejectedStays(Apply(s, Reject), run);
  }

  // ---------- counts ----------

  function OtherCalls(run: seq<Event>): seq<Call> {
    if run == [] then []
    else (if run[0].Other? then [run[0].call] else []) + OtherCalls(run[1..])
  }

  ghost predicate CountInvariant(s: System) {
    s.op.count && s.written == []
    && forall c | c in s.callers :: c.phase.Arriving? || c.phase.Confirming? || c.phase.Returned? || c.phase.Thrown?
  }

  /**
   * Main result for a count: whatever the callers do, the stock is what the
   * other calls alone make of it.
   */
  lemma {:induction false} CountNeverTouchesStock(s: System, run: seq<Event>)
    requires CountInvariant(s) && IsRun(s, run)
    ensures End(s, run).stock == Run(s.stock, OtherCalls(run))
    ensures CountInvariant(End(s, run))
    decreases |run|
  {
    if run != [] {
      var e := run[0];
      var s' := Apply(s, e);
      assert CountInvariant(s');
      CountNeverTouchesStock(s', run[1..]);
      if e.Other? {
        assert ([e.call] + OtherCalls(run[1..]))[1..] == OtherCalls(run[1..]);
      } else {
        assert [] + OtherCalls(run[1..]) == OtherCalls(run[1..]);
      }
    }
  }

  // ---------- whose product and quantity ----------

  /** A caller's choice: the manager's product and quantity where given, else what the caller has read. */
  ghost predicate Chose(c: Caller, product: Option<Id>, quantity: int) {
    && c.seen.Some?
    && product == (if c.product.Some? then c.product else c.seen.value.product)
    && quantity == (if c.quantity.Some? then c.quantity.value else c.seen.value.quantity)
  }

  /** Whatever is stored was there at the start, or is some manager's. */
  ghost predicate Sourced(start: System, op: Operation) {
    && (op.product == start.op.product || exists c :: c in start.callers && c.product.Some? && op.product == c.product)
    && (op.quantity == start.op.quantity || exists c :: c in start.callers && c.quantity == Some(op.quantity))
    && op.count == start.op.count && op.location == start.op.location && op.voiceText == start.op.voiceText
  }

  predicate SameChoice(a: Operation, b: Operation) { a.product == b.product && a.quantity == b.quantity }

  /** `kept`: no claim has been released, so a PENDING operation is as it was at the start. */
  ghost predicate CallerChoice(start: System, kept: bool, was: Caller, c: Caller) {
    && c.product == was.product && c.quantity == was.quantity
    && (c.phase.Arriving? || c.seen.Some?)
    && (c.seen.Some? ==> Sourced(start, c.seen.value))
    && (c.phase.Confirming? ==> Chose(c, c.phase.countProduct, c.phase.countQuantity))
    && (c.phase.Claiming? || c.phase.Executing? ==> Chose(c, Some(c.phase.product), c.phase.quantity))
    && (start.op.count ==> !c.phase.Claiming? && !c.phase.Executing? && !c.phase.Releasing? && !c.phase.Linking?)
    && (!start.op.count ==> !c.phase.Confirming?)
    && (kept && (c.phase.Confirming? || c.phase.Claiming?) ==> SameChoice(c.seen.value, start.op))
  }

  ghost predicate ChoiceInvariant(start: System, kept: bool, s: System) {
    && |s.callers| == |start.callers|
    && (forall i | 0 <= i < |s.callers| :: CallerChoice(start, kept, start.callers[i], s.callers[i]))
    && Sourced(start, s.op)
    && (kept && s.op.status == PENDING ==> SameChoice(s.op, start.op))
    && (s.op.status == APPROVED ==>
          && s.winner.Some? && s.winner.value < |s.callers|
          && var c := s.callers[s.winner.value];
             && !c.phase.Arriving? && Chose(c, s.op.product, s.op.quantity)
             && (kept ==> SameChoice(c.seen.value, start.op)))
  }

  lemma {:induction false} SourcedChoice(start: System, c: Caller, was: Caller, op: Operation)
    requires was in start.callers && c.product == was.product && c.quantity == was.quantity
    requires c.seen.Some? && Sourced(start, c.seen.value) && Chose(c, op.product, op.quantity)
    requires op.count == start.op.count && op.location == start.op.location && op.voiceText == start.op.voiceText
    ensures Sourced(start, op)
  {
  }

  lemma {:induction false} StepChoice(start: System, kept: bool, s: System, e: Event)
    requires ChoiceInvariant(start, kept, s) && Enabled(s, e)
    requires start.op.count ==> kept
    requires kept && !start.op.count ==> !e.Release?
    ensures ChoiceInvariant(start, kept, Apply(s, e))
  {
    match e
    case Read(i) => ReadChoice(start, kept, s, i);
    case Confirm(i) => UpdateChoice(start, kept, s, e, i);
    case Claim(i) => UpdateChoice(start, kept, s, e, i);
    case Execute(i, _, _) => AfterClaimChoice(start, kept, s, e, i);
    case LostReply(i, _) => AfterClaimChoice(start, kept, s, e, i);
    case Release(i) => AfterClaimChoice(start, kept, s, e, i);
    case Link(i, _) => AfterClaimChoice(start, kept, s, e, i);
    case Reject =>
    case LateReject =>
    case Other(_) =>
  }

  lemma {:induction false} ReadChoice(start: System, kept: bool, s: System, i: nat)
    requires ChoiceInvariant(start, kept, s) && Enabled(s, Read(i))
    ensures ChoiceInvariant(start, kept, Apply(s, Read(i)))
  {
    var s' := Apply(s, Read(i));
    assert CallerChoice(start, kept, start.callers[i], s.callers[i]);
    assert CallerChoice(start, kept, start.callers[i], s'.callers[i]);
    forall j | 0 <= j < |s.callers| ensures CallerChoice(start, kept, start.callers[j], s'.callers[j]) {
      assert CallerChoice(start, kept, start.callers[j], s.callers[j]);
    }
  }

  /** The update that makes a PENDING operation APPROVED. */
  lemma {:induction false} UpdateChoice(start: System, kept: bool, s: System, e: Event, i: nat)
    requires ChoiceInvariant(start, kept, s) && Enabled(s, e) && (e == Confirm(i) || e == Claim(i))
    requires start.op.count ==> kept
    ensures ChoiceInvariant(start, kept, Apply(s, e))
  {
    var s' := Apply(s, e);
    var c := s.callers[i];
    assert CallerChoice(start, kept, start.callers[i], c);
    assert CallerChoice(start, kept, start.callers[i], s'.callers[i]);
    forall j | 0 <= j < |s.callers| ensures CallerChoice(start, kept, start.callers[j], s'.callers[j]) {
      assert CallerChoice(start, kept, start.callers[j], s.callers[j]);
    }
    if s.op.status == PENDING {
      assert Chose(s'.callers[i], s'.op.product, s'.op.quantity);
      SourcedChoice(start, s'.callers[i], start.callers[i], s'.op);
    }
  }

  /** The steps after the claim leave product and quantity alone. */
  ghost predicate OnlyMoves(s: System, s': System, i: nat) {
    && i < |s.callers| && |s'.callers| == |s.callers|
    && (forall j | 0 <= j < |s.callers| && j != i :: s'.callers[j] == s.callers[j])
    && s'.callers[i] == s.callers[i].(phase := s'.callers[i].phase)
    && (PhaseOf(s', i).Releasing? || PhaseOf(s', i).Linking? || PhaseOf(s', i).Returned? || PhaseOf(s', i).Thrown?)
    && s'.op == s.op.(status := s'.op.status, committedLog := s'.op.committedLog)
    && (s'.op.status == PENDING || (s'.op.status == s.op.status && s'.winner == s.winner))
  }

  lemma {:induction false} StepsAfterClaimMove(s: System, e: Event, i: nat)
    requires Enabled(s, e)
    requires e == Release(i) || (e.Execute? && e.caller == i) || (e.LostReply? && e.caller == i)
             || (e.Link? && e.caller == i)
    ensures OnlyMoves(s, Apply(s, e), i)
    ensures e.Release? || Apply(s, e).op.status == s.op.status
    ensures PhaseOf(s, i).Executing? || PhaseOf(s, i).Releasing? || PhaseOf(s, i).Linking?
  {
  }

  lemma {:induction false} MoveChoice(start: System, kept: bool, s: System, s': System, i: nat)
    requires ChoiceInvariant(start, kept, s) && OnlyMoves(s, s', i)
    requires !PhaseOf(s, i).Arriving? && !start.op.count && (kept ==> s'.op.status == s.op.status)
    ensures ChoiceInvariant(start, kept, s')
  {
    assert CallerChoice(start, kept, start.callers[i], s.callers[i]);
    assert CallerChoice(start, kept, start.callers[i], s'.callers[i]);
    forall j | 0 <= j < |s.callers| ensures CallerChoice(start, kept, start.callers[j], s'.callers[j]) {
      assert CallerChoice(start, kept, start.callers[j], s.callers[j]);
    }
  }

  lemma {:induction false} AfterClaimChoice(start: System, kept: bool, s: System, e: Event, i: nat)
    requires ChoiceInvariant(start, kept, s) && Enabled(s, e)
    requires e == Release(i) || (e.Execute? && e.caller == i) || (e.LostReply? && e.caller == i)
             || (e.Link? && e.caller == i)
    requires kept && !start.op.count ==> !e.Release?
    ensures ChoiceInvariant(start, kept, Apply(s, e))
  {
    StepsAfterClaimMove(s, e, i);
    assert CallerChoice(start, kept, start.callers[i], s.callers[i]);
    MoveChoice(start, kept, s, Apply(s, e), i);
  }

  lemma {:induction false} RunChoice(start: System, kept: bool, s: System, run: seq<Event>)
    requires ChoiceInvariant(start, kept, s) && IsRun(s, run)
    requires start.op.count ==> kept
    requires kept && !start.op.count ==> forall e | e in run :: !e.Release?
    ensures ChoiceInvariant(start, kept, End(s, run))
    decreases |run|
  {
    if run != [] {
      assert run[0] in run;
      StepChoice(start, kept, s, run[0]);
      RunChoice(start, kept, Apply(s, run[0]), run[1..]);
    }
  }

  /**
   * Main result on overrides, for entries and counts and in every run: while
   * the operation is APPROVED, its product and quantity are those of the caller
   * whose update went through, the manager's where given and else what that
   * caller has read; and whatever is read or stored was there at the start or
   * is some manager's.
   */
  lemma {:induction false} ApprovalIsTheWinners(s: System, run: seq<Event>)
    requires IsStart(s) && IsRun(s, run)
    ensures var t := End(s, run);
      && |t.callers| == |s.callers|
      && t.op.count == s.op.count && t.op.location == s.op.location && t.op.voiceText == s.op.voiceText
      && (t.op.status == APPROVED ==>
            && t.winner.Some? && t.winner.value < |s.callers|
            && var c, seen := s.callers[t.winner.value], t.callers[t.winner.value].seen;
               && seen.Some?
               && t.op.product == (if c.product.Some? then c.product else seen.value.product)
               && t.op.quantity == (if c.quantity.Some? then c.quantity.value else seen.value.quantity)
               && (seen.value.product == s.op.product
                   || exists d :: d in s.callers && d.product.Some? && seen.value.product == d.product)
               && (seen.value.quantity == s.op.quantity
                   || exists d :: d in s.callers && d.quantity == Some(seen.value.quantity)))
  {
    forall c | c in s.callers ensures c.phase.Arriving? && c.seen == None {}
    RunChoice(s, s.op.count, s, run);
    var t := End(s, run);
    if t.op.status == APPROVED {
      var i := t.winner.value;
      assert CallerChoice(s, s.op.count, s.callers[i], t.callers[i]);
    }
  }

  /**
   * As long as no claim had to be released, and always for a count, what the
   * winner has read is what was stored at the start.
   */
  lemma {:induction false} ApprovalOverridesTheStart(s: System, run: seq<Event>)
    requires IsStart(s) && IsRun(s, run) && (s.op.count || forall e | e in run :: !e.Release?)
    ensures var t := End(s, run);
      t.op.status == APPROVED ==>
        && t.winner.Some? && t.winner.value < |s.callers|
        && var c := s.callers[t.winner.value];
           && t.op.product == (if c.product.Some? then c.product else s.op.product)
           && t.op.quantity == (if c.quantity.Some? then c.quantity.value else s.op.quantity)
  {
    forall c | c in s.callers ensures c.phase.Arriving? && c.seen == None {}
    RunChoice(s, true, s, run);
    var t := End(s, run);
    if t.op.status == APPROVED {
      var i := t.winner.value;
      assert CallerChoice(s, true, s.callers[i], t.callers[i]);
    }
  }

  /** So the row that an approval writes is of the winner's product and quantity, at the start's location. */
  lemma {:induction false} RowIsTheWinners(s: System, run: seq<Event>)
    requires IsStart(s) && !s.op.count && IsRun(s, run) && HarmlessRun(s, run)
    requires forall e | e in run :: !e.Release?
    ensures var t := End(s, run);
      t.written != [] ==>
        && t.op.status == APPROVED && t.winner.Some? && t.winner.value < |s.callers|
        && var c := s.callers[t.winner.value];
           var product := if c.product.Some? then c.product else s.op.product;
           && product.Some? && s.op.location.Some? && t.written[0] < |t.stock.log|
           && t.stock.log[t.written[0]].key == Key(product.value, s.op.location.value)
           && t.stock.log[t.written[0]].action == IN
           && t.stock.log[t.written[0]].quantity == if c.quantity.Some? then c.quantity.value else s.op.quantity
  {
    ApprovalOverridesTheStart(s, run);
    ApprovalIsTheWinners(s, run);
    RunInvariant(s, run);
    var t := End(s, run);
    if t.written != [] { assert t.written[0] in t.written && Records(t, t.written[0]); }
  }

  // ---------- one caller by itself ----------

  predicate AtRest(p: Phase) { p.Arriving? || p.Returned? || p.Thrown? }

  /** The next step of a caller under way, when the database does not fail. */
  function NextStep(p: Phase, i: nat, t: Tables): Event
    requires !AtRest(p)
  {
    match p
    case Confirming(_, _) => Confirm(i)
    case Claiming(_, _, _) => Claim(i)
    case Executing(_, _, _) => Execute(i, t, false)
    case Releasing => Release(i)
    case Linking(_) => Link(i, false)
  }

  /** What becomes of the system when one caller goes on alone until it is done. */
  function GoOn(s: System, i: nat, t: Tables, fuel: nat): System
    requires i < |s.callers|
    decreases fuel
  {
    if fuel == 0 || AtRest(PhaseOf(s, i)) then s else GoOn(Apply(s, NextStep(PhaseOf(s, i), i, t)), i, t, fuel - 1)
  }

  function Approve(s: System, i: nat, t: Tables): System
    requires i < |s.callers| && PhaseOf(s, i).Arriving?
  {
    GoOn(Apply(s, Read(i)), i, t, 3)
  }

  lemma {:induction false} GoesOn(s: System, i: nat, t: Tables, fuel: nat)
    requires i < |s.callers| && fuel > 0
    ensures var p := PhaseOf(s, i);
      GoOn(s, i, t, fuel) == if AtRest(p) then s else GoOn(Apply(s, NextStep(p, i, t)), i, t, fuel - 1)
  {
  }

  /** The system when a caller has read and won the claim. */
  function Claimed(s: System, i: nat): System
    requires i < |s.callers| && PhaseOf(s, i).Arriving? && PhaseAfterRead(s.op, s.callers[i]).Claiming?
  {
    Apply(Apply(s, Read(i)), Claim(i))
  }

  lemma {:induction false} ApproveFromClaim(s: System, i: nat, t: Tables)
    requires i < |s.callers| && PhaseOf(s, i).Arriving? && PhaseAfterRead(s.op, s.callers[i]).Claiming?
    ensures var p := PhaseAfterRead(s.op, s.callers[i]);
      && Claimed(s, i)
         == s.(op := s.op.(status := APPROVED, product := Some(p.product), quantity := p.quantity),
               callers := s.callers[i := s.callers[i].(phase := Executing(p.product, p.quantity, p.location),
                                                       seen := Some(s.op))],
               winner := Some(i))
      && Approve(s, i, t) == GoOn(Claimed(s, i), i, t, 2)
  {
    GoesOn(Apply(s, Read(i)), i, t, 3);
  }

  /** The entry, and the link or the release after it. */
  lemma {:induction false} Finish(s: System, i: nat, t: Tables)
    requires i < |s.callers| && PhaseOf(s, i).Executing?
    ensures var p, u := PhaseOf(s, i), GoOn(s, i, t, 2);
      var o := Step(t, s.stock, EntryRequest(s.op, p.product, p.quantity, p.location));
      && |u.callers| == |s.callers| && (forall j | 0 <= j < |s.callers| && j != i :: u.callers[j] == s.callers[j])
      && u.callers[i] == s.callers[i].(phase := if o.Refused? then Thrown else Returned)
      && (o.Refused? ==> u.stock == s.stock && u.op == s.op.(status := PENDING))
      && (o.Done? ==> u.stock == o.state && u.stock.log != []
                      && u.op == s.op.(committedLog := Some(|u.stock.log| - 1)))
  {
    var p := PhaseOf(s, i);
    EntryWritesRow(t, s.stock, s.op, p.product, p.quantity, p.location);
    GoesOn(s, i, t, 2);
    GoesOn(Apply(s, Execute(i, t, false)), i, t, 1);
  }

  /** The claim, the entry and the link, one after the other. */
  lemma {:induction false} ApproveEntry(s: System, i: nat, t: Tables)
    requires i < |s.callers| && PhaseOf(s, i).Arriving? && PhaseAfterRead(s.op, s.callers[i]).Claiming?
    ensures var p := PhaseAfterRead(s.op, s.callers[i]);
      var o, u := Step(t, s.stock, EntryRequest(s.op, p.product, p.quantity, p.location)), Approve(s, i, t);
      && |u.callers| == |s.callers| && (forall j | 0 <= j < |s.callers| && j != i :: u.callers[j] == s.callers[j])
      && u.callers[i] == s.callers[i].(seen := Some(s.op), phase := if o.Refused? then Thrown else Returned)
      && (o.Refused? ==> u.stock == s.stock && u.op == s.op.(product := Some(p.product), quantity := p.quantity))
      && (o.Done? ==> u.stock == o.state && u.stock.log != []
                      && u.op == s.op.(status := APPROVED, product := Some(p.product), quantity := p.quantity,
                                       committedLog := Some(|u.stock.log| - 1)))
  {
    ApproveFromClaim(s, i, t);
    Finish(Claimed(s, i), i, t);
  }

  /**
   * One undisturbed approval, in every case: what it answers, stores and
   * writes.  It takes at most three steps after its reading.
   */
  lemma {:induction false} ApproveAlone(s: System, i: nat, t: Tables)
    requires i < |s.callers| && PhaseOf(s, i).Arriving?
    ensures var u, c := Approve(s, i, t), s.callers[i];
      var product := if c.product.Some? then c.product else s.op.product;
      var quantity := if c.quantity.Some? then c.quantity.value else s.op.quantity;
      && |u.callers| == |s.callers| && (forall j | 0 <= j < |s.callers| && j != i :: u.callers[j] == s.callers[j])
      && u.callers[i].product == c.product && u.callers[i].quantity == c.quantity && u.callers[i].seen == Some(s.op)
      && match s.op.status
         case APPROVED => u.callers[i].phase.Returned? && u.op == s.op && u.stock == s.stock
         case REJECTED => u.callers[i].phase.Thrown? && u.op == s.op && u.stock == s.stock
         case PENDING =>
           if s.op.count then
             && u.callers[i].phase.Returned? && u.stock == s.stock
             && u.op == s.op.(status := APPROVED, product := product, quantity := quantity)
           else if product == None || product == Some("") || s.op.location == None || s.op.location == Some("") then
             u.callers[i].phase.Thrown? && u.op == s.op && u.stock == s.stock
           else if quantity <= 0 then
             && u.callers[i].phase.Thrown? && u.stock == s.stock
             && u.op == s.op.(product := product, quantity := quantity)
           else
             && u.callers[i].phase.Returned? && u.stock.log != []
             && u.op == s.op.(status := APPROVED, product := product, quantity := quantity,
                              committedLog := Some(|u.stock.log| - 1))
             && u.stock.log[|u.stock.log| - 1].key == Key(product.value, s.op.location.value)
             && u.stock.log[|u.stock.log| - 1].quantity == quantity
  {
    var p := PhaseAfterRead(s.op, s.callers[i]);
    GoesOn(Apply(s, Read(i)), i, t, 3);
    if p.Confirming? {
      GoesOn(Apply(Apply(s, Read(i)), Confirm(i)), i, t, 2);
    } else if p.Claiming? {
      ApproveEntry(s, i, t);
      CallRefusedIff(t, s.stock, EntryRequest(s.op, p.product, p.quantity, p.location));
      EntryWritesRow(t, s.stock, s.op, p.product, p.quantity, p.location);
    }
  }

  /** And what it does to the stock: the entry is no purchase and clears the product's shortages there. */
  lemma {:induction false} ApproveAloneMovesStock(s: System, i: nat, t: Tables, k: Key)
    requires i < |s.callers| && PhaseOf(s, i).Arriving? && s.op.status == PENDING && !s.op.count
    requires Approve(s, i, t).op.status == APPROVED
    ensures var c, was := s.callers[i], Qty(s.stock.inventory, k);
      var product := if c.product.Some? then c.product else s.op.product;
      && product.Some? && s.op.location.Some?
      && var there := k.product == product.value && SameWarehouse(t, s.op.location.value, k.location);
         Qty(Approve(s, i, t).stock.inventory, k)
         == (if there && was < 0 then 0 else was)
            + (if k != Key(product.value, s.op.location.value) then 0
               else if c.quantity.Some? then c.quantity.value else s.op.quantity)
  {
    var p := PhaseAfterRead(s.op, s.callers[i]);
    ApproveAlone(s, i, t);
    if p.Claiming? {
      ApproveEntry(s, i, t);
      EntryClearsShortages(t, s.stock, EntryRequest(s.op, p.product, p.quantity, p.location));
    }
  }

  // ---------- a rejection that is not atomic ----------

  /** Rejecting on an out-of-date check leaves a REJECTED operation with its stock row written. */
  lemma {:induction false} LateRejectBreaksApproval(s: System, t: Tables)
    requires IsStart(s) && !s.op.count && |s.callers| == 1
    requires Given(s.op.location) && Given(ChosenProduct(s.callers[0], s.op)) && ChosenQuantity(s.callers[0], s.op) > 0
    ensures var run := [Read(0), Claim(0), Execute(0, t, false), Link(0, false)] + [LateReject];
      && IsRun(s, run)
      && Quiet(End(s, run))
      && End(s, run).op.status == REJECTED
      && |End(s, run).written| == 1
  {
    assert s.callers[0] in s.callers;
    var a := [Read(0), Claim(0), Execute(0, t, false), Link(0, false)];
    ApprovalRun(s, 0, t, false);
    assert [Read(0), Claim(0)] + [Execute(0, t, false), Link(0, false)] == a;
    RunOf(End(s, a), LateReject, []);
    assert [LateReject] + [] == [LateReject];
    RunsInTurn(s, a, [LateReject]);
  }

  // ---------- a commit whose reply is lost ----------

  /** One caller approves: it reads, claims, makes the entry and links it. */
  lemma {:induction false} ApprovalRun(s: System, i: nat, t: Tables, lost: bool)
    requires s.op.status == PENDING && !s.op.count && i < |s.callers| && s.callers[i].phase.Arriving?
    requires Given(s.op.location) && Given(ChosenProduct(s.callers[i], s.op)) && ChosenQuantity(s.callers[i], s.op) > 0
    ensures var run := [Read(i), Claim(i)] + (if lost then [LostReply(i, t), Release(i)]
                                              else [Execute(i, t, false), Link(i, false)]);
      && IsRun(s, run)
      && var e := End(s, run);
         && |e.written| == |s.written| + 1
         && e.op == s.op.(status := if lost then PENDING else APPROVED,
                          product := ChosenProduct(s.callers[i], s.op), quantity := ChosenQuantity(s.callers[i], s.op),
                          committedLog := if lost then s.op.committedLog else e.op.committedLog)
         && |e.callers| == |s.callers| && (forall j | 0 <= j < |s.callers| && j != i :: e.callers[j] == s.callers[j])
         && e.callers[i].phase == if lost then Thrown else Returned
  {
    var e2 := if lost then LostReply(i, t) else Execute(i, t, false);
    var e3 := if lost then Release(i) else Link(i, false);
    var s1 := Apply(s, Read(i));
    var s2 := Apply(s1, Claim(i));
    var product, quantity := ChosenProduct(s.callers[i], s.op).value, ChosenQuantity(s.callers[i], s.op);
    assert PhaseOf(s2, i) == Executing(product, quantity, s.op.location.value);
    EntryWritesRow(t, s2.stock, s2.op, product, quantity, s.op.location.value);
    var s3 := Apply(s2, e2);
    RunOf(s3, e3, []);
    RunOf(s2, e2, [e3]);
    RunOf(s1, Claim(i), [e2, e3]);
    RunOf(s, Read(i), [Claim(i), e2, e3]);
    assert [e3] + [] == [e3] && [e2] + [e3] == [e2, e3] && [Claim(i)] + [e2, e3] == [Claim(i), e2, e3];
    assert [Read(i)] + [Claim(i), e2, e3] == [Read(i), Claim(i)] + [e2, e3];
  }

  lemma {:induction false} RunsInTurn(s: System, a: seq<Event>, b: seq<Event>)
    requires IsRun(s, a) && IsRun(End(s, a), b)
    ensures IsRun(s, a + b) && End(s, a + b) == End(End(s, a), b)
    decreases |a|
  {
    if a == [] {
      assert a + b == b;
    } else {
      assert (a + b)[1..] == a[1..] + b;
      RunsInTurn(Apply(s, a[0]), a[1..], b);
    }
  }

  /** The caller of a lost reply releases the claim, and the next approval writes a second row. */
  lemma {:induction false} LostReplyWritesTwice(s: System, t: Tables)
    requires IsStart(s) && !s.op.count && |s.callers| == 2
    requires Given(s.op.location)
    requires forall c | c in s.callers :: Given(ChosenProduct(c, s.op)) && ChosenQuantity(c, s.op) > 0
    ensures var run := [Read(0), Claim(0), LostReply(0, t), Release(0)]
                       + [Read(1), Claim(1), Execute(1, t, false), Link(1, false)];
      IsRun(s, run) && Quiet(End(s, run)) && |End(s, run).written| == 2
  {
    assert s.callers[0] in s.callers && s.callers[1] in s.callers;
    var a, b := [Read(0), Claim(0), LostReply(0, t), Release(0)],
                [Read(1), Claim(1), Execute(1, t, false), Link(1, false)];
    ApprovalRun(s, 0, t, true);
    assert [Read(0), Claim(0)] + [LostReply(0, t), Release(0)] == a;
    ApprovalRun(End(s, a), 1, t, false);
    assert [Read(1), Claim(1)] + [Execute(1, t, false), Link(1, false)] == b;
    RunsInTurn(s, a, b);
  }

  lemma {:induction false} RunOf(s: System, e: Event, rest: seq<Event>)
    requires Enabled(s, e) && IsRun(Apply(s, e), rest)
    ensures IsRun(s, [e] + rest) && End(s, [e] + rest) == End(Apply(s, e), rest)
  {
    assert ([e] + rest)[1..] == rest;
  }
}
