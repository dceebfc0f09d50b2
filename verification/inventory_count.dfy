/**
 * Applying a stock count: the counted items are grouped by product and each
 * product's stock at the count's location is set to the sum.
 */
module InventoryCounts {
  import opened Wrappers
  import opened Order
  import opened StockEngine
  import opened StockLedger
  import opened Sums
  import Decimal

  datatype Item = Item(id: Id, product: Option<Id>, name: string, goodQuantity: int)

  datatype Count = Count(location: Id, items: seq<Item>, applied: bool)

  datatype Group = Group(name: string, goodQuantity: int, itemIds: seq<Id>)

  datatype Line =
    | NoProductLink(item: string)
    | ProductLine(product: string, oldQuantity: int, newQuantity: int, diff: int)

  datatype CountError = CountNotFound | Refusal(error: Error)

  // ---------- grouping ----------

  function Last<T>(s: seq<T>): T
    requires s != []
  {
    s[|s| - 1]
  }

  function Front<T>(s: seq<T>): seq<T>
    requires s != []
  {
    s[..|s| - 1]
  }

  /** The linked products, in the order of their first item. */
  function Products(items: seq<Item>): seq<Id> {
    if items == [] then []
    else
      var before := Products(Front(items));
      if Given(Last(items).product) && Last(items).product.value !in before
      then before + [Last(items).product.value] else before
  }

  function GoodTotal(items: seq<Item>, product: Id): int {
    if items == [] then 0
    else GoodTotal(Front(items), product)
         + (if Last(items).product == Some(product) then Last(items).goodQuantity else 0)
  }

  function ItemIds(items: seq<Item>, product: Id): seq<Id> {
    if items == [] then []
    else ItemIds(Front(items), product) + (if Last(items).product == Some(product) then [Last(items).id] else [])
  }

  function FirstName(items: seq<Item>, product: Id): string {
    if items == [] then ""
    else if product in Products(Front(items)) then FirstName(Front(items), product)
    else Last(items).name
  }

  function Unlinked(items: seq<Item>): seq<Line> {
    if items == [] then []
    else Unlinked(Front(items)) + (if Given(Last(items).product) then [] else [NoProductLink(Last(items).name)])
  }

  lemma {:induction false} ProductsAreLinked(items: seq<Item>)
    ensures Distinct(Products(items))
    ensures forall p :: p in Products(items) <==> p != "" && exists i :: 0 <= i < |items| && items[i].product == Some(p)
  {
    if items != [] {
      ProductsAreLinked(Front(items));
      forall p
        ensures p in Products(items) <==> p != "" && exists i :: 0 <= i < |items| && items[i].product == Some(p) {
        if p != "" && Last(items).product == Some(p) { assert items[|items| - 1].product == Some(p); }
        if i :| 0 <= i < |Front(items)| && Front(items)[i].product == Some(p) { assert items[i].product == Some(p); }
      }
    }
  }

  function GroupOf(items: seq<Item>, product: Id): Group {
    Group(FirstName(items, product), GoodTotal(items, product), ItemIds(items, product))
  }

  lemma {:induction false} GroupGrows(done: seq<Item>, product: Id)
    requires done != [] && product != ""
    ensures product in Products(Front(done)) && Last(done).product != Some(product) ==>
              GroupOf(done, product) == GroupOf(Front(done), product)
    ensures product in Products(Front(done)) && Last(done).product == Some(product) ==>
              var g := GroupOf(Front(done), product);
              GroupOf(done, product)
              == Group(g.name, g.goodQuantity + Last(done).goodQuantity, g.itemIds + [Last(done).id])
    ensures product !in Products(Front(done)) && Last(done).product == Some(product) ==>
              GroupOf(done, product) == Group(Last(done).name, Last(done).goodQuantity, [Last(done).id])
  {
    if product !in Products(Front(done)) { FreshProduct(Front(done), product); }
  }

  /** The grouping loop of `apply`. */
  method GroupItems(items: seq<Item>) returns (order: seq<Id>, groups: map<Id, Group>, unlinked: seq<Line>)
    ensures order == Products(items) && unlinked == Unlinked(items)
    ensures forall p | p in order :: p in groups && groups[p] == GroupOf(items, p)
  {
    order, groups, unlinked := [], map[], [];
    for i := 0 to |items|
      invariant order == Products(items[..i]) && unlinked == Unlinked(items[..i])
      invariant forall p :: p in groups <==> p in order
      invariant forall p | p in order :: groups[p] == GroupOf(items[..i], p)
    {
      var item := items[i];
      var done := items[..i + 1];
      assert Front(done) == items[..i] && Last(done) == item;
      ProductsAreLinked(items[..i]);
      forall p | p in order ensures p != "" { assert p in Products(items[..i]); }
      forall p | p != "" { GroupGrows(done, p); }
      if !Given(item.product) {
        unlinked := unlinked + [NoProductLink(item.name)];
        continue;
      }
      var p := item.product.value;
      if p in groups {
        groups := groups[p := groups[p].(goodQuantity := groups[p].goodQuantity + item.goodQuantity,
                                         itemIds := groups[p].itemIds + [item.id])];
      } else {
        groups := groups[p := Group(item.name, item.goodQuantity, [item.id])];
        order := order + [p];
      }
    }
    assert items[..|items|] == items;
  }

  lemma {:induction false} FreshProduct(items: seq<Item>, product: Id)
    requires product != "" && product !in Products(items)
    ensures GoodTotal(items, product) == 0 && ItemIds(items, product) == []
  {
    if items != [] { FreshProduct(Front(items), product); }
  }

  // ---------- applying ----------

  function Note(merged: nat): Option<string> {
    Some("Inventory count adjustment (" + Decimal.ToString(merged) + " item(s) merged)")
  }

  function SetRequest(location: Id, product: Id, g: Group): Request {
    Request(Adjust, product, location, None, NotWhole, Whole(g.goodQuantity), Note(|g.itemIds|),
            None, None, false, true)
  }

  /** The adjustments of the first products, up to the first that is refused. */
  function Applied(s: State, location: Id, items: seq<Item>, products: seq<Id>): State
    decreases |products|
  {
    if products == [] then s
    else
      var o := Step(Tables(map[], {}), s, SetRequest(location, products[0], GroupOf(items, products[0])));
      if o.Refused? then s else Applied(o.state, location, items, products[1..])
  }

  predicate Accepted(items: seq<Item>, products: seq<Id>) {
    forall p | p in products :: GoodTotal(items, p) >= 0
  }

  function Lines(s: State, location: Id, items: seq<Item>, products: seq<Id>): seq<Line> {
    seq(|products|, i requires 0 <= i < |products| =>
      var p := products[i];
      var before := Qty(s.inventory, Key(p, location));
      ProductLine(FirstName(items, p), before, GoodTotal(items, p), GoodTotal(items, p) - before))
  }

  /** An adjustment needs no session and no warehouse, so the tables do not matter. */
  lemma {:induction false} SetStep(t: Tables, s: State, location: Id, product: Id, g: Group)
    ensures Step(t, s, SetRequest(location, product, g))
            == if g.goodQuantity >= 0 then Adjustment(s, SetRequest(location, product, g))
               else Refused(InvalidTargetQuantity)
  {
  }

  lemma {:induction false} AppliedSplit(s: State, location: Id, items: seq<Item>, products: seq<Id>, i: nat)
    requires i <= |products| && Accepted(items, products[..i])
    ensures Applied(s, location, items, products)
            == Applied(Applied(s, location, items, products[..i]), location, items, products[i..])
    decreases i
  {
    if i == 0 {
      assert products[..0] == [] && products[0..] == products;
    } else {
      var g := GroupOf(items, products[0]);
      assert products[0] in products[..i];
      SetStep(Tables(map[], {}), s, location, products[0], g);
      assert products[..i][1..] == products[1..][..i - 1] && products[i..] == products[1..][i - 1..];
      forall p | p in products[1..][..i - 1] ensures GoodTotal(items, p) >= 0 { assert p in products[..i]; }
      var s' := Adjustment(s, SetRequest(location, products[0], g)).state;
      AppliedSplit(s', location, items, products[1..], i - 1);
    }
  }

  lemma {:induction false} AppliedNext(t: Tables, s: State, location: Id, items: seq<Item>, products: seq<Id>, i: nat)
    requires i < |products| && Accepted(items, products[..i])
    ensures var before := Applied(s, location, items, products[..i]);
      var o := Step(t, before, SetRequest(location, products[i], GroupOf(items, products[i])));
      && (o.Done? <==> GoodTotal(items, products[i]) >= 0)
      && (o.Done? ==> o.state == Applied(s, location, items, products[..i + 1]))
      && (o.Refused? ==> o.error == InvalidTargetQuantity && before == Applied(s, location, items, products))
  {
    var before := Applied(s, location, items, products[..i]);
    SetStep(t, before, location, products[i], GroupOf(items, products[i]));
    SetStep(Tables(map[], {}), before, location, products[i], GroupOf(items, products[i]));
    AppliedSplit(s, location, items, products, i);
    AppliedSplit(s, location, items, products[..i + 1], i);
    assert products[..i + 1][..i] == products[..i] && products[..i + 1][i..] == [products[i]];
    assert [products[i]][1..] == [];
  }

  lemma {:induction false} AppliedQty(s: State, location: Id, items: seq<Item>, products: seq<Id>, k: Key)
    requires Distinct(products) && Accepted(items, products)
    ensures Qty(Applied(s, location, items, products).inventory, k)
            == if k.location == location && k.product in products then GoodTotal(items, k.product)
               else Qty(s.inventory, k)
    ensures k in Applied(s, location, items, products).inventory
            <==> k in s.inventory || (k.location == location && k.product in products)
    decreases |products|
  {
    if products != [] {
      assert products == [products[0]] + products[1..];
      assert products[0] !in products[1..];
      var o := Step(Tables(map[], {}), s, SetRequest(location, products[0], GroupOf(items, products[0])));
      AppliedQty(o.state, location, items, products[1..], k);
    }
  }

  lemma {:induction false} SetReply(t: Tables, s: State, location: Id, product: Id, g: Group)
    requires g.goodQuantity >= 0
    ensures var o := Step(t, s, SetRequest(location, product, g));
      var before := Qty(s.inventory, Key(product, location));
      o.Done? && o.reply == Adjusted(before, g.goodQuantity, g.goodQuantity - before)
  {
  }

  lemma {:induction false} LinesNext(s: State, location: Id, items: seq<Item>, products: seq<Id>, i: nat)
    requires i < |products|
    ensures var p := products[i];
      var before := Qty(s.inventory, Key(p, location));
      Lines(s, location, items, products[..i + 1])
      == Lines(s, location, items, products[..i])
         + [ProductLine(FirstName(items, p), before, GoodTotal(items, p), GoodTotal(items, p) - before)]
  {
  }

  /** One round of the loop: what the next adjustment does and reports. */
  lemma {:induction false} NextAdjustment(t: Tables, s: State, location: Id, items: seq<Item>, products: seq<Id>,
                                          i: nat)
    requires Distinct(products) && i < |products| && Accepted(items, products[..i])
    ensures var p := products[i];
      var o := Step(t, Applied(s, location, items, products[..i]), SetRequest(location, p, GroupOf(items, p)));
      var before := Qty(s.inventory, Key(p, location));
      var total := GoodTotal(items, p);
      if total >= 0
      then && Accepted(items, products[..i + 1])
           && o == Done(Applied(s, location, items, products[..i + 1]), Adjusted(before, total, total - before))
           && Lines(s, location, items, products[..i + 1])
              == Lines(s, location, items, products[..i])
                 + [ProductLine(FirstName(items, p), before, total, total - before)]
      else && !Accepted(items, products)
           && o == Refused(InvalidTargetQuantity)
           && Applied(s, location, items, products[..i]) == Applied(s, location, items, products)
  {
    var p := products[i];
    AppliedNext(t, s, location, items, products, i);
    AppliedQty(s, location, items, products[..i], Key(p, location));
    if GoodTotal(items, p) >= 0 {
      SetReply(t, Applied(s, location, items, products[..i]), location, p, GroupOf(items, p));
    }
    LinesNext(s, location, items, products, i);
    assert products[i] in products && products[i] !in products[..i];
    assert products[..i + 1] == products[..i] + [products[i]];
  }

  class InventoryCountService {
    const operation: InventoryOperations
    var counts: map<Id, Count>

    constructor (operation: InventoryOperations)
      ensures this.operation == operation && counts == map[]
    {
      this.operation := operation;
      counts := map[];
    }

    /** The adjustment of one grouped product. */
    method AdjustOne(location: Id, items: seq<Item>, order: seq<Id>, i: nat, group: Group, ghost start: State)
      returns (result: Result<Line, Error>)
      requires Distinct(order) && i < |order| && Accepted(items, order[..i]) && group == GroupOf(items, order[i])
      requires operation.Contents() == Applied(start, location, items, order[..i])
      modifies operation
      ensures if result.Success?
              then && Accepted(items, order[..i + 1])
                   && operation.Contents() == Applied(start, location, items, order[..i + 1])
                   && Lines(start, location, items, order[..i + 1])
                      == Lines(start, location, items, order[..i]) + [result.value]
              else && !Accepted(items, order) && result.error == InvalidTargetQuantity
                   && operation.Contents() == Applied(start, location, items, order)
    {
      NextAdjustment(operation.tables, start, location, items, order, i);
      var r := operation.Execute(SetRequest(location, order[i], group));
      if r.Failure? { return Failure(r.error); }
      return Success(ProductLine(group.name, r.value.oldQuantity, r.value.newQuantity, r.value.diff));
    }

    /** One adjustment per grouped product, stopping at the first that is refused. */
    method AdjustAll(location: Id, items: seq<Item>, order: seq<Id>, groups: map<Id, Group>)
      returns (lines: seq<Line>, refusal: Option<Error>)
      requires order == Products(items) && forall p | p in order :: p in groups && groups[p] == GroupOf(items, p)
      modifies operation
      ensures operation.Contents() == Applied(old(operation.Contents()), location, items, order)
      ensures if Accepted(items, order)
              then refusal == None && lines == Lines(old(operation.Contents()), location, items, order)
              else refusal == Some(InvalidTargetQuantity)
    {
      ghost var start := operation.Contents();
      ProductsAreLinked(items);
      lines := [];
      assert order[..0] == [];
      for i := 0 to |order|
        invariant Accepted(items, order[..i])
        invariant operation.Contents() == Applied(start, location, items, order[..i])
        invariant lines == Lines(start, location, items, order[..i])
      {
        var line := AdjustOne(location, items, order, i, groups[order[i]], start);
        if line.Failure? { return lines, Some(line.error); }
        lines := lines + [line.value];
      }
      assert order[..|order|] == order;
      refusal := None;
    }

    method Apply(id: Id) returns (result: Result<seq<Line>, CountError>)
      modifies this, operation
      ensures id !in old(counts) ==>
        result == Failure(CountNotFound) && counts == old(counts) && operation.Contents() == old(operation.Contents())
      ensures id in old(counts) ==>
        var c := old(counts)[id];
        var products := Products(c.items);
        && operation.Contents() == Applied(old(operation.Contents()), c.location, c.items, products)
        && (if Accepted(c.items, products)
            then result == Success(Unlinked(c.items) + Lines(old(operation.Contents()), c.location, c.items, products))
                 && counts == old(counts)[id := c.(applied := true)]
            else result == Failure(Refusal(InvalidTargetQuantity)) && counts == old(counts))
      ensures id in old(counts) && (forall i | i in old(counts)[id].items :: i.goodQuantity >= 0) ==> result.Success?
    {
      if id !in counts { return Failure(CountNotFound); }
      var c := counts[id];
      var order, groups, unlinked := GroupItems(c.items);
      var lines, refusal := AdjustAll(c.location, c.items, order, groups);
      if forall i | i in c.items :: i.goodQuantity >= 0 { StoredItemsAreAccepted(c.items); }
      if refusal.Some? { return Failure(Refusal(refusal.value)); }
      counts := counts[id := c.(applied := true)];
      return Success(unlinked + lines);
    }
  }

  // ---------- what the groups are ----------

  /** Some positions of the list, from left to right. */
  ghost predicate Ascending(at: seq<nat>, n: nat) {
    && (forall i | 0 <= i < |at| :: at[i] < n)
    && forall i, j | 0 <= i < j < |at| :: at[i] < at[j]
  }

  lemma {:induction false} AscendingNext(at: seq<nat>, n: nat)
    requires Ascending(at, n)
    ensures Ascending(at + [n], n + 1) && Ascending(at, n + 1)
    ensures forall i :: i in at + [n] <==> i in at || i == n
  {
  }

  /** Whether an item is linked to the product. */
  ghost predicate IsLinked(items: seq<Item>, product: Id, i: int) {
    0 <= i < |items| && items[i].product == Some(product)
  }

  lemma {:induction false} FrontIsLinked(items: seq<Item>, product: Id, i: int)
    requires items != []
    ensures IsLinked(items, product, i)
            <==> IsLinked(Front(items), product, i) || (i == |items| - 1 && Last(items).product == Some(product))
  {
  }

  ghost predicate HasNoProduct(items: seq<Item>, i: int) {
    0 <= i < |items| && (items[i].product == None || items[i].product == Some(""))
  }

  lemma {:induction false} FrontHasNoProduct(items: seq<Item>, i: int)
    requires items != []
    ensures HasNoProduct(items, i)
            <==> HasNoProduct(Front(items), i) || (i == |items| - 1 && !Given(Last(items).product))
  {
  }

  /** Reported as unlinked are exactly the items without product, by name and in their order. */
  lemma {:induction false} UnlinkedAre(items: seq<Item>) returns (at: seq<nat>)
    ensures Ascending(at, |items|) && forall i :: i in at <==> HasNoProduct(items, i)
    ensures |Unlinked(items)| == |at|
    ensures forall n | 0 <= n < |at| :: Unlinked(items)[n] == NoProductLink(items[at[n]].name)
  {
    if items == [] {
      at := [];
    } else {
      at := UnlinkedAre(Front(items));
      AscendingNext(at, |items| - 1);
      forall i { FrontHasNoProduct(items, i); }
      if !Given(Last(items).product) { at := at + [|items| - 1]; }
    }
  }

  /** The item is linked to a product that no earlier item is linked to. */
  ghost predicate MentionsFirst(items: seq<Item>, i: nat)
    requires i < |items|
  {
    && items[i].product != None && items[i].product != Some("")
    && forall j | 0 <= j < i :: items[j].product != items[i].product
  }

  lemma {:induction false} LastMentionsFirst(items: seq<Item>)
    requires items != []
    ensures forall i | 0 <= i < |items| - 1 :: MentionsFirst(items, i) <==> MentionsFirst(Front(items), i)
    ensures MentionsFirst(items, |items| - 1)
            <==> Given(Last(items).product) && Last(items).product.value !in Products(Front(items))
  {
    ProductsAreLinked(Front(items));
    forall i | 0 <= i < |items| - 1 ensures MentionsFirst(items, i) <==> MentionsFirst(Front(items), i) {
      forall j | 0 <= j <= i ensures items[j] == Front(items)[j] {}
    }
    if Given(Last(items).product) && Last(items).product.value in Products(Front(items)) {
      var i :| 0 <= i < |Front(items)| && Front(items)[i].product == Last(items).product;
      assert items[i].product == Last(items).product;
    }
  }

  /** The products come in the order of their first items, each once. */
  lemma {:induction false} ProductsByFirstItem(items: seq<Item>) returns (at: seq<nat>)
    ensures Ascending(at, |items|) && |Products(items)| == |at|
    ensures forall n | 0 <= n < |at| :: items[at[n]].product == Some(Products(items)[n])
    ensures forall i :: i in at <==> 0 <= i < |items| && MentionsFirst(items, i)
  {
    if items == [] {
      at := [];
    } else {
      at := ProductsByFirstItem(Front(items));
      AscendingNext(at, |items| - 1);
      LastMentionsFirst(items);
      if MentionsFirst(items, |items| - 1) { at := at + [|items| - 1]; }
    }
  }

  /** What each item adds to a product's total. */
  ghost function Counted(items: seq<Item>, product: Id): seq<int> {
    seq(|items|, i requires 0 <= i < |items| => if items[i].product == Some(product) then items[i].goodQuantity else 0)
  }

  lemma {:induction false} SumSeqSnoc(s: seq<int>, x: int)
    ensures SumSeq(s + [x]) == SumSeq(s) + x
  {
    if s == [] {
      assert [] + [x] == [x];
    } else {
      assert (s + [x])[1..] == s[1..] + [x];
      SumSeqSnoc(s[1..], x);
    }
  }

  lemma {:induction false} GoodTotalIsSum(items: seq<Item>, product: Id)
    ensures GoodTotal(items, product) == SumSeq(Counted(items, product))
  {
    if items != [] {
      var last := if Last(items).product == Some(product) then Last(items).goodQuantity else 0;
      GoodTotalIsSum(Front(items), product);
      SumSeqSnoc(Counted(Front(items), product), last);
      assert Counted(items, product) == Counted(Front(items), product) + [last];
    }
  }

  lemma {:induction false} ItemIdsAre(items: seq<Item>, product: Id) returns (at: seq<nat>)
    ensures Ascending(at, |items|) && forall i :: i in at <==> IsLinked(items, product, i)
    ensures |ItemIds(items, product)| == |at|
    ensures forall n | 0 <= n < |at| :: ItemIds(items, product)[n] == items[at[n]].id
  {
    if items == [] {
      at := [];
    } else {
      at := ItemIdsAre(Front(items), product);
      AscendingNext(at, |items| - 1);
      forall i { FrontIsLinked(items, product, i); }
      if Last(items).product == Some(product) { at := at + [|items| - 1]; }
    }
  }

  lemma {:induction false} FirstNameIs(items: seq<Item>, product: Id, i: nat)
    requires product != "" && i < |items| && items[i].product == Some(product)
    requires forall j | 0 <= j < i :: items[j].product != Some(product)
    ensures FirstName(items, product) == items[i].name
  {
    ProductsAreLinked(Front(items));
    if i < |items| - 1 {
      assert Front(items)[i].product == Some(product);
      FirstNameIs(Front(items), product, i);
    } else {
      forall j | 0 <= j < |Front(items)| ensures Front(items)[j].product != Some(product) {
        assert Front(items)[j] == items[j];
      }
    }
  }

  /** A group has the name of the product's first item, the sum of its items, and their identifiers in order. */
  lemma {:induction false} GroupIs(items: seq<Item>, product: Id) returns (at: seq<nat>)
    requires product != "" && exists i :: IsLinked(items, product, i)
    ensures Ascending(at, |items|) && at != [] && forall i :: i in at <==> IsLinked(items, product, i)
    ensures var g := GroupOf(items, product);
      && g.goodQuantity == SumSeq(Counted(items, product))
      && |g.itemIds| == |at| && (forall n | 0 <= n < |at| :: g.itemIds[n] == items[at[n]].id)
      && g.name == items[at[0]].name
  {
    GoodTotalIsSum(items, product);
    at := ItemIdsAre(items, product);
    var i :| IsLinked(items, product, i);
    assert i in at;
    forall j | 0 <= j < at[0] ensures items[j].product != Some(product) {
      forall n | 0 <= n < |at| ensures at[n] > j {}
      assert !IsLinked(items, product, j);
    }
    assert at[0] in at;
    FirstNameIs(items, product, at[0]);
  }

  /** The report tells what each product held, holds, and the difference, under its first item's name. */
  lemma {:induction false} LinesReport(s: State, location: Id, items: seq<Item>, n: nat)
    requires Accepted(items, Products(items)) && n < |Products(items)|
    ensures |Lines(s, location, items, Products(items))| == |Products(items)|
    ensures var k := Key(Products(items)[n], location);
      var was, now := Qty(s.inventory, k), Qty(Applied(s, location, items, Products(items)).inventory, k);
      Lines(s, location, items, Products(items))[n] == ProductLine(FirstName(items, k.product), was, now, now - was)
  {
    ProductsAreLinked(items);
    AppliedQty(s, location, items, Products(items), Key(Products(items)[n], location));
  }

  // ---------- what applying a count means ----------

  /** No product's items add up to less than nothing. */
  ghost predicate NoNegativeTotal(items: seq<Item>) { forall p | p != "" :: SumSeq(Counted(items, p)) >= 0 }

  lemma {:induction false} UnmentionedIsZero(items: seq<Item>, product: Id)
    requires forall i | 0 <= i < |items| :: items[i].product != Some(product)
    ensures GoodTotal(items, product) == 0
  {
    if items != [] { UnmentionedIsZero(Front(items), product); }
  }

  /** A count is accepted exactly if no product's items add up to less than nothing. */
  lemma {:induction false} AcceptedIff(items: seq<Item>)
    ensures Accepted(items, Products(items)) <==> NoNegativeTotal(items)
  {
    ProductsAreLinked(items);
    forall p | p != "" ensures p in Products(items) || SumSeq(Counted(items, p)) == 0 {
      GoodTotalIsSum(items, p);
      if p !in Products(items) { UnmentionedIsZero(items, p); }
    }
    forall p ensures GoodTotal(items, p) == SumSeq(Counted(items, p)) { GoodTotalIsSum(items, p); }
  }

  /**
   * Main result: when no product's total is negative, each counted product's
   * stock at the location is the sum of its items and no other row changes.
   */
  lemma {:induction false} CountSetsStock(s: State, location: Id, items: seq<Item>, k: Key)
    requires NoNegativeTotal(items)
    ensures Qty(Applied(s, location, items, Products(items)).inventory, k)
            == if k.location == location && k.product != ""
                  && exists i :: 0 <= i < |items| && items[i].product == Some(k.product)
               then SumSeq(Counted(items, k.product)) else Qty(s.inventory, k)
  {
    AcceptedIff(items);
    ProductsAreLinked(items);
    GoodTotalIsSum(items, k.product);
    AppliedQty(s, location, items, Products(items), k);
  }

  /** One adjustment for each product whose stock changes, saying how many items it merges. */
  ghost function CountRows(s: State, location: Id, items: seq<Item>, products: seq<Id>): seq<LogRow> {
    if products == [] then []
    else
      CountRow(Key(products[0], location), Qty(s.inventory, Key(products[0], location)),
               GoodTotal(items, products[0]), |ItemIds(items, products[0])|)
      + CountRows(s, location, items, products[1..])
  }

  ghost function CountRow(k: Key, was: int, now: int, merged: nat): seq<LogRow> {
    if now == was then []
    else [LogRow(k, now - was, ADJUST,
                 Some("Inventory count adjustment (" + Decimal.ToString(merged) + " item(s) merged)"))]
  }

  lemma {:induction false} CountRowsElsewhere(s: State, s': State, location: Id, items: seq<Item>, products: seq<Id>)
    requires forall p | p in products :: Qty(s.inventory, Key(p, location)) == Qty(s'.inventory, Key(p, location))
    ensures CountRows(s, location, items, products) == CountRows(s', location, items, products)
  {
    if products != [] {
      assert products == [products[0]] + products[1..];
      CountRowsElsewhere(s, s', location, items, products[1..]);
    }
  }

  lemma {:induction false} SetLogs(t: Tables, s: State, location: Id, product: Id, g: Group)
    requires g.goodQuantity >= 0
    ensures var o, k := Step(t, s, SetRequest(location, product, g)), Key(product, location);
      var diff := g.goodQuantity - Qty(s.inventory, k);
      && o.Done?
      && o.state.log == s.log + (if diff == 0 then [] else [LogRow(k, diff, ADJUST, Note(|g.itemIds|))])
      && forall x | x != k :: Qty(o.state.inventory, x) == Qty(s.inventory, x)
  {
    assert s.log + [] == s.log;
  }

  lemma {:induction false} FirstApplied(s: State, location: Id, items: seq<Item>, products: seq<Id>)
    returns (s': State)
    requires products != [] && GoodTotal(items, products[0]) >= 0
    ensures Applied(s, location, items, products) == Applied(s', location, items, products[1..])
    ensures var k := Key(products[0], location);
      && s'.log == s.log + CountRow(k, Qty(s.inventory, k), GoodTotal(items, products[0]),
                                    |ItemIds(items, products[0])|)
      && forall x | x != k :: Qty(s'.inventory, x) == Qty(s.inventory, x)
  {
    SetLogs(Tables(map[], {}), s, location, products[0], GroupOf(items, products[0]));
    s' := Step(Tables(map[], {}), s, SetRequest(location, products[0], GroupOf(items, products[0]))).state;
  }

  lemma {:induction false} ThreeLogs(a: seq<LogRow>, b: seq<LogRow>, c: seq<LogRow>)
    ensures a + b + c == a + (b + c)
  {
  }

  /** What a count logs, product by product. */
  lemma {:induction false} CountIsLogged(s: State, location: Id, items: seq<Item>, products: seq<Id>)
    requires Distinct(products) && Accepted(items, products)
    ensures Applied(s, location, items, products).log == s.log + CountRows(s, location, items, products)
    decreases |products|
  {
    if products != [] {
      assert products == [products[0]] + products[1..];
      assert products[0] !in products[1..];
      var s' := FirstApplied(s, location, items, products);
      CountIsLogged(s', location, items, products[1..]);
      CountRowsElsewhere(s, s', location, items, products[1..]);
      ThreeLogs(s.log, CountRow(Key(products[0], location), Qty(s.inventory, Key(products[0], location)),
                                GoodTotal(items, products[0]), |ItemIds(items, products[0])|),
                CountRows(s, location, items, products[1..]));
    }
  }

  lemma {:induction false} NothingToApply(s: State, location: Id, items: seq<Item>, products: seq<Id>)
    requires forall p | p in products ::
               GoodTotal(items, p) >= 0 && Key(p, location) in s.inventory
               && s.inventory[Key(p, location)] == GoodTotal(items, p)
    ensures Applied(s, location, items, products) == s
    decreases |products|
  {
    if products != [] {
      assert products == [products[0]] + products[1..];
      var p := products[0];
      var o := Step(Tables(map[], {}), s, SetRequest(location, p, GroupOf(items, p)));
      assert o.state.inventory == s.inventory;
      assert s.log + [] == s.log;
      NothingToApply(o.state, location, items, products[1..]);
    }
  }

  lemma {:induction false} TotalNonNegative(items: seq<Item>, product: Id)
    requires forall i | i in items :: i.goodQuantity >= 0
    ensures GoodTotal(items, product) >= 0
  {
    if items != [] {
      assert Last(items) in items;
      TotalNonNegative(Front(items), product);
    }
  }

  /** Items that came in with quantities at or above zero are always accepted. */
  lemma {:induction false} StoredItemsAreAccepted(items: seq<Item>)
    requires forall i | i in items :: i.goodQuantity >= 0
    ensures Accepted(items, Products(items))
  {
    forall p | p in Products(items) ensures GoodTotal(items, p) >= 0 { TotalNonNegative(items, p); }
  }

  function GoodAndBad(p: Id, q: Id): seq<Item> { [Item("1", Some(p), "", 1), Item("2", Some(q), "", -1)] }

  lemma {:induction false} GoodAndBadTotals(p: Id, q: Id)
    requires p != q && p != "" && q != ""
    ensures Products(GoodAndBad(p, q)) == [p, q]
    ensures GoodTotal(GoodAndBad(p, q), p) == 1 && GoodTotal(GoodAndBad(p, q), q) == -1
  {
    var items := GoodAndBad(p, q);
    assert Front(items) == [items[0]] && Front([items[0]]) == [];
    assert Products([]) == [] && GoodTotal([], p) == 0 && GoodTotal([], q) == 0;
    assert Products([items[0]]) == [p] && GoodTotal([items[0]], p) == 1 && GoodTotal([items[0]], q) == 0;
  }

  /** On foreign data with a negative total the adjustments before it stay, although the count is refused. */
  lemma {:induction false} NegativeTotalStopsMidway(s: State, location: Id, p: Id, q: Id)
    requires p != q && p != "" && q != ""
    ensures var items := GoodAndBad(p, q);
      var after := Applied(s, location, items, Products(items)).inventory;
      && !Accepted(items, Products(items))
      && Qty(after, Key(p, location)) == 1
      && (forall k | k != Key(p, location) :: Qty(after, k) == Qty(s.inventory, k))
  {
    var items := GoodAndBad(p, q);
    GoodAndBadTotals(p, q);
    assert q in Products(items);
    assert [p, q][..1] == [p];
    AppliedNext(Tables(map[], {}), s, location, items, [p, q], 1);
    forall k ensures Qty(Applied(s, location, items, [p]).inventory, k)
                     == if k == Key(p, location) then 1 else Qty(s.inventory, k) {
      AppliedQty(s, location, items, [p], k);
    }
  }

  /** Applying the same count again at once changes neither stock nor log. */
  lemma {:induction false} SecondApplyChangesNothing(s: State, location: Id, items: seq<Item>)
    requires Accepted(items, Products(items))
    ensures var once := Applied(s, location, items, Products(items));
      Applied(once, location, items, Products(items)) == once
  {
    var once := Applied(s, location, items, Products(items));
    ProductsAreLinked(items);
    forall p | p in Products(items)
      ensures Key(p, location) in once.inventory && once.inventory[Key(p, location)] == GoodTotal(items, p) {
      AppliedQty(s, location, items, Products(items), Key(p, location));
    }
    NothingToApply(once, location, items, Products(items));
  }

  lemma {:induction false} GoodTotalWithout(items: seq<Item>, i: nat, product: Id)
    requires i < |items|
    ensures GoodTotal(items, product)
            == GoodTotal(items[..i] + items[i + 1..], product)
               + (if items[i].product == Some(product) then items[i].goodQuantity else 0)
  {
    if i == |items| - 1 {
      assert items[..i] + items[i + 1..] == Front(items);
    } else {
      GoodTotalWithout(Front(items), i, product);
      assert Front(items[..i] + items[i + 1..]) == Front(items)[..i] + Front(items)[i + 1..];
    }
  }

  lemma {:induction false} GoodTotalPermuted(a: seq<Item>, b: seq<Item>, product: Id)
    requires multiset(a) == multiset(b)
    ensures GoodTotal(a, product) == GoodTotal(b, product)
    decreases |a|
  {
    assert |multiset(a)| == |multiset(b)|;
    if a != [] {
      assert Last(a) in multiset(b);
      var i :| 0 <= i < |b| && b[i] == Last(a);
      assert a == Front(a) + [Last(a)];
      assert b == b[..i] + [b[i]] + b[i + 1..];
      var rest := b[..i] + b[i + 1..];
      assert multiset(rest) == multiset(b) - multiset{b[i]} == multiset(Front(a));
      GoodTotalPermuted(Front(a), rest, product);
      GoodTotalWithout(b, i, product);
    }
  }

  lemma {:induction false} ProductCarriedOver(a: seq<Item>, b: seq<Item>, product: Id)
    requires multiset(a) == multiset(b) && product in Products(a)
    ensures product in Products(b)
  {
    ProductsAreLinked(a);
    ProductsAreLinked(b);
    var i :| 0 <= i < |a| && a[i].product == Some(product);
    assert a[i] in multiset(b);
    var j :| 0 <= j < |b| && b[j] == a[i];
  }

  lemma {:induction false} ProductsPermuted(a: seq<Item>, b: seq<Item>, product: Id)
    requires multiset(a) == multiset(b)
    ensures product in Products(a) <==> product in Products(b)
  {
    if product in Products(a) { ProductCarriedOver(a, b, product); }
    if product in Products(b) { ProductCarriedOver(b, a, product); }
  }

  /** The order of the items decides neither whether the count is accepted nor the resulting stock. */
  lemma {:induction false} ItemOrderIsIrrelevant(s: State, location: Id, a: seq<Item>, b: seq<Item>)
    requires multiset(a) == multiset(b)
    ensures Accepted(a, Products(a)) <==> Accepted(b, Products(b))
    ensures Accepted(a, Products(a)) ==>
      Applied(s, location, a, Products(a)).inventory == Applied(s, location, b, Products(b)).inventory
  {
    forall p ensures p in Products(a) <==> p in Products(b) { ProductsPermuted(a, b, p); }
    forall p ensures GoodTotal(a, p) == GoodTotal(b, p) { GoodTotalPermuted(a, b, p); }
    if Accepted(a, Products(a)) {
      var x, y := Applied(s, location, a, Products(a)).inventory, Applied(s, location, b, Products(b)).inventory;
      ProductsAreLinked(a);
      ProductsAreLinked(b);
      forall k ensures (k in x <==> k in y) && Qty(x, k) == Qty(y, k) {
        AppliedQty(s, location, a, Products(a), k);
        AppliedQty(s, location, b, Products(b), k);
      }
      forall k | k in x ensures x[k] == y[k] { assert Qty(x, k) == Qty(y, k); }
    }
  }
}
