/**
 * Locations that the program makes for itself: the stock that was sold before it
 * was registered, the staging area of a warehouse, and the stock of the web site.
 */
module SystemLocations {
  import opened Wrappers
  import opened LocationForest

  datatype SystemKind = Unregistered | Staging

  datatype SystemError = Conflict(code: string) | WarehouseNotFound | BarcodeInUse

  const SYSTEM_DEPTH: int := 99

  const SITE_STOCK := "SITE-STOCK"

  function SystemName(kind: SystemKind): string {
    match kind
    case Unregistered => "موجودی ثبت‌نشده"
    case Staging => "انبار موقت"
  }

  function SystemPrefix(kind: SystemKind): string {
    match kind
    case Unregistered => "SYS-UNREG-"
    case Staging => "SYS-STAGE-"
  }

  function FirstEight(s: string): string { if |s| <= 8 then s else s[..8] }

  function SystemCode(kind: SystemKind, warehouse: Id): string { SystemPrefix(kind) + FirstEight(warehouse) }

  function SystemNode(kind: SystemKind, warehouse: Id, code: string, typeId: Id): Node {
    var tag := SystemCode(kind, warehouse);
    Node(SystemName(kind), tag, BarcodeOf(tag), code + " > " + SystemName(kind), SYSTEM_DEPTH, typeId,
         None, Some(warehouse), 0, true)
  }

  /** A root of one of the two kinds, in a warehouse that has a code. */
  ghost predicate SystemRow(warehouses: map<Id, string>, x: Node) {
    && x.parent.None? && x.warehouse.Some? && x.warehouse.value in warehouses && warehouses[x.warehouse.value] != ""
    && x.path == warehouses[x.warehouse.value] + " > " + x.name
    && exists kind :: x.name == SystemName(kind) && x.code == SystemCode(kind, x.warehouse.value)
  }

  /** The one row of the web site; its path is not the code of a warehouse. */
  predicate SiteRow(x: Node) { x.parent.None? && x.code == SITE_STOCK && x.path == SITE_STOCK }

  /** A row with a new code and a new barcode keeps both unique, and uses up one identifier. */
  lemma {:induction false} AddedRowIsUnique(t: Nodes, newId: nat -> Id, used: nat, node: Node)
    requires FreshIds(newId, t, used) && UniqueCodes(t) && UniqueBarcodes(t)
    requires node.code !in Codes(t) && forall x | x in t :: t[x].barcode != node.barcode
    ensures newId(used) !in t
    ensures var u := t[newId(used) := node]; FreshIds(newId, u, used + 1) && UniqueCodes(u) && UniqueBarcodes(u)
  {
    forall x | x in t ensures t[x].code != node.code { assert t[x].code in Codes(t); }
  }

  /** The prefix of the kind, and the first eight characters of the warehouse. */
  ghost function CodeFor(kind: SystemKind, warehouse: Id): string {
    (if kind == Staging then "SYS-STAGE-" else "SYS-UNREG-") + (if |warehouse| < 8 then warehouse else warehouse[..8])
  }

  lemma {:induction false} CodeForIs(kind: SystemKind, warehouse: Id)
    ensures SystemCode(kind, warehouse) == CodeFor(kind, warehouse)
  {
    if |warehouse| == 8 { assert warehouse[..8] == warehouse; }
  }

  /** Two such codes are equal exactly if the kinds are and the warehouses begin with the same eight characters. */
  lemma {:induction false} SystemCodesApart(a: SystemKind, v: Id, b: SystemKind, w: Id)
    ensures SystemCode(a, v) == SystemCode(b, w)
            <==> a == b && (v == w || (|v| >= 8 && |w| >= 8 && v[..8] == w[..8]))
  {
    var x, y := SystemCode(a, v), SystemCode(b, w);
    assert |SystemPrefix(a)| == 10 && |SystemPrefix(b)| == 10;
    assert x[10..] == FirstEight(v) && y[10..] == FirstEight(w);
    assert x[..10] == SystemPrefix(a) && y[..10] == SystemPrefix(b);
    assert SystemPrefix(Staging)[4] == 'S' && SystemPrefix(Unregistered)[4] == 'U';
    if |v| == 8 { assert v[..8] == v; }
    if |w| == 8 { assert w[..8] == w; }
  }

  class SystemLocationsService {
    /** The source of new identifiers, and how many it has given out. */
    const newId: nat -> Id
    var used: nat
    var nodes: Nodes
    var warehouses: map<Id, string>

    constructor (newId: nat -> Id, nodes: Nodes, warehouses: map<Id, string>)
      ensures this.newId == newId && this.nodes == nodes && this.warehouses == warehouses
    {
      this.newId, used := newId, 0;
      this.nodes, this.warehouses := nodes, warehouses;
    }

    ghost predicate Valid()
      reads this
    {
      FreshIds(newId, nodes, used) && UniqueCodes(nodes) && UniqueBarcodes(nodes)
    }

    /**
     * Finds the location by its code, or makes it on first use: at depth 99, on
     * the warehouse's code, and named and coded by its kind.
     */
    method Ensure(kind: SystemKind, warehouse: Id, typeId: Id) returns (result: Result<Id, SystemError>)
      requires Valid()
      modifies this`nodes, this`used
      ensures Valid()
      // Refused exactly if the code is another warehouse's, or new with an unknown warehouse or a taken barcode.
      ensures result.Failure? <==>
        || (exists x :: x in old(nodes) && old(nodes)[x].code == CodeFor(kind, warehouse)
                        && old(nodes)[x].warehouse != Some(warehouse))
        || ((forall x | x in old(nodes) :: old(nodes)[x].code != CodeFor(kind, warehouse))
            && (warehouse !in warehouses
                || exists x :: x in old(nodes) && old(nodes)[x].barcode == "LOC-" + CodeFor(kind, warehouse)))
      ensures result.Failure? ==>
        && nodes == old(nodes)
        && (result.error.Conflict? <==> exists x :: x in nodes && nodes[x].code == CodeFor(kind, warehouse))
        && (result.error.Conflict? ==> result.error.code == CodeFor(kind, warehouse))
        && (result.error.BarcodeInUse? ==> warehouse in warehouses)
        && (result.error.WarehouseNotFound? ==> warehouse !in warehouses)
      ensures result.Success? ==>
        && result.value in nodes
        && nodes[result.value].code == CodeFor(kind, warehouse) && nodes[result.value].warehouse == Some(warehouse)
        && (if exists x :: x in old(nodes) && old(nodes)[x].code == CodeFor(kind, warehouse) then nodes == old(nodes)
            else && result.value !in old(nodes) && nodes == old(nodes)[result.value := nodes[result.value]]
                 && var name := if kind == Staging then "انبار موقت" else "موجودی ثبت‌نشده";
                    nodes[result.value]
                    == Node(name, CodeFor(kind, warehouse), "LOC-" + CodeFor(kind, warehouse),
                            warehouses[warehouse] + " > " + name, 99, typeId, None, Some(warehouse), 0, true))
    {
      CodeForIs(kind, warehouse);
      assert SystemCode(kind, warehouse) in Codes(nodes)
             <==> exists x :: x in nodes && nodes[x].code == SystemCode(kind, warehouse);
      var code := SystemCode(kind, warehouse);
      if code in Codes(nodes) {
        var x :| x in nodes && nodes[x].code == code;
        if nodes[x].warehouse != Some(warehouse) { return Failure(Conflict(code)); }
        return Success(x);
      }
      if warehouse !in warehouses { return Failure(WarehouseNotFound); }
      if exists x | x in nodes :: nodes[x].barcode == BarcodeOf(code) { return Failure(BarcodeInUse); }
      var id := newId(used);
      AddedRowIsUnique(nodes, newId, used, SystemNode(kind, warehouse, warehouses[warehouse], typeId));
      nodes := nodes[id := SystemNode(kind, warehouse, warehouses[warehouse], typeId)];
      used := used + 1;
      return Success(id);
    }

    /** Main result: asking again finds the same location and makes no other. */
    method EnsureTwice(kind: SystemKind, warehouse: Id, typeId: Id)
      returns (first: Result<Id, SystemError>, second: Result<Id, SystemError>, ghost between: Nodes)
      requires Valid()
      modifies this`nodes, this`used
      ensures Valid() && second == first && nodes == between
      ensures first.Failure? ==> between == old(nodes)
    {
      CodeForIs(kind, warehouse);
      first := Ensure(kind, warehouse, typeId);
      between := nodes;
      if first.Success? { assert between[first.value].code in Codes(between); }
      second := Ensure(kind, warehouse, typeId);
    }
  }

  lemma {:induction false} SystemNodeIsSystemRow(warehouses: map<Id, string>, kind: SystemKind, warehouse: Id,
                                                 typeId: Id)
    requires warehouse in warehouses && warehouses[warehouse] != ""
    ensures SystemRow(warehouses, SystemNode(kind, warehouse, warehouses[warehouse], typeId))
  {
  }
}
