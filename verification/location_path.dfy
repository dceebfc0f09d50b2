/**
 * The path that is printed on a location's label: a walk up the parent links,
 * guarded against cycles, and its agreement with the path that is stored.
 */
module LocationPath {
  import opened Wrappers
  import opened Order
  import opened LocationForest
  import opened SystemLocations
  import opened LocationBuilder
  import opened SubtreeQuery

  datatype PathStep = PathStep(id: Id, name: string)

  function Ids(path: seq<PathStep>): seq<Id> {
    seq(|path|, i requires 0 <= i < |path| => path[i].id)
  }

  /** Each location is the parent of the next, the last is x, and none occurs twice. */
  ghost predicate IsChain(t: Nodes, ids: seq<Id>, x: Id) {
    && ids != [] && ids[|ids| - 1] == x && Distinct(ids)
    && (forall i | 0 <= i < |ids| :: ids[i] in t)
    && (forall i | 0 < i < |ids| :: t[ids[i]].parent == Some(ids[i - 1]))
  }

  /** The walk can go no further: no parent, a missing one, or one that was visited before. */
  ghost predicate EndsAt(t: Nodes, ids: seq<Id>)
    requires ids != [] && ids[0] in t
  {
    var parent := t[ids[0]].parent;
    !Given(parent) || parent.value !in t || parent.value in ids
  }

  predicate CarriesNames(t: Nodes, path: seq<PathStep>) {
    forall i | 0 <= i < |path| :: path[i].id in t && path[i].name == t[path[i].id].name
  }

  /** On any table, with or without cycles, the walk ends, and its result is the whole chain up from x. */
  method BuildLocationPath(t: Nodes, x: Id) returns (path: seq<PathStep>)
    requires x in t
    ensures IsChain(t, Ids(path), x) && EndsAt(t, Ids(path))
    ensures CarriesNames(t, path)
  {
    path := [];
    var current := Some(x);
    var visited: set<Id> := {};
    while current.Some?
      invariant visited == set s | s in Ids(path)
      invariant visited <= t.Keys && (current.Some? ==> current.value in t)
      invariant path == [] ==> current == Some(x)
      invariant path != [] ==> IsChain(t, Ids(path), x)
      invariant path != [] && current.Some? ==> ParentOf(t, path[0].id) == current
      invariant path != [] && current.None? ==> EndsAt(t, Ids(path))
      invariant CarriesNames(t, path)
      decreases t.Keys - visited, current.Some?
    {
      var id := current.value;
      if id in visited { break; }
      ghost var before := Ids(path);
      visited := visited + {id};
      path := [PathStep(id, t[id].name)] + path;
      assert Ids(path) == [id] + before;
      if !Given(t[id].parent) { break; }
      current := if t[id].parent.value in t then t[id].parent else None;
    }
  }

  lemma {:induction false} ChainUp(t: Nodes, ids: seq<Id>, x: Id, i: nat)
    requires IsChain(t, ids, x) && i < |ids|
    ensures Up(t, ids[i], i) == Some(ids[0])
  {
    if i > 0 { ChainUp(t, ids, x, i - 1); }
  }

  /** In a forest with all parents present, the walk only ends at a root. */
  lemma {:induction false} ChainStartsAtRoot(t: Nodes, ids: seq<Id>, x: Id)
    requires Acyclic(t) && Linked(t) && "" !in t
    requires IsChain(t, ids, x) && EndsAt(t, ids)
    ensures t[ids[0]].parent.None?
  {
    var parent := t[ids[0]].parent;
    if parent.Some? && parent.value in ids {
      var i :| 0 <= i < |ids| && ids[i] == parent.value;
      ChainCycle(t, ids, x, i);
    }
  }

  lemma {:induction false} ChainCycle(t: Nodes, ids: seq<Id>, x: Id, i: nat)
    requires IsChain(t, ids, x) && i < |ids| && t[ids[0]].parent == Some(ids[i])
    ensures Up(t, ids[i], i + 1) == Some(ids[i])
  {
    ChainUp(t, ids, x, i);
    UpPlus(t, ids[i], i, 1);
    assert Up(t, ids[0], 1) == Up(t, ids[i], 0) == Some(ids[i]);
  }

  /** The names below the top, each after a separator. */
  function NamesBelow(t: Nodes, ids: seq<Id>): string
    requires forall i | 0 <= i < |ids| :: ids[i] in t
  {
    if |ids| <= 1 then "" else NamesBelow(t, ids[..|ids| - 1]) + SEPARATOR + t[ids[|ids| - 1]].name
  }

  /** Along the chain, each path continues the path before it. */
  ghost predicate PathsContinue(t: Nodes, ids: seq<Id>)
    requires ids != [] && forall i | 0 <= i < |ids| :: ids[i] in t
  {
    t[ids[0]].path != "" && forall i | 0 < i < |ids| :: ContinuesParent(t, t[ids[i]])
  }

  lemma {:induction false} Associative(a: string, b: string, c: string, d: string)
    ensures a + b + c + d == a + (b + c + d)
  {
  }

  /** Main result: the path stored with a location is that of the top, followed by the names that the walk finds. */
  lemma {:induction false} StoredPathIsWalk(t: Nodes, ids: seq<Id>, x: Id)
    requires IsChain(t, ids, x) && PathsContinue(t, ids)
    ensures t[x].path == t[ids[0]].path + NamesBelow(t, ids)
  {
    if |ids| > 1 {
      var front := ids[..|ids| - 1];
      var p := front[|front| - 1];
      StoredPathIsWalk(t, front, p);
      assert ContinuesParent(t, t[ids[|ids| - 1]]) && t[p].path != "";
      Associative(t[ids[0]].path, NamesBelow(t, front), SEPARATOR, t[x].name);
    }
  }

  lemma {:induction false} CoherentPathsContinue(t: Nodes, ids: seq<Id>, x: Id)
    requires Coherent(t) && IsChain(t, ids, x)
    ensures PathsContinue(t, ids)
  {
    forall i | 0 <= i < |ids| ensures ContinuesParent(t, t[ids[i]]) { assert ids[i] in t; }
  }

  /** In what the program writes, the top is the site's root, or a root that is named below its warehouse's code. */
  lemma {:induction false} BuiltPathIsWalk(t: Nodes, warehouses: map<Id, string>, ids: seq<Id>, x: Id)
    requires Built(t, warehouses) && "" !in t
    requires IsChain(t, ids, x) && EndsAt(t, ids)
    ensures SiteRow(t[ids[0]]) || WarehouseRoot(warehouses, t[ids[0]])
    ensures t[x].path == t[ids[0]].path + NamesBelow(t, ids)
  {
    BuiltIsCoherent(t, warehouses);
    CoherentIsAcyclic(t);
    ChainStartsAtRoot(t, ids, x);
    CoherentPathsContinue(t, ids, x);
    StoredPathIsWalk(t, ids, x);
  }
}
