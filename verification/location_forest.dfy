/** The location table as a forest of parent links, and its walk level by level. */
module LocationForest {
  import opened Wrappers

  datatype Node = Node(
    name: string, code: string, barcode: string, path: string, depth: int, typeId: Id,
    parent: Option<Id>, warehouse: Option<Id>, sortOrder: int, active: bool)

  type Nodes = map<Id, Node>

  ghost predicate UniqueCodes(t: Nodes) {
    forall x, y | x in t && y in t && t[x].code == t[y].code :: x == y
  }

  function Codes(t: Nodes): set<string> { set x | x in t :: t[x].code }

  /** The barcode that the program gives to a location by itself. */
  function BarcodeOf(code: string): string { "LOC-" + code }

  ghost predicate UniqueBarcodes(t: Nodes) {
    forall x, y | x in t && y in t && t[x].barcode == t[y].barcode :: x == y
  }

  /** A row of the table has the barcode that a new location of one of the codes would get. */
  predicate BarcodeTaken(t: Nodes, codes: seq<string>) {
    exists x, c | x in t && c in codes :: c !in Codes(t) && t[x].barcode == BarcodeOf(c)
  }

  /** Identifiers still to come are new to the table and to one another. */
  ghost predicate FreshIds(newId: nat -> Id, t: Nodes, from: nat) {
    && (forall i | i >= from :: newId(i) !in t)
    && (forall i, j | from <= i < j :: newId(i) != newId(j))
  }

  function ParentOf(t: Nodes, x: Id): Option<Id> { if x in t then t[x].parent else None }

  /** The n-th ancestor. */
  function Up(t: Nodes, x: Id, n: nat): Option<Id>
    decreases n
  {
    if n == 0 then Some(x)
    else if ParentOf(t, x).None? then None
    else Up(t, ParentOf(t, x).value, n - 1)
  }

  ghost predicate Acyclic(t: Nodes) {
    forall x, n: nat | n >= 1 :: Up(t, x, n) != Some(x)
  }

  /** In the subtree of root, by parent links. */
  ghost predicate Below(t: Nodes, x: Id, root: Id) {
    exists n: nat :: Up(t, x, n) == Some(root)
  }

  function Level(t: Nodes, root: Id, n: nat): set<Id> {
    if n == 0 then {root} else set x | x in t && Up(t, x, n) == Some(root)
  }

  /** What one query of the walk returns. */
  function Children(t: Nodes, frontier: set<Id>): set<Id> {
    set x | x in t && t[x].parent.Some? && t[x].parent.value in frontier
  }

  lemma {:induction false} UpPlus(t: Nodes, x: Id, m: nat, n: nat)
    ensures Up(t, x, m + n) == if Up(t, x, m).None? then None else Up(t, Up(t, x, m).value, n)
    decreases m
  {
    if m > 0 && ParentOf(t, x).Some? {
      UpPlus(t, ParentOf(t, x).value, m - 1, n);
    }
  }

  lemma {:induction false} LevelStep(t: Nodes, root: Id, n: nat)
    ensures Level(t, root, n + 1) == Children(t, Level(t, root, n))
  {
    forall x | x in t && t[x].parent.Some?
      ensures Up(t, x, n + 1) == Some(root) <==> t[x].parent.value in Level(t, root, n) {
      assert Up(t, x, n + 1) == Up(t, t[x].parent.value, n);
    }
  }

  lemma {:induction false} TwoDistancesMakeACycle(t: Nodes, root: Id, m: nat, n: nat, x: Id)
    requires m < n && x in Level(t, root, m) && x in Level(t, root, n)
    ensures Up(t, root, n - m) == Some(root)
  {
    UpPlus(t, x, m, n - m);
  }

  /** A node is at one distance from the root only. */
  lemma {:induction false} LevelsDisjoint(t: Nodes, root: Id, m: nat, n: nat)
    requires Acyclic(t) && m < n
    ensures Level(t, root, m) !! Level(t, root, n)
  {
    forall x | x in Level(t, root, m) && x in Level(t, root, n) ensures false {
      TwoDistancesMakeACycle(t, root, m, n, x);
    }
  }

  lemma {:induction false} EmptyLevelsStayEmpty(t: Nodes, root: Id, m: nat, n: nat)
    requires Level(t, root, m) == {} && m <= n
    ensures Level(t, root, n) == {}
    decreases n
  {
    if m < n {
      EmptyLevelsStayEmpty(t, root, m, n - 1);
      LevelStep(t, root, n - 1);
    }
  }

  function Union(levels: seq<set<Id>>): set<Id> {
    if levels == [] then {} else Union(levels[..|levels| - 1]) + levels[|levels| - 1]
  }

  lemma {:induction false} UnionMembers(levels: seq<set<Id>>)
    ensures forall x :: x in Union(levels) <==> exists i :: 0 <= i < |levels| && x in levels[i]
  {
    if levels != [] {
      var front := levels[..|levels| - 1];
      UnionMembers(front);
      forall x ensures x in Union(levels) <==> exists i :: 0 <= i < |levels| && x in levels[i] {
        if i :| 0 <= i < |front| && x in front[i] { assert x in levels[i]; }
        if x in levels[|levels| - 1] { assert x in levels[|levels| - 1]; }
      }
    }
  }

  /** The levels of a whole subtree: level i holds the descendants at distance i, and nothing is missing. */
  ghost predicate AreLevels(t: Nodes, root: Id, levels: seq<set<Id>>) {
    && |levels| >= 1
    && (forall i | 0 <= i < |levels| :: levels[i] == Level(t, root, i) && levels[i] != {})
    && Level(t, root, |levels|) == {}
  }

  lemma {:induction false} NewLevelIsNew(t: Nodes, root: Id, levels: seq<set<Id>>)
    requires Acyclic(t) && forall i | 0 <= i < |levels| :: levels[i] == Level(t, root, i)
    ensures Level(t, root, |levels|) !! Union(levels)
    ensures Union(levels + [Level(t, root, |levels|)]) == Union(levels) + Level(t, root, |levels|)
  {
    UnionMembers(levels);
    forall i | 0 <= i < |levels| ensures levels[i] !! Level(t, root, |levels|) {
      LevelsDisjoint(t, root, i, |levels|);
    }
    assert (levels + [Level(t, root, |levels|)])[..|levels|] == levels;
  }

  /** The walk over the parent links, one query per level. */
  method CollectSubtreeLevels(t: Nodes, root: Id) returns (levels: seq<set<Id>>)
    requires Acyclic(t)
    ensures AreLevels(t, root, levels)
  {
    levels := [{root}];
    var frontier := {root};
    while frontier != {}
      invariant |levels| >= 1 && frontier == levels[|levels| - 1]
      invariant forall i | 0 <= i < |levels| :: levels[i] == Level(t, root, i) && levels[i] != {}
      decreases t.Keys - Union(levels)
    {
      var children := Children(t, frontier);
      LevelStep(t, root, |levels| - 1);
      NewLevelIsNew(t, root, levels);
      if children == {} { break; }
      var x :| x in children;
      assert x in t.Keys - Union(levels);
      levels := levels + [children];
      frontier := children;
    }
  }

  /** The levels are pairwise disjoint and together are exactly the subtree. */
  lemma {:induction false} LevelsAreSubtree(t: Nodes, root: Id, levels: seq<set<Id>>)
    requires Acyclic(t) && AreLevels(t, root, levels)
    ensures forall i, j | 0 <= i < j < |levels| :: levels[i] !! levels[j]
    ensures forall x :: x in Union(levels) <==> Below(t, x, root)
  {
    forall i, j | 0 <= i < j < |levels| ensures levels[i] !! levels[j] { LevelsDisjoint(t, root, i, j); }
    UnionMembers(levels);
    forall x ensures x in Union(levels) <==> Below(t, x, root) {
      if i :| 0 <= i < |levels| && x in levels[i] {
        assert Up(t, x, i) == Some(root);
      }
      if n: nat :| Up(t, x, n) == Some(root) {
        if n > 0 { assert x in Level(t, root, n) by { assert x in t; } }
        else { assert x == root; }
        if n >= |levels| { EmptyLevelsStayEmpty(t, root, |levels|, n); }
        assert x in levels[n];
      }
    }
  }

  /** The parent link is a foreign key. */
  ghost predicate Linked(t: Nodes) {
    forall x | x in t && t[x].parent.Some? :: t[x].parent.value in t
  }

  /** Removing a set of rows leaves no child behind. */
  ghost predicate NoOrphan(t: Nodes, gone: set<Id>) {
    forall x | x in t && x !in gone && t[x].parent.Some? :: t[x].parent.value !in gone
  }

  function DownFrom(levels: seq<set<Id>>, i: nat): set<Id>
    requires i <= |levels|
    decreases |levels| - i
  {
    if i == |levels| then {} else levels[i] + DownFrom(levels, i + 1)
  }

  lemma {:induction false} DownFromMembers(levels: seq<set<Id>>, i: nat)
    requires i <= |levels|
    ensures forall x :: x in DownFrom(levels, i) <==> exists j :: i <= j < |levels| && x in levels[j]
    decreases |levels| - i
  {
    if i < |levels| {
      DownFromMembers(levels, i + 1);
      forall x ensures x in DownFrom(levels, i) <==> exists j :: i <= j < |levels| && x in levels[j] {
        if x in levels[i] { assert x in levels[i]; }
      }
    }
  }

  /** Bottom-up, each deletion finds no child left; this is what the order of deletion is for. */
  lemma {:induction false} BottomUpIsSafe(t: Nodes, root: Id, levels: seq<set<Id>>, i: nat)
    requires Acyclic(t) && AreLevels(t, root, levels) && i < |levels|
    ensures NoOrphan(t - DownFrom(levels, i + 1), levels[i])
  {
    LevelStep(t, root, i);
    DownFromMembers(levels, i + 1);
    forall x | x in t && t[x].parent.Some? && t[x].parent.value in levels[i] ensures x in DownFrom(levels, i + 1) {
      assert x in Level(t, root, i + 1);
      assert i + 1 < |levels|;
      assert x in levels[i + 1];
    }
  }

  /** Deletes the levels from the last to the first. */
  method DeleteLevels(t: Nodes, root: Id, levels: seq<set<Id>>) returns (rest: Nodes)
    requires Acyclic(t) && AreLevels(t, root, levels)
    ensures rest == t - Union(levels)
  {
    rest := t;
    for i := |levels| downto 0
      invariant rest == t - DownFrom(levels, i)
    {
      BottomUpIsSafe(t, root, levels, i);
      rest := DeleteMany(rest, levels[i]);
    }
    DownFromMembers(levels, 0);
    UnionMembers(levels);
    assert DownFrom(levels, 0) == Union(levels);
  }

  /** The database refuses to delete a row that another row still names as its parent. */
  method DeleteMany(t: Nodes, ids: set<Id>) returns (rest: Nodes)
    requires NoOrphan(t, ids)
    ensures rest == t - ids
  {
    rest := map x | x in t && x !in ids :: t[x];
  }

  /** Top-down, the first deletion of a root with children would be refused. */
  lemma {:induction false} TopDownFails(t: Nodes, root: Id, levels: seq<set<Id>>)
    requires Acyclic(t) && AreLevels(t, root, levels) && |levels| > 1
    ensures !NoOrphan(t, levels[0])
  {
    LevelStep(t, root, 0);
    var x :| x in levels[1];
    LevelsDisjoint(t, root, 0, 1);
    assert t[x].parent.value in levels[0];
  }

  lemma {:induction false} UpIn(t: Nodes, rest: Nodes, x: Id, n: nat)
    requires forall y | y in rest :: y in t && t[y] == rest[y]
    requires Up(rest, x, n).Some?
    ensures Up(t, x, n) == Up(rest, x, n)
    decreases n
  {
    if n > 0 { UpIn(t, rest, ParentOf(rest, x).value, n - 1); }
  }

  /** Removing a whole subtree keeps the rest a forest with all its parents present. */
  lemma {:induction false} RemovalKeepsForest(t: Nodes, root: Id, gone: set<Id>)
    requires Acyclic(t) && Linked(t)
    requires forall x :: x in gone <==> Below(t, x, root)
    ensures Acyclic(t - gone) && Linked(t - gone)
  {
    var rest := t - gone;
    forall x, n: nat | n >= 1 ensures Up(rest, x, n) != Some(x) {
      if Up(rest, x, n) == Some(x) { UpIn(t, rest, x, n); }
    }
    forall x | x in t && t[x].parent.Some? && t[x].parent.value in gone ensures x in gone {
      var n: nat :| Up(t, t[x].parent.value, n) == Some(root);
      assert Up(t, x, n + 1) == Some(root);
    }
  }
}
