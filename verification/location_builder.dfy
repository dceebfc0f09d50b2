/**
 * Building a tree of locations level by level.  A code that is already in the
 * table is reused, so that running the same request again changes nothing.
 */
module LocationBuilder {
  import opened Wrappers
  import opened Order
  import opened LocationForest
  import opened LocationCodes
  import opened SystemLocations

  datatype ParentRef = ParentRef(id: Option<Id>, code: string, path: string, depth: int)

  datatype LevelSpec = LevelSpec(typeId: Id, count: int, prefix: Option<string>, alpha: bool)

  datatype LocationType = LocationType(name: string, depth: int, warehouse: Id)

  datatype BuildError = NoLevels | WarehouseNotFound | ParentNotFound | WrongType | BarcodeInUse

  datatype Summary = Summary(created: nat, skipped: nat, leaves: nat)

  datatype Insert = Insert(id: Id, node: Node)

  const CHUNK_SIZE: nat := 3000

  // ---------- the codes of a tree ----------

  function Count(level: LevelSpec): nat { if level.count < 0 then 0 else level.count }

  function ChildCodes(parent: string, level: LevelSpec, n: nat): seq<string> {
    seq(n, i requires 0 <= i < n => ChildCode(parent, Label(i, level.alpha)))
  }

  function Candidates(parents: seq<string>, level: LevelSpec): seq<string> {
    if parents == [] then []
    else Candidates(parents[..|parents| - 1], level) + ChildCodes(parents[|parents| - 1], level, Count(level))
  }

  /** The codes of the deepest level. */
  function LeafCodes(root: string, levels: seq<LevelSpec>): seq<string> {
    if levels == [] then [root]
    else Candidates(LeafCodes(root, levels[..|levels| - 1]), levels[|levels| - 1])
  }

  /** The codes of all levels. */
  function TreeCodes(root: string, levels: seq<LevelSpec>): seq<string> {
    if levels == [] then [] else TreeCodes(root, levels[..|levels| - 1]) + LeafCodes(root, levels)
  }

  function Product(levels: seq<LevelSpec>): nat {
    if levels == [] then 1 else Product(levels[..|levels| - 1]) * Count(levels[|levels| - 1])
  }

  function SumOfProducts(levels: seq<LevelSpec>): nat {
    if levels == [] then 0 else SumOfProducts(levels[..|levels| - 1]) + Product(levels)
  }

  ghost predicate IsChildOf(parent: string, level: LevelSpec, c: string) {
    exists i: nat :: i < Count(level) && c == ChildCode(parent, Label(i, level.alpha))
  }

  ghost predicate IsCandidate(parents: seq<string>, level: LevelSpec, c: string) {
    exists p :: p in parents && IsChildOf(p, level, c)
  }

  /** A child code has one parent and one position. */
  lemma {:induction false} ChildrenApart(p: string, q: string, alpha: bool, i: nat, j: nat)
    requires ChildCode(p, Label(i, alpha)) == ChildCode(q, Label(j, alpha))
    ensures p == q && i == j
  {
    LabelIsLabel(i, alpha);
    LabelIsLabel(j, alpha);
    ChildCodeInjective(p, Label(i, alpha), q, Label(j, alpha));
    LabelInjective(i, alpha, j, alpha);
  }

  lemma {:induction false} ChildCodesAre(parent: string, level: LevelSpec)
    ensures Distinct(ChildCodes(parent, level, Count(level)))
    ensures forall c | c in ChildCodes(parent, level, Count(level)) :: IsChildOf(parent, level, c)
  {
    var b := ChildCodes(parent, level, Count(level));
    forall i, j | 0 <= i < j < |b| ensures b[i] != b[j] {
      if b[i] == b[j] { ChildrenApart(parent, parent, level.alpha, i, j); }
    }
  }

  lemma {:induction false} IsChildOfOne(p: string, q: string, level: LevelSpec, c: string)
    requires IsChildOf(p, level, c) && IsChildOf(q, level, c)
    ensures p == q
  {
    var i: nat :| i < Count(level) && c == ChildCode(p, Label(i, level.alpha));
    var j: nat :| j < Count(level) && c == ChildCode(q, Label(j, level.alpha));
    ChildrenApart(p, q, level.alpha, i, j);
  }

  lemma {:induction false} CandidatesAre(parents: seq<string>, level: LevelSpec)
    requires Distinct(parents)
    ensures Distinct(Candidates(parents, level))
    ensures forall c | c in Candidates(parents, level) :: IsCandidate(parents, level, c)
  {
    if parents != [] {
      var front, last := parents[..|parents| - 1], parents[|parents| - 1];
      var a, b := Candidates(front, level), ChildCodes(last, level, Count(level));
      CandidatesAre(front, level);
      ChildCodesAre(last, level);
      forall c | c in a ensures IsCandidate(parents, level, c) && c !in b {
        var p :| p in front && IsChildOf(p, level, c);
        assert p in parents;
        if c in b { IsChildOfOne(p, last, level, c); }
      }
      forall c | c in b ensures IsCandidate(parents, level, c) { assert last in parents; }
      DistinctConcat(a, b);
    }
  }

  lemma {:induction false} DistinctConcat(a: seq<string>, b: seq<string>)
    requires Distinct(a) && Distinct(b) && forall c | c in a :: c !in b
    ensures Distinct(a + b)
  {
    forall i, j | 0 <= i < |a| && 0 <= j < |b| ensures a[i] != b[j] { assert a[i] in a && b[j] in b; }
  }

  lemma {:induction false} CandidatesCount(parents: seq<string>, level: LevelSpec)
    ensures |Candidates(parents, level)| == |parents| * Count(level)
  {
    if parents != [] {
      CandidatesCount(parents[..|parents| - 1], level);
      assert |parents| * Count(level) == (|parents| - 1) * Count(level) + Count(level);
    }
  }

  /** A level has distinct codes, each with one dash per level below the root, and as many as the counts multiply to. */
  lemma {:induction false} LeafCodesAre(root: string, levels: seq<LevelSpec>)
    ensures Distinct(LeafCodes(root, levels))
    ensures forall c | c in LeafCodes(root, levels) :: Dashes(c) == Dashes(root) + |levels|
    ensures |LeafCodes(root, levels)| == Product(levels)
  {
    if levels != [] {
      var front, level := levels[..|levels| - 1], levels[|levels| - 1];
      var parents := LeafCodes(root, front);
      LeafCodesAre(root, front);
      CandidatesAre(parents, level);
      CandidatesCount(parents, level);
      forall c | c in LeafCodes(root, levels) ensures Dashes(c) == Dashes(root) + |levels| {
        var p :| p in parents && IsChildOf(p, level, c);
        var i: nat :| i < Count(level) && c == ChildCode(p, Label(i, level.alpha));
        LabelIsLabel(i, level.alpha);
        DashesOfChild(p, Label(i, level.alpha));
      }
    }
  }

  /** Main result on codes: distinct within and across levels, and counted by the products of the counts. */
  lemma {:induction false} TreeCodesAre(root: string, levels: seq<LevelSpec>)
    ensures Distinct(TreeCodes(root, levels))
    ensures forall c | c in TreeCodes(root, levels) :: Dashes(root) < Dashes(c) <= Dashes(root) + |levels|
    ensures |TreeCodes(root, levels)| == SumOfProducts(levels)
  {
    if levels != [] {
      var a, b := TreeCodes(root, levels[..|levels| - 1]), LeafCodes(root, levels);
      TreeCodesAre(root, levels[..|levels| - 1]);
      LeafCodesAre(root, levels);
      DistinctConcat(a, b);
    }
  }

  /** The code at a place in the tree, told by a position on each level. */
  ghost function CodeAt(root: string, levels: seq<LevelSpec>, place: seq<nat>): string
    requires |place| <= |levels|
  {
    if place == [] then root
    else
      var k := |place| - 1;
      CodeAt(root, levels, place[..k]) + "-" + Label(place[k], levels[k].alpha)
  }

  /** A code belongs to a place that has on each of its levels one of that level's positions. */
  ghost predicate IsAt(root: string, levels: seq<LevelSpec>, place: seq<nat>, c: string) {
    && |place| <= |levels| && (forall k | 0 <= k < |place| :: place[k] < levels[k].count)
    && c == CodeAt(root, levels, place)
  }

  lemma {:induction false} CandidatesIff(parents: seq<string>, level: LevelSpec, c: string)
    ensures c in Candidates(parents, level) <==> IsCandidate(parents, level, c)
  {
    if parents != [] {
      var front, last := parents[..|parents| - 1], parents[|parents| - 1];
      var codes := ChildCodes(last, level, Count(level));
      CandidatesIff(front, level, c);
      if IsCandidate(parents, level, c) {
        var p :| p in parents && IsChildOf(p, level, c);
        if p == last {
          var i: nat :| i < Count(level) && c == ChildCode(last, Label(i, level.alpha));
          assert codes[i] == c;
        } else {
          assert p in front;
        }
      }
      if c in codes {
        var i :| 0 <= i < |codes| && codes[i] == c;
        assert IsChildOf(last, level, c) && last in parents;
      }
      if p :| p in front && IsChildOf(p, level, c) { assert p in parents; }
    }
  }

  lemma {:induction false} SamePlaceCode(root: string, levels: seq<LevelSpec>, n: nat, place: seq<nat>)
    requires |place| <= n <= |levels|
    ensures CodeAt(root, levels[..n], place) == CodeAt(root, levels, place)
  {
    if place != [] { SamePlaceCode(root, levels, n, place[..|place| - 1]); }
  }

  lemma {:induction false} ChildIsAt(root: string, levels: seq<LevelSpec>, n: nat, place: seq<nat>, p: string,
                                     c: string) returns (i: nat)
    requires n < |levels| && IsAt(root, levels[..n], place, p) && |place| == n && IsChildOf(p, levels[n], c)
    ensures IsAt(root, levels, place + [i], c)
  {
    i :| i < Count(levels[n]) && c == ChildCode(p, Label(i, levels[n].alpha));
    SamePlaceCode(root, levels, n, place);
    PlaceNext(root, levels, place, i);
    forall k | 0 <= k < n ensures place[k] < levels[k].count { assert levels[..n][k] == levels[k]; }
  }

  lemma {:induction false} PlaceNext(root: string, levels: seq<LevelSpec>, place: seq<nat>, i: nat)
    requires |place| < |levels|
    ensures CodeAt(root, levels, place + [i])
            == CodeAt(root, levels, place) + "-" + Label(i, levels[|place|].alpha)
  {
    assert (place + [i])[..|place|] == place;
  }

  lemma {:induction false} AtIsChild(root: string, levels: seq<LevelSpec>, place: seq<nat>, c: string)
    requires place != [] && IsAt(root, levels, place, c)
    ensures var n := |place| - 1;
      var p := CodeAt(root, levels[..n], place[..n]);
      IsAt(root, levels[..n], place[..n], p) && IsChildOf(p, levels[n], c)
  {
    var n := |place| - 1;
    SamePlaceCode(root, levels, n, place[..n]);
    assert place[n] < Count(levels[n]);
    assert c == ChildCode(CodeAt(root, levels, place[..n]), Label(place[n], levels[n].alpha));
  }

  lemma {:induction false} LeafHasPlace(root: string, levels: seq<LevelSpec>, c: string) returns (place: seq<nat>)
    requires c in LeafCodes(root, levels)
    ensures |place| == |levels| && IsAt(root, levels, place, c)
  {
    if levels == [] {
      place := [];
    } else {
      var n := |levels| - 1;
      CandidatesIff(LeafCodes(root, levels[..n]), levels[n], c);
      var p :| p in LeafCodes(root, levels[..n]) && IsChildOf(p, levels[n], c);
      var above := LeafHasPlace(root, levels[..n], p);
      var i := ChildIsAt(root, levels, n, above, p, c);
      place := above + [i];
    }
  }

  lemma {:induction false} PlaceIsLeaf(root: string, levels: seq<LevelSpec>, place: seq<nat>, c: string)
    requires |place| == |levels| && IsAt(root, levels, place, c)
    ensures c in LeafCodes(root, levels)
  {
    if levels != [] {
      var n := |levels| - 1;
      AtIsChild(root, levels, place, c);
      PlaceIsLeaf(root, levels[..n], place[..n], CodeAt(root, levels[..n], place[..n]));
      CandidatesIff(LeafCodes(root, levels[..n]), levels[n], c);
    }
  }

  /** The deepest level has exactly the codes of the places that go all the way down. */
  lemma {:induction false} LeafCodesIff(root: string, levels: seq<LevelSpec>, c: string)
    ensures c in LeafCodes(root, levels) <==> exists place :: |place| == |levels| && IsAt(root, levels, place, c)
  {
    if c in LeafCodes(root, levels) { var place := LeafHasPlace(root, levels, c); }
    if place :| |place| == |levels| && IsAt(root, levels, place, c) { PlaceIsLeaf(root, levels, place, c); }
  }

  lemma {:induction false} AtHigher(root: string, levels: seq<LevelSpec>, n: nat, place: seq<nat>, c: string)
    requires |place| <= n <= |levels|
    ensures IsAt(root, levels[..n], place, c) <==> IsAt(root, levels, place, c)
  {
    SamePlaceCode(root, levels, n, place);
  }

  /** The tree has exactly the codes of the places below its root. */
  lemma {:induction false} TreeCodesIff(root: string, levels: seq<LevelSpec>, c: string)
    ensures c in TreeCodes(root, levels) <==> exists place :: place != [] && IsAt(root, levels, place, c)
  {
    if levels != [] {
      var n := |levels| - 1;
      TreeCodesIff(root, levels[..n], c);
      LeafCodesIff(root, levels, c);
      if place :| place != [] && IsAt(root, levels[..n], place, c) { AtHigher(root, levels, n, place, c); }
      if place :| place != [] && IsAt(root, levels, place, c) {
        if |place| <= n { AtHigher(root, levels, n, place, c); }
      }
    }
  }

  // ---------- trees as they are built ----------

  function JoinPath(parent: string, name: string): string {
    if parent == "" then name else parent + " > " + name
  }

  /** A name is some text without angle bracket, a space, and the label. */
  predicate Named(name: string, text: string, tag: string) {
    name == text + " " + tag && IsLabel(tag) && '>' !in text
  }

  /** The code, or the path, that a node's own code or path continues; a root continues its warehouse's code. */
  function ParentCode(t: Nodes, warehouses: map<Id, string>, x: Node): string
    requires if x.parent.Some? then x.parent.value in t else x.warehouse.Some? && x.warehouse.value in warehouses
  {
    if x.parent.Some? then t[x.parent.value].code else warehouses[x.warehouse.value]
  }

  function ParentPath(t: Nodes, warehouses: map<Id, string>, x: Node): string
    requires if x.parent.Some? then x.parent.value in t else x.warehouse.Some? && x.warehouse.value in warehouses
  {
    if x.parent.Some? then t[x.parent.value].path else warehouses[x.warehouse.value]
  }

  ghost predicate NodeBuilt(t: Nodes, warehouses: map<Id, string>, x: Node) {
    && (if x.parent.Some? then x.parent.value in t else x.warehouse.Some? && x.warehouse.value in warehouses)
    && x.path == JoinPath(ParentPath(t, warehouses, x), x.name)
    && exists text, tag :: Named(x.name, text, tag) && x.code == ChildCode(ParentCode(t, warehouses, x), tag)
  }

  /** Made by the builder, or by the program for itself. */
  ghost predicate RowBuilt(t: Nodes, warehouses: map<Id, string>, x: Node) {
    NodeBuilt(t, warehouses, x) || SystemRow(warehouses, x) || SiteRow(x)
  }

  ghost predicate Built(t: Nodes, warehouses: map<Id, string>) {
    forall x {:trigger RowBuilt(t, warehouses, t[x])} | x in t :: RowBuilt(t, warehouses, t[x])
  }

  predicate Extends(t: Nodes, u: Nodes) { forall x | x in t :: x in u && u[x] == t[x] }

  lemma {:induction false} BuiltIsLinked(t: Nodes, warehouses: map<Id, string>)
    requires Built(t, warehouses)
    ensures Linked(t)
  {
    forall x | x in t && t[x].parent.Some? ensures t[x].parent.value in t {
      assert RowBuilt(t, warehouses, t[x]);
    }
  }

  /** Codes get longer downwards, so built trees have no cycles. */
  lemma {:induction false} CodesGrow(t: Nodes, warehouses: map<Id, string>, x: Id, n: nat)
    requires Built(t, warehouses) && x in t && n >= 1 && Up(t, x, n).Some?
    ensures Up(t, x, n).value in t && |t[Up(t, x, n).value].code| < |t[x].code|
    decreases n
  {
    assert RowBuilt(t, warehouses, t[x]);
    assert NodeBuilt(t, warehouses, t[x]) by { assert ParentOf(t, x).Some?; }
    var text, tag :| Named(t[x].name, text, tag) && t[x].code == ChildCode(ParentCode(t, warehouses, t[x]), tag);
    if n > 1 { CodesGrow(t, warehouses, t[x].parent.value, n - 1); }
    else { assert Up(t, t[x].parent.value, 0) == t[x].parent; }
  }

  lemma {:induction false} BuiltIsAcyclic(t: Nodes, warehouses: map<Id, string>)
    requires Built(t, warehouses)
    ensures Acyclic(t)
  {
    forall x, n: nat | n >= 1 ensures Up(t, x, n) != Some(x) {
      if Up(t, x, n) == Some(x) {
        assert x in t;
        CodesGrow(t, warehouses, x, n);
      }
    }
  }

  // ---------- one level ----------

  /** What a reference in `parents` stands for: a node of the table, or the root of the warehouse. */
  predicate Refers(t: Nodes, warehouses: map<Id, string>, warehouse: Id, p: ParentRef) {
    if p.id.Some? then p.id.value in t && t[p.id.value].code == p.code && t[p.id.value].path == p.path
    else warehouse in warehouses && p.code == warehouses[warehouse] && p.path == warehouses[warehouse]
  }

  function CodesOf(refs: seq<ParentRef>): seq<string> {
    seq(|refs|, i requires 0 <= i < |refs| => refs[i].code)
  }

  function NameOf(level: LevelSpec, kind: LocationType, tag: string): string {
    (if Given(level.prefix) then level.prefix.value else kind.name) + " " + tag
  }

  predicate PlainNames(level: LevelSpec, kind: LocationType) {
    '>' !in (if Given(level.prefix) then level.prefix.value else kind.name)
  }

  function NewNode(parent: ParentRef, level: LevelSpec, kind: LocationType, warehouse: Id, i: nat): Node {
    var tag := Label(i, level.alpha);
    var code := ChildCode(parent.code, tag);
    var name := NameOf(level, kind, tag);
    Node(name, code, BarcodeOf(code), JoinPath(parent.path, name), kind.depth, level.typeId,
         parent.id, Some(warehouse), i, true)
  }

  /** What the rows of a level are made for. */
  datatype Job = Job(warehouses: map<Id, string>, warehouse: Id, level: LevelSpec, kind: LocationType)

  /**
   * A row as a level makes it: below its parent or, as a root, below the
   * warehouse itself, it is numbered and named by its position, continues the
   * code and the path above, and has the level's type.
   */
  ghost predicate MadeRow(t: Nodes, job: Job, x: Node) {
    match job
    case Job(warehouses, warehouse, level, kind) =>
      && (if x.parent.Some? then x.parent.value in t else warehouse in warehouses)
      && exists tag, i :: IsPosition(level, tag, i) &&
           var code := if x.parent.Some? then t[x.parent.value].code else warehouses[warehouse];
           var path := if x.parent.Some? then t[x.parent.value].path else warehouses[warehouse];
           var prefix := if level.prefix == None || level.prefix == Some("") then kind.name else level.prefix.value;
           x == Node(prefix + " " + tag, code + "-" + tag, "LOC-" + (code + "-" + tag),
                     if path == "" then prefix + " " + tag else path + " > " + (prefix + " " + tag),
                     kind.depth, level.typeId, x.parent, Some(warehouse), i, true)
  }

  ghost predicate IsPosition(level: LevelSpec, tag: string, i: int) {
    0 <= i < level.count && tag == Label(i, level.alpha)
  }

  ghost predicate AllMade(before: Nodes, now: Nodes, job: Job) {
    forall x {:trigger MadeRow(now, job, now[x])} | x in now && x !in before :: MadeRow(now, job, now[x])
  }

  lemma {:induction false} NewNodeMade(t: Nodes, job: Job, p: ParentRef, i: nat)
    requires Refers(t, job.warehouses, job.warehouse, p) && i < Count(job.level)
    ensures MadeRow(t, job, NewNode(p, job.level, job.kind, job.warehouse, i))
  {
    assert IsPosition(job.level, Label(i, job.level.alpha), i);
  }

  lemma {:induction false} MadeRowStays(t: Nodes, u: Nodes, job: Job, x: Node)
    requires MadeRow(t, job, x) && Extends(t, u)
    ensures MadeRow(u, job, x)
  {
  }

  lemma {:induction false} AllMadeNext(before: Nodes, grown: Nodes, job: Job, id: Id, node: Node)
    requires AllMade(before, grown, job) && id !in grown && MadeRow(grown, job, node)
    ensures AllMade(before, grown[id := node], job)
  {
    var u := grown[id := node];
    forall x | x in u && x !in before ensures MadeRow(u, job, u[x]) {
      if x == id {
        MadeRowStays(grown, u, job, node);
      } else {
        assert MadeRow(grown, job, grown[x]);
        MadeRowStays(grown, u, job, grown[x]);
      }
    }
  }

  /** Every new row is made for one of the levels. */
  ghost predicate AllMadeIn(before: Nodes, now: Nodes, warehouses: map<Id, string>, types: map<Id, LocationType>,
                            warehouse: Id, levels: seq<LevelSpec>) {
    forall x {:trigger MadeIn(now, warehouses, types, warehouse, levels, now[x])} | x in now && x !in before ::
      MadeIn(now, warehouses, types, warehouse, levels, now[x])
  }

  ghost predicate MadeIn(t: Nodes, warehouses: map<Id, string>, types: map<Id, LocationType>, warehouse: Id,
                         levels: seq<LevelSpec>, x: Node) {
    exists l :: l in levels && l.typeId in types && MadeRow(t, Job(warehouses, warehouse, l, types[l.typeId]), x)
  }

  lemma {:induction false} MadeInMore(before: Nodes, mid: Nodes, now: Nodes, warehouses: map<Id, string>,
                                      types: map<Id, LocationType>, warehouse: Id, levels: seq<LevelSpec>, k: nat)
    requires k < |levels| && levels[k].typeId in types && Extends(mid, now)
    requires AllMadeIn(before, mid, warehouses, types, warehouse, levels[..k])
    requires AllMade(mid, now, Job(warehouses, warehouse, levels[k], types[levels[k].typeId]))
    ensures AllMadeIn(before, now, warehouses, types, warehouse, levels[..k + 1])
  {
    forall x | x in now && x !in before ensures MadeIn(now, warehouses, types, warehouse, levels[..k + 1], now[x]) {
      if x in mid {
        assert MadeIn(mid, warehouses, types, warehouse, levels[..k], mid[x]);
        var l :| l in levels[..k] && l.typeId in types
                 && MadeRow(mid, Job(warehouses, warehouse, l, types[l.typeId]), mid[x]);
        MadeRowStays(mid, now, Job(warehouses, warehouse, l, types[l.typeId]), now[x]);
        assert l in levels[..k + 1];
      } else {
        assert MadeRow(now, Job(warehouses, warehouse, levels[k], types[levels[k].typeId]), now[x]);
        assert levels[..k + 1][k] in levels[..k + 1];
      }
    }
  }

  function InsertAll(t: Nodes, rows: seq<Insert>): Nodes {
    if rows == [] then t else InsertAll(t, rows[..|rows| - 1])[rows[|rows| - 1].id := rows[|rows| - 1].node]
  }

  lemma {:induction false} InsertAllConcat(t: Nodes, a: seq<Insert>, b: seq<Insert>)
    ensures InsertAll(t, a + b) == InsertAll(InsertAll(t, a), b)
  {
    if b == [] {
      assert a + b == a;
    } else {
      assert (a + b)[..|a + b| - 1] == a + b[..|b| - 1];
      InsertAllConcat(t, a, b[..|b| - 1]);
    }
  }

  /** Consecutive parts of the given size; the last may be shorter. */
  function Chunk<T>(s: seq<T>, size: nat): seq<seq<T>>
    requires size > 0
    decreases |s|
  {
    if |s| == 0 then [] else if |s| <= size then [s] else [s[..size]] + Chunk(s[size..], size)
  }

  function Flatten<T>(parts: seq<seq<T>>): seq<T> {
    if parts == [] then [] else parts[0] + Flatten(parts[1..])
  }

  /** The parts, put together, are the list; each but the last has the full size, and none is empty. */
  lemma {:induction false} ChunkFlattens<T>(s: seq<T>, size: nat)
    requires size > 0
    ensures Flatten(Chunk(s, size)) == s
    ensures var parts := Chunk(s, size);
      forall i | 0 <= i < |parts| :: 0 < |parts[i]| <= size && (i < |parts| - 1 ==> |parts[i]| == size)
    decreases |s|
  {
    if |s| > size {
      var rest := Chunk(s[size..], size);
      ChunkFlattens(s[size..], size);
      assert s == s[..size] + s[size..];
      forall i | 0 < i < |Chunk(s, size)| ensures Chunk(s, size)[i] == rest[i - 1] {}
    } else if |s| > 0 {
      assert Flatten([s]) == s + Flatten<T>([]);
    }
  }

  lemma {:induction false} NextChunk(t: Nodes, done: seq<Insert>, parts: seq<seq<Insert>>, i: nat)
    requires i < |parts|
    ensures InsertAll(t, done + parts[i]) == InsertAll(InsertAll(t, done), parts[i])
    ensures done + Flatten(parts[i..]) == done + parts[i] + Flatten(parts[i + 1..])
  {
    InsertAllConcat(t, done, parts[i]);
    assert parts[i..][0] == parts[i] && parts[i..][1..] == parts[i + 1..];
  }

  /** The references name nodes of the table with the given codes. */
  ghost predicate RefersTo(t: Nodes, next: seq<ParentRef>, codes: seq<string>) {
    && CodesOf(next) == codes
    && forall i | 0 <= i < |next| ::
         next[i].id.Some? && next[i].id.value in t
         && t[next[i].id.value].code == next[i].code && t[next[i].id.value].path == next[i].path
  }

  /** Old nodes stay, and the new ones have their own barcodes, and codes that were handled and are new to the table. */
  ghost predicate Grows(before: Nodes, grown: Nodes, done: seq<string>) {
    && Extends(before, grown) && UniqueCodes(grown)
    && forall x | x in grown && x !in before ::
         grown[x].code in done && grown[x].code !in Codes(before) && grown[x].barcode == BarcodeOf(grown[x].code)
  }

  ghost predicate Counted(before: Nodes, grown: Nodes, done: seq<string>, inserts: seq<Insert>, skipped: nat) {
    && grown == InsertAll(before, inserts) && |grown| == |before| + |inserts|
    && |inserts| + skipped == |done|
    && (inserts != [] ==> exists c :: c in done && c !in Codes(before))
  }

  /** How far a level has come: `done` are the codes handled so far. */
  ghost predicate Progress(before: Nodes, grown: Nodes, done: seq<string>, next: seq<ParentRef>,
                           inserts: seq<Insert>, skipped: nat) {
    RefersTo(grown, next, done) && Grows(before, grown, done) && Counted(before, grown, done, inserts, skipped)
  }

  lemma {:induction false} CandidatesPrefix(parents: seq<string>, level: LevelSpec, a: nat)
    requires a <= |parents|
    ensures Candidates(parents[..a], level) <= Candidates(parents, level)
  {
    if a == |parents| {
      assert parents[..a] == parents;
    } else {
      var front := parents[..|parents| - 1];
      CandidatesPrefix(front, level, a);
      assert front[..a] == parents[..a];
    }
  }

  function Done(parents: seq<string>, level: LevelSpec, a: nat, i: nat): seq<string>
    requires a < |parents| && i <= Count(level)
  {
    Candidates(parents[..a], level) + ChildCodes(parents[a], level, i)
  }

  lemma {:induction false} DoneNext(parents: seq<string>, level: LevelSpec, a: nat, i: nat)
    requires a < |parents| && i < Count(level)
    ensures Done(parents, level, a, i + 1)
            == Done(parents, level, a, i) + [ChildCode(parents[a], Label(i, level.alpha))]
  {
    assert ChildCodes(parents[a], level, i + 1)
           == ChildCodes(parents[a], level, i) + [ChildCode(parents[a], Label(i, level.alpha))];
  }

  lemma {:induction false} DoneFirst(parents: seq<string>, level: LevelSpec, a: nat)
    requires a < |parents|
    ensures Done(parents, level, a, 0) == Candidates(parents[..a], level)
  {
  }

  lemma {:induction false} DoneLast(parents: seq<string>, level: LevelSpec, a: nat)
    requires a < |parents|
    ensures Done(parents, level, a, Count(level)) == Candidates(parents[..a + 1], level)
  {
    assert parents[..a + 1][..a] == parents[..a];
  }

  lemma {:induction false} DonePrefix(parents: seq<string>, level: LevelSpec, a: nat, i: nat)
    requires a < |parents| && i <= Count(level)
    ensures Done(parents, level, a, i) <= Candidates(parents, level)
  {
    CandidatesPrefix(parents, level, a + 1);
    assert parents[..a + 1][..a] == parents[..a];
    assert ChildCodes(parents[a], level, i) <= ChildCodes(parents[a], level, Count(level));
  }

  lemma {:induction false} NewInDistinct(here: seq<string>, c: string, all: seq<string>)
    requires Distinct(all) && here + [c] <= all
    ensures c !in here && c in all
  {
    assert all[|here|] == c;
    forall i | 0 <= i < |here| ensures here[i] != c { assert here[i] == all[i]; }
  }

  /** The next code is new to the ones handled before it. */
  lemma {:induction false} NextCode(parents: seq<string>, level: LevelSpec, a: nat, i: nat)
    requires Distinct(parents) && a < |parents| && i < Count(level)
    ensures var code := ChildCode(parents[a], Label(i, level.alpha));
      && Done(parents, level, a, i + 1) == Done(parents, level, a, i) + [code]
      && code !in Done(parents, level, a, i)
      && code in Candidates(parents, level)
  {
    CandidatesAre(parents, level);
    DoneNext(parents, level, a, i);
    DonePrefix(parents, level, a, i + 1);
    NewInDistinct(Done(parents, level, a, i), ChildCode(parents[a], Label(i, level.alpha)), Candidates(parents, level));
  }

  lemma {:induction false} SkipProgress(before: Nodes, grown: Nodes, done: seq<string>, next: seq<ParentRef>,
                     inserts: seq<Insert>, skipped: nat, x: Id)
    requires Progress(before, grown, done, next, inserts, skipped) && x in before
    ensures var r := ParentRef(Some(x), before[x].code, before[x].path, before[x].depth);
      Progress(before, grown, done + [before[x].code], next + [r], inserts, skipped + 1)
  {
    if inserts != [] {
      var c :| c in done && c !in Codes(before);
      assert c in done + [before[x].code];
    }
  }

  lemma {:induction false} InsertRefers(grown: Nodes, done: seq<string>, next: seq<ParentRef>, id: Id, node: Node)
    requires RefersTo(grown, next, done) && id !in grown
    ensures RefersTo(grown[id := node], next + [ParentRef(Some(id), node.code, node.path, node.depth)],
                     done + [node.code])
  {
    var r := ParentRef(Some(id), node.code, node.path, node.depth);
    assert CodesOf(next + [r]) == CodesOf(next) + [node.code];
  }

  lemma {:induction false} InsertGrows(before: Nodes, grown: Nodes, done: seq<string>, id: Id, node: Node)
    requires Grows(before, grown, done) && id !in grown && node.barcode == BarcodeOf(node.code)
    requires node.code !in Codes(before) && node.code !in done
    ensures Grows(before, grown[id := node], done + [node.code])
  {
    forall x | x in grown ensures grown[x].code != node.code {
      if x in before { assert before[x].code in Codes(before); }
    }
  }

  lemma {:induction false} InsertAllNext(before: Nodes, inserts: seq<Insert>, id: Id, node: Node)
    ensures InsertAll(before, inserts + [Insert(id, node)]) == InsertAll(before, inserts)[id := node]
  {
    var rows := inserts + [Insert(id, node)];
    assert rows[..|rows| - 1] == inserts;
  }

  lemma {:induction false} InsertProgress(before: Nodes, grown: Nodes, done: seq<string>, next: seq<ParentRef>,
                       inserts: seq<Insert>, skipped: nat, id: Id, node: Node)
    requires Progress(before, grown, done, next, inserts, skipped)
    requires id !in grown && node.code !in Codes(before) && node.code !in done
    requires node.barcode == BarcodeOf(node.code)
    ensures var r := ParentRef(Some(id), node.code, node.path, node.depth);
      Progress(before, grown[id := node], done + [node.code], next + [r], inserts + [Insert(id, node)], skipped)
  {
    InsertRefers(grown, done, next, id, node);
    InsertGrows(before, grown, done, id, node);
    InsertAllNext(before, inserts, id, node);
    assert grown[id := node].Keys == grown.Keys + {id};
    assert node.code in done + [node.code];
  }

  lemma {:induction false} RowStillBuilt(t: Nodes, u: Nodes, warehouses: map<Id, string>, x: Node)
    requires Extends(t, u) && RowBuilt(t, warehouses, x)
    ensures RowBuilt(u, warehouses, x)
  {
    if NodeBuilt(t, warehouses, x) {
      var text, tag :| Named(x.name, text, tag) && x.code == ChildCode(ParentCode(t, warehouses, x), tag);
      assert x.code == ChildCode(ParentCode(u, warehouses, x), tag);
    }
  }

  lemma {:induction false} NewNodeBuilt(t: Nodes, warehouses: map<Id, string>, warehouse: Id, p: ParentRef,
                                        level: LevelSpec, kind: LocationType, i: nat)
    requires Refers(t, warehouses, warehouse, p) && PlainNames(level, kind)
    requires warehouse in warehouses
    ensures NodeBuilt(t, warehouses, NewNode(p, level, kind, warehouse, i))
  {
    var node := NewNode(p, level, kind, warehouse, i);
    LabelIsLabel(i, level.alpha);
    assert Named(node.name, if Given(level.prefix) then level.prefix.value else kind.name, Label(i, level.alpha));
    assert node.code == ChildCode(ParentCode(t, warehouses, node), Label(i, level.alpha));
  }

  lemma {:induction false} InsertKeepsBuilt(t: Nodes, warehouses: map<Id, string>, id: Id, node: Node)
    requires Built(t, warehouses) && id !in t && RowBuilt(t, warehouses, node)
    ensures Built(t[id := node], warehouses)
  {
    var u := t[id := node];
    forall x | x in u ensures RowBuilt(u, warehouses, u[x]) {
      if x != id { assert RowBuilt(t, warehouses, t[x]); }
      RowStillBuilt(t, u, warehouses, u[x]);
    }
  }

  /** The codes have been handled: each is now in the table, and nothing else has come or changed. */
  ghost predicate Handled(before: Nodes, now: Nodes, codes: seq<string>, created: nat, skipped: nat) {
    && Extends(before, now) && UniqueCodes(now)
    && (forall c :: c in Codes(now) <==> c in Codes(before) || c in codes)
    && (forall x | x in now && x !in before ::
          now[x].code in codes && now[x].code !in Codes(before) && now[x].barcode == BarcodeOf(now[x].code))
    && created + skipped == |codes| && created == |now| - |before|
    && ((forall c | c in codes :: c in Codes(before)) ==> now == before)
  }

  lemma {:induction false} HandledBoth(before: Nodes, mid: Nodes, now: Nodes, a: seq<string>, b: seq<string>,
                                       created: nat, skipped: nat, created': nat, skipped': nat)
    requires Handled(before, mid, a, created, skipped) && Handled(mid, now, b, created', skipped')
    ensures Handled(before, now, a + b, created + created', skipped + skipped')
  {
    if forall c | c in a + b :: c in Codes(before) {
      forall c | c in a ensures c in Codes(before) { assert c in a + b; }
      forall c | c in b ensures c in Codes(mid) { assert c in a + b; }
    }
  }

  /** The program's own locations may be added at any time. */
  lemma {:induction false} SystemNodeKeepsBuilt(t: Nodes, warehouses: map<Id, string>, id: Id, kind: SystemKind,
                                                warehouse: Id, typeId: Id)
    requires Built(t, warehouses) && id !in t && warehouse in warehouses && warehouses[warehouse] != ""
    ensures Built(t[id := SystemNode(kind, warehouse, warehouses[warehouse], typeId)], warehouses)
  {
    SystemNodeIsSystemRow(warehouses, kind, warehouse, typeId);
    InsertKeepsBuilt(t, warehouses, id, SystemNode(kind, warehouse, warehouses[warehouse], typeId));
  }

  /** Where no barcode is taken, the new rows keep all barcodes apart. */
  lemma {:induction false} BarcodesStayUnique(before: Nodes, now: Nodes, codes: seq<string>, created: nat, skipped: nat)
    requires UniqueBarcodes(before) && !BarcodeTaken(before, codes) && Handled(before, now, codes, created, skipped)
    ensures UniqueBarcodes(now)
  {
    forall x, y | x in now && y in now && now[x].barcode == now[y].barcode ensures x == y {
      if x !in before {
        NewBarcodeIsNew(before, now, codes, x, y);
      } else if y !in before {
        NewBarcodeIsNew(before, now, codes, y, x);
      }
    }
  }

  lemma {:induction false} NewBarcodeIsNew(before: Nodes, now: Nodes, codes: seq<string>, x: Id, y: Id)
    requires Extends(before, now) && UniqueCodes(now) && !BarcodeTaken(before, codes)
    requires forall z | z in now && z !in before ::
      now[z].code in codes && now[z].code !in Codes(before) && now[z].barcode == BarcodeOf(now[z].code)
    requires x in now && x !in before && y in now && now[x].barcode == now[y].barcode
    ensures x == y
  {
    if y !in before { SameBarcodeSameCode(now[x].code, now[y].code); }
  }

  lemma {:induction false} SameBarcodeSameCode(a: string, b: string)
    requires BarcodeOf(a) == BarcodeOf(b)
    ensures a == b
  {
    assert a == BarcodeOf(a)[4..] && b == BarcodeOf(b)[4..];
  }

  /** What a level has collected: references for the next level, rows to insert, and codes that were there already. */
  datatype Batch = Batch(next: seq<ParentRef>, inserts: seq<Insert>, skipped: nat)

  function Skip(batch: Batch, x: Id, node: Node): Batch {
    Batch(batch.next + [ParentRef(Some(x), node.code, node.path, node.depth)], batch.inserts, batch.skipped + 1)
  }

  function Collect(batch: Batch, id: Id, node: Node): Batch {
    Batch(batch.next + [ParentRef(Some(id), node.code, node.path, node.depth)], batch.inserts + [Insert(id, node)],
          batch.skipped)
  }

  /** Progress, fresh identifiers left, and a built table if the names are plain. */
  ghost predicate UnderWay(newId: nat -> Id, used: nat, before: Nodes, job: Job, plain: bool, done: seq<string>,
                           batch: Batch) {
    match batch
    case Batch(next, inserts, skipped) =>
      && Progress(before, InsertAll(before, inserts), done, next, inserts, skipped)
      && FreshIds(newId, InsertAll(before, inserts), used)
      && (plain ==> Built(InsertAll(before, inserts), job.warehouses))
      && AllMade(before, InsertAll(before, inserts), job)
  }

  lemma {:induction false} ChildSkipped(newId: nat -> Id, used: nat, before: Nodes, job: Job, plain: bool,
                                        done: seq<string>, batch: Batch, x: Id)
    requires UnderWay(newId, used, before, job, plain, done, batch) && x in before
    ensures UnderWay(newId, used, before, job, plain, done + [before[x].code], Skip(batch, x, before[x]))
  {
    SkipProgress(before, InsertAll(before, batch.inserts), done, batch.next, batch.inserts, batch.skipped, x);
  }

  lemma {:induction false} ChildCollected(newId: nat -> Id, used: nat, before: Nodes, job: Job, plain: bool,
                                          done: seq<string>, batch: Batch, node: Node)
    requires UnderWay(newId, used, before, job, plain, done, batch)
    requires MadeRow(InsertAll(before, batch.inserts), job, node)
    requires node.code !in Codes(before) && node.code !in done && node.barcode == BarcodeOf(node.code)
    requires plain ==> RowBuilt(InsertAll(before, batch.inserts), job.warehouses, node)
    ensures UnderWay(newId, used + 1, before, job, plain, done + [node.code],
                     Collect(batch, newId(used), node))
  {
    var grown, id := InsertAll(before, batch.inserts), newId(used);
    InsertProgress(before, grown, done, batch.next, batch.inserts, batch.skipped, id, node);
    InsertAllNext(before, batch.inserts, id, node);
    AllMadeNext(before, grown, job, id, node);
    if plain { InsertKeepsBuilt(grown, job.warehouses, id, node); }
  }

  /** The rows of the table that have one of the codes, by code. */
  function Existing(t: Nodes, candidates: seq<string>): map<string, Id>
    requires UniqueCodes(t)
  {
    map x | x in t && t[x].code in candidates :: t[x].code := x
  }

  lemma {:induction false} RefersIn(before: Nodes, grown: Nodes, warehouses: map<Id, string>, warehouse: Id,
                                    p: ParentRef)
    requires Refers(before, warehouses, warehouse, p) && Extends(before, grown)
    ensures Refers(grown, warehouses, warehouse, p)
  {
  }

  lemma {:induction false} NextRefers(t: Nodes, warehouses: map<Id, string>, warehouse: Id, next: seq<ParentRef>,
                                      codes: seq<string>)
    requires RefersTo(t, next, codes)
    ensures forall r | r in next :: r.id.Some? && Refers(t, warehouses, warehouse, r)
  {
    forall r | r in next ensures r.id.Some? && Refers(t, warehouses, warehouse, r) {
      var i :| 0 <= i < |next| && next[i] == r;
    }
  }

  /** The code that the first level continues; no matter where the request is refused. */
  function RootCodeIn(t: Nodes, warehouses: map<Id, string>, warehouse: Id, parent: Option<Id>): string {
    if Given(parent) then (if parent.value in t then t[parent.value].code else "")
    else if warehouse in warehouses then warehouses[warehouse] else ""
  }

  predicate TypesFit(types: map<Id, LocationType>, warehouse: Id, levels: seq<LevelSpec>) {
    forall l | l in levels :: l.typeId in types && types[l.typeId].warehouse == warehouse
  }

  function RefusalIn(t: Nodes, warehouses: map<Id, string>, types: map<Id, LocationType>, warehouse: Id,
                     parent: Option<Id>, levels: seq<LevelSpec>): Option<BuildError> {
    if levels == [] then Some(NoLevels)
    else if warehouse !in warehouses then Some(BuildError.WarehouseNotFound)
    else if Given(parent) && parent.value !in t then Some(ParentNotFound)
    else if !TypesFit(types, warehouse, levels) then Some(WrongType)
    else if BarcodeTaken(t, TreeCodes(RootCodeIn(t, warehouses, warehouse, parent), levels))
    then Some(BuildError.BarcodeInUse)
    else None
  }

  /** When a request is refused and how, the first failing check deciding. */
  lemma {:induction false} RefusalIs(t: Nodes, warehouses: map<Id, string>, types: map<Id, LocationType>,
                                     warehouse: Id, parent: Option<Id>, levels: seq<LevelSpec>)
    ensures var refusal := RefusalIn(t, warehouses, types, warehouse, parent, levels);
      var below := parent.Some? && parent.value != "";
      if levels == [] then refusal == Some(NoLevels)
      else if warehouse !in warehouses then refusal == Some(BuildError.WarehouseNotFound)
      else if below && parent.value !in t then refusal == Some(ParentNotFound)
      else if exists l :: l in levels && !(l.typeId in types && types[l.typeId].warehouse == warehouse)
      then refusal == Some(WrongType)
      else
        var root := if below then t[parent.value].code else warehouses[warehouse];
        && (refusal == None || refusal == Some(BuildError.BarcodeInUse))
        && (refusal.Some? <==> exists x, c :: x in t && c in TreeCodes(root, levels)
                                              && (forall y | y in t :: t[y].code != c) && t[x].barcode == "LOC-" + c)
  {
    var root := RootCodeIn(t, warehouses, warehouse, parent);
    forall c ensures c in Codes(t) <==> exists y :: y in t && t[y].code == c {}
  }

  /** After a request that was not refused the same request is not refused, and has the same root. */
  lemma {:induction false} SameRequest(t: Nodes, u: Nodes, warehouses: map<Id, string>, types: map<Id, LocationType>,
                                       warehouse: Id, parent: Option<Id>, levels: seq<LevelSpec>)
    requires Extends(t, u)
    requires if RefusalIn(t, warehouses, types, warehouse, parent, levels).Some? then u == t
             else forall c | c in TreeCodes(RootCodeIn(t, warehouses, warehouse, parent), levels) :: c in Codes(u)
    ensures RefusalIn(u, warehouses, types, warehouse, parent, levels)
            == RefusalIn(t, warehouses, types, warehouse, parent, levels)
    ensures RefusalIn(t, warehouses, types, warehouse, parent, levels).None? ==>
      RootCodeIn(u, warehouses, warehouse, parent) == RootCodeIn(t, warehouses, warehouse, parent)
  {
  }

  /** How far a tree has come: the locations of its last level, and the counters. */
  datatype Made = Made(parents: seq<ParentRef>, created: nat, skipped: nat)

  ghost predicate LevelsDone(before: Nodes, now: Nodes, warehouses: map<Id, string>, plain: bool, root: string,
                             warehouse: Id, levels: seq<LevelSpec>, made: Made) {
    match made
    case Made(parents, created, skipped) =>
      && Handled(before, now, TreeCodes(root, levels), created, skipped)
      && CodesOf(parents) == LeafCodes(root, levels)
      && (forall p | p in parents :: Refers(now, warehouses, warehouse, p))
      && (plain ==> Built(now, warehouses))
  }

  lemma {:induction false} NoLevelsDone(t: Nodes, warehouses: map<Id, string>, plain: bool, warehouse: Id,
                                        root: ParentRef)
    requires UniqueCodes(t) && Refers(t, warehouses, warehouse, root) && (plain ==> Built(t, warehouses))
    ensures LevelsDone(t, t, warehouses, plain, root.code, warehouse, [], Made([root], 0, 0))
  {
    assert CodesOf([root]) == [root.code];
  }

  lemma {:induction false} LevelCodes(root: string, levels: seq<LevelSpec>, k: nat)
    requires k < |levels|
    ensures LeafCodes(root, levels[..k + 1]) == Candidates(LeafCodes(root, levels[..k]), levels[k])
    ensures TreeCodes(root, levels[..k + 1]) == TreeCodes(root, levels[..k]) + LeafCodes(root, levels[..k + 1])
  {
    assert levels[..k + 1][..k] == levels[..k];
  }

  lemma {:induction false} LevelsReached(before: Nodes, now: Nodes, warehouses: map<Id, string>, plain: bool,
                                         root: string, warehouse: Id, levels: seq<LevelSpec>, made: Made)
    requires Handled(before, now, TreeCodes(root, levels), made.created, made.skipped)
    requires CodesOf(made.parents) == LeafCodes(root, levels) && (plain ==> Built(now, warehouses))
    requires forall p | p in made.parents :: Refers(now, warehouses, warehouse, p)
    ensures LevelsDone(before, now, warehouses, plain, root, warehouse, levels, made)
  {
  }

  lemma {:induction false} LevelsNext(before: Nodes, mid: Nodes, now: Nodes, warehouses: map<Id, string>, plain: bool,
                                      root: string, warehouse: Id, levels: seq<LevelSpec>, k: nat, made: Made,
                                      next: seq<ParentRef>, created: nat, skipped: nat)
    requires k < |levels| && LevelsDone(before, mid, warehouses, plain, root, warehouse, levels[..k], made)
    requires Handled(mid, now, Candidates(CodesOf(made.parents), levels[k]), created, skipped)
    requires CodesOf(next) == Candidates(CodesOf(made.parents), levels[k])
    requires forall p | p in next :: Refers(now, warehouses, warehouse, p)
    requires plain ==> Built(now, warehouses)
    ensures LevelsDone(before, now, warehouses, plain, root, warehouse, levels[..k + 1],
                       Made(next, made.created + created, made.skipped + skipped))
  {
    LevelCodes(root, levels, k);
    HandledLevel(before, mid, now, root, levels, k, made.created, made.skipped, created, skipped);
    LevelsReached(before, now, warehouses, plain, root, warehouse, levels[..k + 1],
                  Made(next, made.created + created, made.skipped + skipped));
  }

  lemma {:induction false} HandledLevel(before: Nodes, mid: Nodes, now: Nodes, root: string, levels: seq<LevelSpec>,
                                        k: nat, created: nat, skipped: nat, created': nat, skipped': nat)
    requires k < |levels| && Handled(before, mid, TreeCodes(root, levels[..k]), created, skipped)
    requires Handled(mid, now, LeafCodes(root, levels[..k + 1]), created', skipped')
    ensures Handled(before, now, TreeCodes(root, levels[..k + 1]), created + created', skipped + skipped')
  {
    LevelCodes(root, levels, k);
    HandledBoth(before, mid, now, TreeCodes(root, levels[..k]), LeafCodes(root, levels[..k + 1]),
                created, skipped, created', skipped');
  }

  class LocationBuilderService {
    /** The source of new identifiers, and how many it has given out. */
    const newId: nat -> Id
    var used: nat
    var nodes: Nodes
    var warehouses: map<Id, string>
    var types: map<Id, LocationType>

    constructor (newId: nat -> Id, warehouses: map<Id, string>, types: map<Id, LocationType>)
      ensures this.newId == newId && nodes == map[] && this.warehouses == warehouses && this.types == types
    {
      this.newId, used := newId, 0;
      nodes, this.warehouses, this.types := map[], warehouses, types;
    }

    ghost predicate Ready()
      reads this
    {
      FreshIds(newId, nodes, used) && UniqueCodes(nodes)
    }

    ghost predicate Valid()
      reads this
    {
      Ready() && UniqueBarcodes(nodes)
    }

    ghost function JobOf(warehouse: Id, level: LevelSpec, kind: LocationType): Job
      reads this
    {
      Job(warehouses, warehouse, level, kind)
    }

    method InsertChunks(inserts: seq<Insert>) returns (created: nat)
      modifies this`nodes
      ensures nodes == InsertAll(old(nodes), inserts) && created == |inserts|
    {
      created := 0;
      var parts := Chunk(inserts, CHUNK_SIZE);
      ChunkFlattens(inserts, CHUNK_SIZE);
      ghost var done: seq<Insert> := [];
      assert parts[0..] == parts;
      for i := 0 to |parts|
        invariant nodes == InsertAll(old(nodes), done) && created == |done|
        invariant done + Flatten(parts[i..]) == inserts
      {
        NextChunk(old(nodes), done, parts, i);
        nodes := InsertAll(nodes, parts[i]);
        created := created + |parts[i]|;
        done := done + parts[i];
      }
      assert done == inserts;
    }

    /** One child: reused where its code exists, and collected for insertion otherwise. */
    method GenerateChild(parents: seq<ParentRef>, a: nat, i: nat, level: LevelSpec, kind: LocationType, warehouse: Id,
                         existing: map<string, Id>, batch0: Batch, ghost plain: bool)
      returns (batch: Batch)
      requires a < |parents| && i < Count(level) && Distinct(CodesOf(parents))
      requires warehouse in warehouses && Refers(nodes, warehouses, warehouse, parents[a])
      requires UniqueCodes(nodes) && existing == Existing(nodes, Candidates(CodesOf(parents), level))
      requires plain ==> PlainNames(level, kind)
      requires UnderWay(newId, used, nodes, JobOf(warehouse, level, kind), plain,
                        Done(CodesOf(parents), level, a, i), batch0)
      modifies this`used
      ensures UnderWay(newId, used, nodes, JobOf(warehouse, level, kind), plain,
                       Done(CodesOf(parents), level, a, i + 1), batch)
    {
      ghost var done, job := Done(CodesOf(parents), level, a, i), JobOf(warehouse, level, kind);
      var node := NewNode(parents[a], level, kind, warehouse, i);
      NextCode(CodesOf(parents), level, a, i);
      if node.code in existing {
        var x := existing[node.code];
        ChildSkipped(newId, used, nodes, job, plain, done, batch0, x);
        batch := Skip(batch0, x, nodes[x]);
      } else {
        RefersIn(nodes, InsertAll(nodes, batch0.inserts), warehouses, warehouse, parents[a]);
        NewNodeMade(InsertAll(nodes, batch0.inserts), job, parents[a], i);
        if plain {
          NewNodeBuilt(InsertAll(nodes, batch0.inserts), warehouses, warehouse, parents[a], level, kind, i);
        }
        ChildCollected(newId, used, nodes, job, plain, done, batch0, node);
        batch := Collect(batch0, newId(used), node);
        used := used + 1;
      }
    }

    /** The inner loop: the children of one parent. */
    method GenerateUnder(parents: seq<ParentRef>, a: nat, level: LevelSpec, kind: LocationType, warehouse: Id,
                         existing: map<string, Id>, batch0: Batch, ghost plain: bool)
      returns (batch: Batch)
      requires a < |parents| && Distinct(CodesOf(parents))
      requires warehouse in warehouses && Refers(nodes, warehouses, warehouse, parents[a])
      requires UniqueCodes(nodes) && existing == Existing(nodes, Candidates(CodesOf(parents), level))
      requires plain ==> PlainNames(level, kind)
      requires UnderWay(newId, used, nodes, JobOf(warehouse, level, kind), plain,
                        Candidates(CodesOf(parents)[..a], level), batch0)
      modifies this`used
      ensures UnderWay(newId, used, nodes, JobOf(warehouse, level, kind), plain,
                       Candidates(CodesOf(parents)[..a + 1], level), batch)
    {
      batch := batch0;
      DoneFirst(CodesOf(parents), level, a);
      for i := 0 to Count(level)
        invariant UnderWay(newId, used, nodes, JobOf(warehouse, level, kind), plain,
                           Done(CodesOf(parents), level, a, i), batch)
      {
        batch := GenerateChild(parents, a, i, level, kind, warehouse, existing, batch, plain);
      }
      DoneLast(CodesOf(parents), level, a);
    }

    /** The middle loop: the children of all parents, collected but not yet inserted. */
    method GenerateChildren(parents: seq<ParentRef>, level: LevelSpec, kind: LocationType, warehouse: Id,
                            ghost plain: bool)
      returns (batch: Batch)
      requires Ready() && Distinct(CodesOf(parents)) && warehouse in warehouses
      requires forall p | p in parents :: Refers(nodes, warehouses, warehouse, p)
      requires plain ==> Built(nodes, warehouses) && PlainNames(level, kind)
      modifies this`used
      ensures UnderWay(newId, used, nodes, JobOf(warehouse, level, kind), plain,
                       Candidates(CodesOf(parents), level), batch)
    {
      ghost var codes := CodesOf(parents);
      var existing := Existing(nodes, Candidates(CodesOf(parents), level));
      batch := Batch([], [], 0);
      assert codes[..0] == [];
      for a := 0 to |parents|
        invariant UnderWay(newId, used, nodes, JobOf(warehouse, level, kind), plain,
                           Candidates(codes[..a], level), batch)
      {
        assert parents[a] in parents;
        batch := GenerateUnder(parents, a, level, kind, warehouse, existing, batch, plain);
      }
      assert codes[..|parents|] == codes;
    }

    method GenerateLevel(parents: seq<ParentRef>, level: LevelSpec, kind: LocationType, warehouse: Id)
      returns (next: seq<ParentRef>, created: nat, skipped: nat)
      requires Ready() && Distinct(CodesOf(parents)) && warehouse in warehouses
      requires forall p | p in parents :: Refers(nodes, warehouses, warehouse, p)
      modifies this`nodes, this`used
      ensures Ready() && Handled(old(nodes), nodes, Candidates(CodesOf(parents), level), created, skipped)
      ensures CodesOf(next) == Candidates(CodesOf(parents), level)
      ensures forall r | r in next :: r.id.Some? && Refers(nodes, warehouses, warehouse, r)
      ensures old(Built(nodes, warehouses)) && PlainNames(level, kind) ==> Built(nodes, warehouses)
      ensures AllMade(old(nodes), nodes, JobOf(warehouse, level, kind))
    {
      ghost var plain := Built(nodes, warehouses) && PlainNames(level, kind);
      var batch := GenerateChildren(parents, level, kind, warehouse, plain);
      ghost var grown, candidates := InsertAll(nodes, batch.inserts), Candidates(CodesOf(parents), level);
      CodesAfter(nodes, grown, candidates, batch.next, batch.inserts, batch.skipped);
      NextRefers(grown, warehouses, warehouse, batch.next, candidates);
      next, skipped := batch.next, batch.skipped;
      created := InsertChunks(batch.inserts);
    }

    function RootCode(warehouse: Id, parent: Option<Id>): string
      reads this
    {
      RootCodeIn(nodes, warehouses, warehouse, parent)
    }

    predicate PlainLevels(levels: seq<LevelSpec>)
      reads this
    {
      forall l | l in levels :: l.typeId in types && PlainNames(l, types[l.typeId])
    }

    function Refusal(warehouse: Id, parent: Option<Id>, levels: seq<LevelSpec>): Option<BuildError>
      reads this
    {
      RefusalIn(nodes, warehouses, types, warehouse, parent, levels)
    }

    /** One round of the loop over the levels. */
    method GenerateNext(ghost before: Nodes, ghost plain: bool, ghost root: string, warehouse: Id,
                        levels: seq<LevelSpec>, k: nat, kind: LocationType, made0: Made)
      returns (made: Made)
      requires Ready() && warehouse in warehouses && k < |levels| && (plain ==> PlainNames(levels[k], kind))
      requires levels[k].typeId in types && kind == types[levels[k].typeId]
      requires LevelsDone(before, nodes, warehouses, plain, root, warehouse, levels[..k], made0)
      requires AllMadeIn(before, nodes, warehouses, types, warehouse, levels[..k])
      modifies this`nodes, this`used
      ensures Ready() && LevelsDone(before, nodes, warehouses, plain, root, warehouse, levels[..k + 1], made)
      ensures AllMadeIn(before, nodes, warehouses, types, warehouse, levels[..k + 1])
    {
      LeafCodesAre(root, levels[..k]);
      ghost var mid := nodes;
      var next, created, skipped := GenerateLevel(made0.parents, levels[k], kind, warehouse);
      LevelsNext(before, mid, nodes, warehouses, plain, root, warehouse, levels, k, made0, next, created, skipped);
      MadeInMore(before, mid, nodes, warehouses, types, warehouse, levels, k);
      made := Made(next, made0.created + created, made0.skipped + skipped);
    }

    /** The loop over the levels, below a root that is a node or the warehouse itself. */
    method GenerateLevels(root: ParentRef, warehouse: Id, levels: seq<LevelSpec>) returns (made: Made)
      requires Ready() && warehouse in warehouses && Refers(nodes, warehouses, warehouse, root)
      requires TypesFit(types, warehouse, levels)
      modifies this`nodes, this`used
      ensures Ready() && Handled(old(nodes), nodes, TreeCodes(root.code, levels), made.created, made.skipped)
      ensures CodesOf(made.parents) == LeafCodes(root.code, levels)
      ensures old(Built(nodes, warehouses) && PlainLevels(levels)) ==> Built(nodes, warehouses)
      ensures AllMadeIn(old(nodes), nodes, warehouses, types, warehouse, levels)
    {
      ghost var start, plain := nodes, Built(nodes, warehouses) && PlainLevels(levels);
      made := Made([root], 0, 0);
      NoLevelsDone(nodes, warehouses, plain, warehouse, root);
      assert levels[..0] == [];
      for k := 0 to |levels|
        invariant Ready() && LevelsDone(start, nodes, warehouses, plain, root.code, warehouse, levels[..k], made)
        invariant AllMadeIn(start, nodes, warehouses, types, warehouse, levels[..k])
      {
        assert levels[k] in levels;
        made := GenerateNext(start, plain, root.code, warehouse, levels, k, types[levels[k].typeId], made);
      }
      assert levels[..|levels|] == levels;
    }

    /**
     * The levels and their insertion are one transaction.  The table's unique
     * barcodes are tested here for the whole tree, before the first insertion:
     * an insertion that fails later takes back all levels before it.
     */
    method GenerateTree(warehouse: Id, parent: Option<Id>, levels: seq<LevelSpec>)
      returns (result: Result<Summary, BuildError>)
      requires Valid()
      modifies this`nodes, this`used
      ensures Valid() && Extends(old(nodes), nodes)
      ensures Generated(old(nodes), nodes, old(Refusal(warehouse, parent, levels)), old(RootCode(warehouse, parent)),
                        levels, result)
      ensures old(Built(nodes, warehouses) && PlainLevels(levels)) ==> Built(nodes, warehouses)
      ensures AllMadeIn(old(nodes), nodes, warehouses, types, warehouse, levels)
    {
      var refusal := Refusal(warehouse, parent, levels);
      if refusal.Some? { return Failure(refusal.value); }
      var root := if Given(parent)
                  then ParentRef(parent, nodes[parent.value].code, nodes[parent.value].path, nodes[parent.value].depth)
                  else ParentRef(None, warehouses[warehouse], warehouses[warehouse], -1);
      var made := GenerateLevels(root, warehouse, levels);
      BarcodesStayUnique(old(nodes), nodes, TreeCodes(root.code, levels), made.created, made.skipped);
      TreeCodesAre(root.code, levels);
      LeafCodesAre(root.code, levels);
      assert |CodesOf(made.parents)| == |made.parents|;
      return Success(Summary(made.created, made.skipped, |made.parents|));
    }

    /** Main result on repetition: the same request once more creates nothing and changes nothing. */
    method GenerateTwice(warehouse: Id, parent: Option<Id>, levels: seq<LevelSpec>)
      returns (first: Result<Summary, BuildError>, second: Result<Summary, BuildError>, ghost between: Nodes)
      requires Valid()
      modifies this`nodes, this`used
      ensures Extends(old(nodes), between) && nodes == between
      ensures first.Success? ==> second == Success(Summary(0, SumOfProducts(levels), first.value.leaves))
      ensures first.Failure? ==> second == first && between == old(nodes)
    {
      ghost var before, refusal, root := nodes, Refusal(warehouse, parent, levels), RootCode(warehouse, parent);
      first := GenerateTree(warehouse, parent, levels);
      between := nodes;
      SameRequest(before, between, warehouses, types, warehouse, parent, levels);
      ghost var root' := RootCode(warehouse, parent);
      second := GenerateTree(warehouse, parent, levels);
      GeneratedTwice(before, between, nodes, refusal, root, root', levels, first, second);
    }
  }

  /** A refused request changes nothing; any other handles all codes of the tree. */
  ghost predicate Generated(before: Nodes, now: Nodes, refusal: Option<BuildError>, root: string,
                            levels: seq<LevelSpec>, result: Result<Summary, BuildError>) {
    if refusal.Some? then result == Failure(refusal.value) && now == before
    else
      && result.Success?
      && Handled(before, now, TreeCodes(root, levels), result.value.created, result.value.skipped)
      && result.value.created + result.value.skipped == SumOfProducts(levels)
      && result.value.leaves == Product(levels)
  }

  lemma {:induction false} GeneratedTwice(before: Nodes, mid: Nodes, now: Nodes, refusal: Option<BuildError>,
                                          root: string, root': string, levels: seq<LevelSpec>,
                                          first: Result<Summary, BuildError>, second: Result<Summary, BuildError>)
    requires Generated(before, mid, refusal, root, levels, first)
    requires Generated(mid, now, refusal, root', levels, second) && (refusal.None? ==> root' == root)
    ensures now == mid
    ensures first.Success? ==> second == Success(Summary(0, SumOfProducts(levels), first.value.leaves))
    ensures first.Failure? ==> second == first && mid == before
  {
    if refusal.None? {
      HandledTwice(before, mid, now, TreeCodes(root, levels), first.value.created, first.value.skipped,
                   second.value.created, second.value.skipped);
    }
  }

  lemma {:induction false} HandledTwice(before: Nodes, mid: Nodes, now: Nodes, codes: seq<string>,
                                        created: nat, skipped: nat, created': nat, skipped': nat)
    requires Handled(before, mid, codes, created, skipped) && Handled(mid, now, codes, created', skipped')
    ensures now == mid && created' == 0 && skipped' == |codes|
  {
  }

  lemma {:induction false} CodesAfter(before: Nodes, grown: Nodes, all: seq<string>, next: seq<ParentRef>,
                   inserts: seq<Insert>, skipped: nat)
    requires Progress(before, grown, all, next, inserts, skipped)
    ensures Handled(before, grown, all, |inserts|, skipped)
  {
    forall c | c in all ensures c in Codes(grown) {
      var i :| 0 <= i < |all| && all[i] == c;
      assert CodesOf(next)[i] == next[i].code;
    }
    forall c | c in Codes(before) ensures c in Codes(grown) {
      var x :| x in before && before[x].code == c;
      assert grown[x].code == c;
    }
  }
}
