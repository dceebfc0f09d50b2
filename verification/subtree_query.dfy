/**
 * The fast subtree query by path prefix, and when it agrees with the walk over
 * the parent links: an exact condition on tables whose paths continue their
 * parents' paths, and its proof for the tables that the program writes itself.
 */
module SubtreeQuery {
  import opened Wrappers
  import opened LocationForest
  import opened LocationCodes
  import opened SystemLocations
  import opened LocationBuilder

  const SEPARATOR := " > "

  /** What the prefix query returns: the root, and every active row whose path continues the root's. */
  function PrefixQuery(t: Nodes, root: Id): set<Id>
    requires root in t
  {
    set x | x in t && t[x].active && (x == root || Continues(t, x, root))
  }

  predicate Continues(t: Nodes, x: Id, root: Id)
    requires x in t && root in t
  {
    t[root].path + SEPARATOR <= t[x].path
  }

  // ---------- tables whose paths continue their parents' paths ----------

  predicate ContinuesParent(t: Nodes, x: Node) {
    x.path != "" && (x.parent.Some? ==> x.parent.value in t && x.path == JoinPath(t[x.parent.value].path, x.name))
  }

  /** A child's path is its parent's path, the separator and its name; nothing is said of names and of roots. */
  ghost predicate Coherent(t: Nodes) {
    forall x {:trigger ContinuesParent(t, t[x])} | x in t :: ContinuesParent(t, t[x])
  }

  lemma {:induction false} PathOfChild(t: Nodes, x: Id)
    requires Coherent(t) && x in t && t[x].parent.Some?
    ensures t[x].parent.value in t && t[x].path == t[t[x].parent.value].path + SEPARATOR + t[x].name
    ensures Continues(t, x, t[x].parent.value)
  {
    assert ContinuesParent(t, t[x]);
    assert ContinuesParent(t, t[t[x].parent.value]);
  }

  /** Below by parent links implies the path prefix. */
  lemma {:induction false} BelowContinues(t: Nodes, x: Id, root: Id, n: nat)
    requires Coherent(t) && x in t && n >= 1 && Up(t, x, n) == Some(root)
    ensures root in t && Continues(t, x, root)
    decreases n
  {
    assert ParentOf(t, x).Some?;
    PathOfChild(t, x);
    var p := t[x].parent.value;
    assert Up(t, p, n - 1) == Some(root);
    if n > 1 { BelowContinues(t, p, root, n - 1); }
  }

  lemma {:induction false} CoherentIsAcyclic(t: Nodes)
    requires Coherent(t)
    ensures Acyclic(t) && Linked(t)
  {
    forall x, n: nat | n >= 1 ensures Up(t, x, n) != Some(x) {
      if Up(t, x, n) == Some(x) {
        assert x in t by { assert ParentOf(t, x).Some?; }
        BelowContinues(t, x, x, n);
      }
    }
    forall x | x in t && t[x].parent.Some? ensures t[x].parent.value in t { PathOfChild(t, x); }
  }

  ghost predicate RightAt(t: Nodes, x: Id, root: Id)
    requires x in t && root in t
  {
    Below(t, x, root) <==> x == root || Continues(t, x, root)
  }

  /** Being in the subtree and continuing the root's path are the same, for all locations and roots. */
  ghost predicate QueryIsRight(t: Nodes) {
    forall x, root {:trigger RightAt(t, x, root)} | x in t && root in t :: RightAt(t, x, root)
  }

  /** Whatever path a location continues is its parent's, or one that its parent continues. */
  predicate StepsAt(t: Nodes, x: Id, r: Id)
    requires x in t && r in t
  {
    Continues(t, x, r) ==>
      && t[x].parent.Some? && t[x].parent.value in t
      && (t[x].parent.value == r || Continues(t, t[x].parent.value, r))
  }

  ghost predicate PathsStep(t: Nodes) {
    forall x, r {:trigger StepsAt(t, x, r)} | x in t && r in t :: StepsAt(t, x, r)
  }

  lemma {:induction false} ContinuesIsBelow(t: Nodes, x: Id, root: Id)
    requires Coherent(t) && PathsStep(t) && x in t && root in t && Continues(t, x, root)
    ensures Below(t, x, root)
    decreases |t[x].path|
  {
    assert StepsAt(t, x, root);
    var p := t[x].parent.value;
    PathOfChild(t, x);
    if p == root {
      assert Up(t, x, 1) == Up(t, p, 0) == Some(root);
    } else {
      ContinuesIsBelow(t, p, root);
      var n: nat :| Up(t, p, n) == Some(root);
      assert Up(t, x, n + 1) == Some(root);
    }
  }

  /** Main result of one pair: in a table whose paths step, the subtree is the prefix. */
  lemma {:induction false} PrefixIffBelow(t: Nodes, x: Id, root: Id)
    requires Coherent(t) && PathsStep(t) && x in t && root in t
    ensures Below(t, x, root) <==> x == root || Continues(t, x, root)
  {
    if n: nat :| Up(t, x, n) == Some(root) {
      if n >= 1 { BelowContinues(t, x, root, n); }
    }
    if x == root { assert Up(t, x, 0) == Some(root); }
    else if Continues(t, x, root) { ContinuesIsBelow(t, x, root); }
  }

  lemma {:induction false} BelowStep(t: Nodes, x: Id, root: Id)
    requires Coherent(t) && x in t && x != root && Below(t, x, root)
    ensures t[x].parent.Some? && t[x].parent.value in t && Below(t, t[x].parent.value, root)
  {
    var n: nat :| Up(t, x, n) == Some(root);
    assert n >= 1 && ParentOf(t, x).Some?;
    PathOfChild(t, x);
    assert Up(t, t[x].parent.value, n - 1) == Some(root);
  }

  lemma {:induction false} RightSteps(t: Nodes, x: Id, r: Id)
    requires Coherent(t) && QueryIsRight(t) && x in t && r in t
    ensures StepsAt(t, x, r)
  {
    if Continues(t, x, r) {
      assert RightAt(t, x, r);
      BelowStep(t, x, r);
      assert RightAt(t, t[x].parent.value, r);
    }
  }

  /**
   * Main result, whatever the names and the roots: the prefix query is right on
   * the whole table exactly if each single parent link accounts for the paths
   * that its child continues.
   */
  lemma {:induction false} QueryIsRightIff(t: Nodes)
    requires Coherent(t)
    ensures QueryIsRight(t) <==> PathsStep(t)
  {
    if QueryIsRight(t) {
      forall x, r | x in t && r in t ensures StepsAt(t, x, r) { RightSteps(t, x, r); }
    }
    if PathsStep(t) {
      forall x, r | x in t && r in t ensures RightAt(t, x, r) { PrefixIffBelow(t, x, r); }
    }
  }

  /** Where it is right, the prefix query and the level walk return the same active locations. */
  lemma {:induction false} QueryEqualsWalk(t: Nodes, root: Id, levels: seq<set<Id>>)
    requires Coherent(t) && PathsStep(t) && root in t && AreLevels(t, root, levels)
    ensures PrefixQuery(t, root) == set x | x in Union(levels) && x in t && t[x].active
  {
    CoherentIsAcyclic(t);
    LevelsAreSubtree(t, root, levels);
    forall x | x in t ensures Below(t, x, root) <==> x == root || Continues(t, x, root) {
      PrefixIffBelow(t, x, root);
    }
  }

  // ---------- text ----------

  predicate Closed(u: string) { u == "" || (|u| >= 3 && u[|u| - 3..] == SEPARATOR) }

  /** A closed prefix of base plus plain name is a prefix of the base. */
  lemma {:induction false} PrefixOfBase(a: string, u: string, name: string)
    requires Closed(a) && Closed(u) && '>' !in name && a <= u + name
    ensures a <= u
  {
    if a != "" {
      var s := u + name;
      assert a[|a| - 3..] == SEPARATOR;
      assert s[|a| - 2] == a[|a| - 2] == '>' && s[|a| - 1] == a[|a| - 1] == ' ';
      assert forall k | |u| <= k < |s| :: s[k] == name[k - |u|];
    }
  }

  /** Base and plain name can be told apart in their concatenation. */
  lemma {:induction false} SplitUnique(u: string, m: string, v: string, n: string)
    requires Closed(u) && Closed(v) && '>' !in m && '>' !in n && u + m == v + n
    ensures u == v && m == n
  {
    PrefixOfBase(u, v, n);
    PrefixOfBase(v, u, m);
    assert u == v;
    assert m == (u + m)[|u|..] && n == (v + n)[|v|..];
  }

  lemma {:induction false} NameParts(a: string, l: string, b: string, m: string)
    requires IsLabel(l) && IsLabel(m) && a + " " + l == b + " " + m
    ensures l == m
  {
    var s := a + " " + l;
    assert forall k | |a| < k < |s| :: s[k] == l[k - |a| - 1];
    assert forall k | |b| < k < |s| :: s[k] == m[k - |b| - 1];
    assert s[|a|] == ' ' && s[|b|] == ' ';
    assert l == s[|a| + 1..] && m == s[|b| + 1..];
  }

  /** A path that continues another's separator text, and is longer, continues the other's path. */
  lemma {:induction false} PrefixOfPath(a: string, path: string)
    requires Closed(a) && a != "" && path != "" && path[|path| - 1] != '>'
    requires a <= path + SEPARATOR && |a| < |path + SEPARATOR|
    ensures a <= path
  {
    var s := path + SEPARATOR;
    var k := |path|;
    assert a[|a| - 3..] == SEPARATOR;
    assert s[|a| - 2] == a[|a| - 2] == '>' && s[|a| - 1] == a[|a| - 1] == ' ';
    assert s[k] == ' ' && s[k + 1] == '>' && s[k + 2] == ' ' && s[k - 1] == path[k - 1];
  }

  lemma {:induction false} SeparatorCloses(a: string)
    ensures Closed(a + SEPARATOR)
  {
    assert (a + SEPARATOR)[|a|..] == SEPARATOR;
  }

  // ---------- plain names ----------

  /** Names are nonempty and free of angle brackets, as far as they end up in paths. */
  predicate PlainName(x: Node) {
    if x.parent.Some? then x.name != "" && '>' !in x.name else x.path != "" && x.path[|x.path| - 1] != '>'
  }

  ghost predicate PlainTable(t: Nodes) { forall x | x in t :: PlainName(t[x]) }

  /** No root's path continues the path of a location. */
  ghost predicate RootsApart(t: Nodes) {
    forall x, r | x in t && r in t && t[x].parent.None? :: !Continues(t, x, r)
  }

  /** A location that has a child shares its path with no other. */
  predicate Unshared(t: Nodes, child: Id, other: Id)
    requires child in t && other in t
  {
    t[child].parent.Some? && t[child].parent.value in t && t[other].path == t[t[child].parent.value].path
    ==> other == t[child].parent.value
  }

  ghost predicate ParentPathsUnshared(t: Nodes) {
    forall c, q {:trigger Unshared(t, c, q)} | c in t && q in t :: Unshared(t, c, q)
  }

  lemma {:induction false} SharedPathBreaks(t: Nodes, c: Id, q: Id)
    requires Coherent(t) && PathsStep(t) && c in t && q in t
    ensures Unshared(t, c, q)
  {
    if t[c].parent.Some? && t[c].parent.value in t && t[q].path == t[t[c].parent.value].path {
      PathOfChild(t, c);
      assert Continues(t, c, q);
      assert StepsAt(t, c, q);
    }
  }

  lemma {:induction false} PathEndsPlain(t: Nodes, x: Id)
    requires Coherent(t) && PlainTable(t) && x in t
    ensures t[x].path != "" && t[x].path[|t[x].path| - 1] != '>'
  {
    assert PlainName(t[x]) && ContinuesParent(t, t[x]);
    if t[x].parent.Some? {
      var name := t[x].name;
      PathOfChild(t, x);
      assert t[x].path[|t[x].path| - 1] == name[|name| - 1];
    }
  }

  lemma {:induction false} PlainSteps(t: Nodes, x: Id, r: Id)
    requires Coherent(t) && PlainTable(t) && RootsApart(t) && ParentPathsUnshared(t)
    requires x in t && r in t
    ensures StepsAt(t, x, r)
  {
    if Continues(t, x, r) {
      assert t[x].parent.Some?;
      PathOfChild(t, x);
      var p := t[x].parent.value;
      var a, u := t[r].path + SEPARATOR, t[p].path + SEPARATOR;
      SeparatorCloses(t[r].path);
      SeparatorCloses(t[p].path);
      assert PlainName(t[x]);
      PrefixOfBase(a, u, t[x].name);
      if |a| == |u| {
        assert t[r].path == a[..|a| - 3] == u[..|u| - 3] == t[p].path;
        assert Unshared(t, x, r);
      } else {
        PathEndsPlain(t, p);
        PrefixOfPath(a, t[p].path);
      }
    }
  }

  /** Main result for plain names: the query is right exactly if roots stay apart and parents' paths are not shared. */
  lemma {:induction false} PlainQueryIsRightIff(t: Nodes)
    requires Coherent(t) && PlainTable(t)
    ensures QueryIsRight(t) <==> RootsApart(t) && ParentPathsUnshared(t)
  {
    QueryIsRightIff(t);
    if PathsStep(t) {
      forall x, r | x in t && r in t && t[x].parent.None? ensures !Continues(t, x, r) { assert StepsAt(t, x, r); }
      forall c, q | c in t && q in t ensures Unshared(t, c, q) { SharedPathBreaks(t, c, q); }
    }
    if RootsApart(t) && ParentPathsUnshared(t) {
      forall x, r | x in t && r in t ensures StepsAt(t, x, r) { PlainSteps(t, x, r); }
    }
  }

  // ---------- roots in warehouses ----------

  function RootBase(code: string): string { if code == "" then "" else code + SEPARATOR }

  /** A root that is named below its warehouse's code. */
  predicate WarehouseRoot(warehouses: map<Id, string>, x: Node) {
    && x.warehouse.Some? && x.warehouse.value in warehouses
    && x.path == RootBase(warehouses[x.warehouse.value]) + x.name && x.name != "" && '>' !in x.name
  }

  /** Every root stands in a warehouse, or is the web site's. */
  ghost predicate Addressed(t: Nodes, warehouses: map<Id, string>) {
    forall x | x in t && t[x].parent.None? :: WarehouseRoot(warehouses, t[x]) || SiteRow(t[x])
  }

  /**
   * No warehouse's code continues another's, or the web site's, as a path would.
   * Always so for a single warehouse that is not called as the site, and for
   * distinct nonempty codes without angle brackets.
   */
  ghost predicate BasesApart(t: Nodes, warehouses: map<Id, string>) {
    && (forall v, w | v in warehouses && w in warehouses && v != w ::
          !(RootBase(warehouses[v]) <= RootBase(warehouses[w])))
    && ((exists x :: x in t && SiteRow(t[x])) ==>
          forall w | w in warehouses :: !(RootBase(SITE_STOCK) <= RootBase(warehouses[w])))
  }

  lemma {:induction false} PlainPrefix(a: string, b: string)
    requires '>' !in b && a + SEPARATOR <= b + SEPARATOR
    ensures a == b
  {
    var s := b + SEPARATOR;
    assert s[|a| + 1] == (a + SEPARATOR)[|a| + 1] == '>';
    assert forall k | 0 <= k < |b| :: s[k] == b[k];
    assert s[|b|] == ' ' && s[|b| + 2] == ' ';
    assert a == (a + SEPARATOR)[..|a|] && b == s[..|b|];
  }

  lemma {:induction false} PlainCodesAreApart(t: Nodes, warehouses: map<Id, string>)
    requires forall w | w in warehouses :: warehouses[w] != "" && '>' !in warehouses[w] && warehouses[w] != SITE_STOCK
    requires forall v, w | v in warehouses && w in warehouses && warehouses[v] == warehouses[w] :: v == w
    ensures BasesApart(t, warehouses)
  {
    forall v, w | v in warehouses && w in warehouses && RootBase(warehouses[v]) <= RootBase(warehouses[w])
      ensures v == w {
      PlainPrefix(warehouses[v], warehouses[w]);
    }
    forall w | w in warehouses ensures !(RootBase(SITE_STOCK) <= RootBase(warehouses[w])) {
      if RootBase(SITE_STOCK) <= RootBase(warehouses[w]) { PlainPrefix(SITE_STOCK, warehouses[w]); }
    }
  }

  /** The text that all paths below a root of the warehouse, or of the site, begin with. */
  ghost predicate StartsIn(t: Nodes, warehouses: map<Id, string>, path: string) {
    || (exists w :: w in warehouses && RootBase(warehouses[w]) <= path && |RootBase(warehouses[w])| < |path|)
    || ((exists x :: x in t && SiteRow(t[x])) && RootBase(SITE_STOCK) <= path + SEPARATOR)
  }

  lemma {:induction false} LongerStartsIn(t: Nodes, warehouses: map<Id, string>, path: string, name: string)
    requires StartsIn(t, warehouses, path)
    ensures StartsIn(t, warehouses, path + SEPARATOR + name)
  {
    var more := path + SEPARATOR + name;
    if w :| w in warehouses && RootBase(warehouses[w]) <= path && |RootBase(warehouses[w])| < |path| {
      assert RootBase(warehouses[w]) <= more && |RootBase(warehouses[w])| < |more|;
    } else {
      assert more + SEPARATOR == path + SEPARATOR + (name + SEPARATOR);
    }
  }

  lemma {:induction false} StartsInWarehouse(t: Nodes, warehouses: map<Id, string>, x: Id)
    requires Coherent(t) && Addressed(t, warehouses) && x in t
    ensures StartsIn(t, warehouses, t[x].path)
    decreases |t[x].path|
  {
    if t[x].parent.Some? {
      PathOfChild(t, x);
      var p := t[x].parent.value;
      StartsInWarehouse(t, warehouses, p);
      LongerStartsIn(t, warehouses, t[p].path, t[x].name);
    } else if WarehouseRoot(warehouses, t[x]) {
      assert RootBase(warehouses[t[x].warehouse.value]) <= t[x].path;
    }
  }

  /** A text that goes on from a location's path begins like a warehouse, or like the site. */
  lemma {:induction false} WithinBase(t: Nodes, warehouses: map<Id, string>, r: Id, base: string)
    requires Coherent(t) && Addressed(t, warehouses) && r in t && t[r].path + SEPARATOR <= base
    ensures || (exists v :: v in warehouses && RootBase(warehouses[v]) <= base && |RootBase(warehouses[v])| < |base|)
            || ((exists x :: x in t && SiteRow(t[x])) && RootBase(SITE_STOCK) <= base)
  {
    StartsInWarehouse(t, warehouses, r);
    if v :| v in warehouses && RootBase(warehouses[v]) <= t[r].path && |RootBase(warehouses[v])| < |t[r].path| {
      assert RootBase(warehouses[v]) <= base;
    }
  }

  /** No location's path, as the base of its children, is within the base of a warehouse. */
  lemma {:induction false} BaseIsNotWithin(t: Nodes, warehouses: map<Id, string>, r: Id, w: Id)
    requires Coherent(t) && Addressed(t, warehouses) && BasesApart(t, warehouses) && r in t && w in warehouses
    ensures !(t[r].path + SEPARATOR <= RootBase(warehouses[w]))
  {
    if t[r].path + SEPARATOR <= RootBase(warehouses[w]) { WithinBase(t, warehouses, r, RootBase(warehouses[w])); }
  }

  lemma {:induction false} ContinuedHasSpace(a: string, b: string)
    requires a + SEPARATOR <= b
    ensures ' ' in b
  {
    assert b[|a|] == (a + SEPARATOR)[|a|];
  }

  lemma {:induction false} SiteContinuesNothing(path: string)
    ensures !(path + SEPARATOR <= SITE_STOCK)
  {
    assert ' ' !in SITE_STOCK;
    if path + SEPARATOR <= SITE_STOCK { ContinuedHasSpace(path, SITE_STOCK); }
  }

  lemma {:induction false} AddressedRootsApart(t: Nodes, warehouses: map<Id, string>)
    requires Coherent(t) && Addressed(t, warehouses) && BasesApart(t, warehouses)
    ensures RootsApart(t)
  {
    forall x, r | x in t && r in t && t[x].parent.None? ensures !Continues(t, x, r) {
      if Continues(t, x, r) {
        SiteContinuesNothing(t[r].path);
        assert WarehouseRoot(warehouses, t[x]);
        var w := t[x].warehouse.value;
        SeparatorCloses(t[r].path);
        SeparatorCloses(warehouses[w]);
        PrefixOfBase(t[r].path + SEPARATOR, RootBase(warehouses[w]), t[x].name);
        BaseIsNotWithin(t, warehouses, r, w);
      }
    }
  }

  /**
   * Main result for hand-made and built locations alike, with plain names in
   * warehouses that are apart: the query is right exactly if no location that
   * has a child shares its path with another.
   */
  lemma {:induction false} AddressedQueryIsRightIff(t: Nodes, warehouses: map<Id, string>)
    requires Coherent(t) && PlainTable(t) && Addressed(t, warehouses) && BasesApart(t, warehouses)
    ensures QueryIsRight(t) <==> ParentPathsUnshared(t)
  {
    PlainQueryIsRightIff(t);
    AddressedRootsApart(t, warehouses);
  }

  // ---------- what the program writes itself ----------

  lemma {:induction false} NameFacts(t: Nodes, warehouses: map<Id, string>, x: Node) returns (text: string, tag: string)
    requires NodeBuilt(t, warehouses, x)
    ensures Named(x.name, text, tag) && x.code == ChildCode(ParentCode(t, warehouses, x), tag)
    ensures x.name != "" && '>' !in x.name && ' ' in x.name
  {
    text, tag :| Named(x.name, text, tag) && x.code == ChildCode(ParentCode(t, warehouses, x), tag);
    forall i | 0 <= i < |x.name| ensures x.name[i] != '>' {
      if i < |text| { assert x.name[i] == text[i] && text[i] in text; }
      else if i == |text| { assert x.name[i] == ' '; }
      else { assert x.name[i] == tag[i - |text| - 1]; }
    }
    assert x.name[|text|] == ' ';
  }

  lemma {:induction false} SystemNameFacts(kind: SystemKind)
    ensures SystemName(kind) != "" && '>' !in SystemName(kind) && ' ' in SystemName(kind)
  {
    assert SystemName(Unregistered)[6] == ' ' && SystemName(Staging)[5] == ' ';
  }

  /** The program's own names do not end in a label. */
  lemma {:induction false} SystemNameIsNotNamed(kind: SystemKind, text: string, tag: string)
    ensures !Named(SystemName(kind), text, tag)
  {
    var last := SystemName(kind)[|SystemName(kind)| - 1];
    assert !IsLetter(last) && !('0' <= last <= '9');
    if Named(SystemName(kind), text, tag) { EndsInLabel(SystemName(kind), text, tag); }
  }

  lemma {:induction false} EndsInLabel(name: string, text: string, tag: string)
    requires Named(name, text, tag)
    ensures name != "" && (IsLetter(name[|name| - 1]) || '0' <= name[|name| - 1] <= '9')
  {
    assert name[|name| - 1] == tag[|tag| - 1];
  }

  /** A root that the program writes is the site's, or has a plain name with a space below its warehouse. */
  lemma {:induction false} BuiltRoot(t: Nodes, warehouses: map<Id, string>, x: Id)
    requires Built(t, warehouses) && x in t && t[x].parent.None?
    ensures SiteRow(t[x]) || (WarehouseRoot(warehouses, t[x]) && ' ' in t[x].name)
  {
    assert RowBuilt(t, warehouses, t[x]);
    if NodeBuilt(t, warehouses, t[x]) {
      var text, tag := NameFacts(t, warehouses, t[x]);
    } else if SystemRow(warehouses, t[x]) {
      var kind :| t[x].name == SystemName(kind) && t[x].code == SystemCode(kind, t[x].warehouse.value);
      SystemNameFacts(kind);
    }
  }

  lemma {:induction false} BuiltChild(t: Nodes, warehouses: map<Id, string>, x: Id)
    requires Built(t, warehouses) && x in t && t[x].parent.Some?
    ensures NodeBuilt(t, warehouses, t[x]) && t[x].parent.value in t && t[x].name != "" && '>' !in t[x].name
  {
    assert RowBuilt(t, warehouses, t[x]);
    var text, tag := NameFacts(t, warehouses, t[x]);
  }

  lemma {:induction false} LastOfConcat(a: string, b: string)
    requires b != ""
    ensures (a + b)[|a + b| - 1] == b[|b| - 1]
  {
  }

  /** What the program writes is of the kind that the results above are about. */
  lemma {:induction false} BuiltIsCoherent(t: Nodes, warehouses: map<Id, string>)
    requires Built(t, warehouses)
    ensures Coherent(t) && PlainTable(t) && Addressed(t, warehouses)
  {
    forall x | x in t ensures ContinuesParent(t, t[x]) && PlainName(t[x]) {
      if t[x].parent.Some? {
        BuiltChild(t, warehouses, x);
      } else {
        BuiltRoot(t, warehouses, x);
        if WarehouseRoot(warehouses, t[x]) { LastOfConcat(RootBase(warehouses[t[x].warehouse.value]), t[x].name); }
      }
    }
    forall x | x in t && t[x].parent.None? ensures WarehouseRoot(warehouses, t[x]) || SiteRow(t[x]) {
      BuiltRoot(t, warehouses, x);
    }
  }

  /** The same name under the same parent, or in the same warehouse, is the same code. */
  lemma {:induction false} SameNameSameCode(t: Nodes, warehouses: map<Id, string>, x: Id, y: Id)
    requires Built(t, warehouses) && x in t && y in t && t[x].name == t[y].name
    requires t[x].parent == t[y].parent
    requires t[x].parent.None? ==> t[x].warehouse == t[y].warehouse && !SiteRow(t[x]) && !SiteRow(t[y])
    ensures t[x].code == t[y].code
  {
    assert RowBuilt(t, warehouses, t[x]) && RowBuilt(t, warehouses, t[y]);
    if NodeBuilt(t, warehouses, t[x]) {
      var text, tag := NameFacts(t, warehouses, t[x]);
      if NodeBuilt(t, warehouses, t[y]) {
        var text', tag' := NameFacts(t, warehouses, t[y]);
        NameParts(text, tag, text', tag');
      } else {
        var kind :| t[y].name == SystemName(kind);
        SystemNameIsNotNamed(kind, text, tag);
      }
    } else if NodeBuilt(t, warehouses, t[y]) {
      var text, tag := NameFacts(t, warehouses, t[y]);
      var kind :| t[x].name == SystemName(kind);
      SystemNameIsNotNamed(kind, text, tag);
    }
  }

  /** What the program writes has unique paths. */
  lemma {:induction false} PathsAreUnique(t: Nodes, warehouses: map<Id, string>, x: Id, y: Id)
    requires Built(t, warehouses) && UniqueCodes(t) && BasesApart(t, warehouses)
    requires x in t && y in t && t[x].path == t[y].path
    ensures x == y
    decreases |t[x].path|
  {
    BuiltIsCoherent(t, warehouses);
    if t[x].parent.Some? && t[y].parent.Some? {
      var p, q := t[x].parent.value, t[y].parent.value;
      PathOfChild(t, x);
      PathOfChild(t, y);
      assert PlainName(t[x]) && PlainName(t[y]);
      SeparatorCloses(t[p].path);
      SeparatorCloses(t[q].path);
      SplitUnique(t[p].path + SEPARATOR, t[x].name, t[q].path + SEPARATOR, t[y].name);
      SameBeforeSeparator(t[p].path, t[q].path);
      PathsAreUnique(t, warehouses, p, q);
      SameNameSameCode(t, warehouses, x, y);
    } else if t[x].parent.Some? {
      ChildIsNoRoot(t, warehouses, x, y);
    } else if t[y].parent.Some? {
      ChildIsNoRoot(t, warehouses, y, x);
    } else {
      RootPathsAreUnique(t, warehouses, x, y);
    }
  }

  lemma {:induction false} SameBeforeSeparator(a: string, b: string)
    requires a + SEPARATOR == b + SEPARATOR
    ensures a == b
  {
    assert a == (a + SEPARATOR)[..|a + SEPARATOR| - 3] == (b + SEPARATOR)[..|b + SEPARATOR| - 3] == b;
  }

  lemma {:induction false} ChildIsNoRoot(t: Nodes, warehouses: map<Id, string>, x: Id, y: Id)
    requires Built(t, warehouses) && BasesApart(t, warehouses)
    requires x in t && y in t && t[x].parent.Some? && t[y].parent.None?
    ensures t[x].path != t[y].path
  {
    BuiltIsCoherent(t, warehouses);
    PathOfChild(t, x);
    AddressedRootsApart(t, warehouses);
    assert !Continues(t, y, t[x].parent.value);
  }

  lemma {:induction false} RootPathsAreUnique(t: Nodes, warehouses: map<Id, string>, x: Id, y: Id)
    requires Built(t, warehouses) && UniqueCodes(t) && BasesApart(t, warehouses)
    requires x in t && y in t && t[x].parent.None? && t[y].parent.None? && t[x].path == t[y].path
    ensures x == y
  {
    BuiltRoot(t, warehouses, x);
    BuiltRoot(t, warehouses, y);
    assert ' ' !in SITE_STOCK;
    if !SiteRow(t[x]) { NameInPath(warehouses, t[x]); }
    if !SiteRow(t[y]) { NameInPath(warehouses, t[y]); }
    if !SiteRow(t[x]) && !SiteRow(t[y]) {
      var v, w := t[x].warehouse.value, t[y].warehouse.value;
      SeparatorCloses(warehouses[v]);
      SeparatorCloses(warehouses[w]);
      SplitUnique(RootBase(warehouses[v]), t[x].name, RootBase(warehouses[w]), t[y].name);
      SameNameSameCode(t, warehouses, x, y);
    }
  }

  lemma {:induction false} NameInPath(warehouses: map<Id, string>, x: Node)
    requires WarehouseRoot(warehouses, x) && ' ' in x.name
    ensures ' ' in x.path
  {
    var i :| 0 <= i < |x.name| && x.name[i] == ' ';
    assert x.path[|RootBase(warehouses[x.warehouse.value])| + i] == ' ';
  }

  /** Main result for the program's own tables, system locations included: the prefix query is right. */
  lemma {:induction false} BuiltQueryIsRight(t: Nodes, warehouses: map<Id, string>)
    requires Built(t, warehouses) && UniqueCodes(t) && BasesApart(t, warehouses)
    ensures Coherent(t) && QueryIsRight(t) && PathsStep(t)
  {
    BuiltIsCoherent(t, warehouses);
    forall c, q | c in t && q in t ensures Unshared(t, c, q) {
      if t[c].parent.Some? && t[c].parent.value in t && t[q].path == t[t[c].parent.value].path {
        PathsAreUnique(t, warehouses, q, t[c].parent.value);
      }
    }
    AddressedQueryIsRightIff(t, warehouses);
    QueryIsRightIff(t);
  }

  /** Removing whole subtrees, or deactivating nodes, leaves such a table. */
  lemma {:induction false} PruningKeepsBuilt(t: Nodes, u: Nodes, warehouses: map<Id, string>)
    requires Built(t, warehouses) && UniqueCodes(t) && Linked(u)
    requires forall x | x in u :: x in t && u[x] == t[x].(active := u[x].active)
    ensures Built(u, warehouses) && UniqueCodes(u)
  {
    forall x | x in u ensures RowBuilt(u, warehouses, u[x]) {
      assert RowBuilt(t, warehouses, t[x]);
      if NodeBuilt(t, warehouses, t[x]) {
        var text, tag :| Named(t[x].name, text, tag) && t[x].code == ChildCode(ParentCode(t, warehouses, t[x]), tag);
        assert Named(u[x].name, text, tag) && u[x].code == ChildCode(ParentCode(u, warehouses, u[x]), tag);
      }
    }
  }

  // ---------- names that mislead ----------

  /**
   * Names that are not built can mislead the query: a sibling whose name
   * continues the other's path is found below it without being its child.
   */
  lemma {:induction false} FreeNamesMislead(name: string)
    ensures var a := Node(name, "W-01", "LOC-W-01", "W > " + name, 0, "", None, Some("w"), 0, true);
      var b := Node(name + " > x", "W-02", "LOC-W-02", "W > " + name + " > x", 0, "", None, Some("w"), 1, true);
      var t: Nodes := map["a" := a, "b" := b];
      "b" in PrefixQuery(t, "a") && !Below(t, "b", "a")
  {
    var a := Node(name, "W-01", "LOC-W-01", "W > " + name, 0, "", None, Some("w"), 0, true);
    var b := Node(name + " > x", "W-02", "LOC-W-02", "W > " + name + " > x", 0, "", None, Some("w"), 1, true);
    var t: Nodes := map["a" := a, "b" := b];
    assert "a"[0] != "b"[0];
    assert t["b"] == b && t["a"] == a;
    assert b.path == a.path + SEPARATOR + "x";
    forall n: nat ensures Up(t, "b", n) != Some("a") {
      if n > 0 { assert ParentOf(t, "b").None?; }
    }
  }

  /**
   * Plain names can mislead the query as well: of two siblings of one name the
   * child of the second is found below the first.
   */
  lemma {:induction false} SameNamesMislead(name: string)
    requires name != "" && '>' !in name
    ensures var a := Node(name, "W-01", "LOC-W-01", "W > " + name, 0, "", None, Some("w"), 0, true);
      var b := Node(name, "W-02", "LOC-W-02", "W > " + name, 0, "", None, Some("w"), 1, true);
      var c := Node("x", "W-02-01", "LOC-W-02-01", "W > " + name + " > x", 1, "", Some("b"), Some("w"), 0, true);
      var t: Nodes := map["a" := a, "b" := b, "c" := c];
      Coherent(t) && "c" in PrefixQuery(t, "a") && !Below(t, "c", "a")
  {
    var a := Node(name, "W-01", "LOC-W-01", "W > " + name, 0, "", None, Some("w"), 0, true);
    var b := Node(name, "W-02", "LOC-W-02", "W > " + name, 0, "", None, Some("w"), 1, true);
    var c := Node("x", "W-02-01", "LOC-W-02-01", "W > " + name + " > x", 1, "", Some("b"), Some("w"), 0, true);
    var t: Nodes := map["a" := a, "b" := b, "c" := c];
    assert "a"[0] != "b"[0] && "a"[0] != "c"[0] && "b"[0] != "c"[0];
    assert t["a"] == a && t["b"] == b && t["c"] == c;
    assert c.path == a.path + SEPARATOR + "x" == b.path + " > " + c.name;
    forall n: nat ensures Up(t, "c", n) != Some("a") {
      if n > 0 {
        assert ParentOf(t, "c") == Some("b") && ParentOf(t, "b").None?;
        assert Up(t, "c", n) == Up(t, "b", n - 1);
      }
    }
  }
}
