/**
  What the write pass issues, node by node (create_nxmx/create_nxmx.py,
  lines 28-36 and 51-67).

  Each node contributes one block of operations at its own path: a group its
  creation and its attributes, a dataset its creation, the write of its value
  and its attributes. The pass from a group issues the blocks of its subtree in
  the order `Order` gives, and stops at the first dataset whose parameters
  clash or whose name is already taken, keeping everything issued before it.
 */
module Trace {
  import opened Wrappers
  import opened Values
  import opened Nodes
  import opened Paths
  import opened Writer
  import opened Traversal

  /** Where a placed pass writes the node's parent: the parent's path, or the
      file itself for a root. */
  function ParentAt(t: Tree, j: nat): (at: Option<string>)
    requires Valid(t) && j < |t.nodes|
    ensures Under(at, t.nodes[j].name) == Path(t, j)
  {
    assert NodeOk(t, j);
    match t.nodes[j].parent
    case None => None
    case Some(p) => Some(Path(t, p))
  }

  /** The operations of one node, at its own path. */
  function Block(t: Tree, j: nat): Outcome
    requires Valid(t) && j < |t.nodes|
  {
    var here := Path(t, j);
    if t.nodes[j].body.GroupBody? then
      Outcome([CreateGroup(here)] + AttrOps(here, t.nodes[j].attrs), None)
    else
      DatasetH5(t, j, ParentAt(t, j))
  }

  /** A block fails only for a dataset whose parameters clash or whose name
      its parent's child groups already use. */
  predicate Clean(t: Tree, j: nat)
    requires j < |t.nodes|
  {
    t.nodes[j].body.DatasetBody? ==>
      Clashes(t.nodes[j].body.value, t.nodes[j].body.params) == {} && !NameTaken(t, j)
  }

  lemma BlockFault(t: Tree, j: nat)
    requires Valid(t) && j < |t.nodes|
    ensures Block(t, j).fault.None? <==> Clean(t, j)
    ensures Block(t, j).fault.Some? ==> Block(t, j).ops == [] && t.nodes[j].body.DatasetBody?
    ensures var n := t.nodes[j];
      n.body.DatasetBody? && Clashes(n.body.value, n.body.params) != {} ==>
        Block(t, j).fault == Some(KeywordClash(Path(t, j), Clashes(n.body.value, n.body.params)))
    ensures var n := t.nodes[j];
      n.body.DatasetBody? && Clashes(n.body.value, n.body.params) == {} && NameTaken(t, j) ==>
        Block(t, j).fault == Some(NameExists(Path(t, j)))
  {
  }

  function RunBlocks(t: Tree, js: seq<nat>): Outcome
    requires Valid(t) && InRange(t, js)
  {
    if |js| == 0 then Outcome([], None) else Then(Block(t, js[0]), RunBlocks(t, js[1..]))
  }

  /** The operations of the blocks, one after another. */
  function BlockOps(t: Tree, js: seq<nat>): seq<Op>
    requires Valid(t) && InRange(t, js)
  {
    if |js| == 0 then [] else Block(t, js[0]).ops + BlockOps(t, js[1..])
  }

  lemma ThenAssoc(a: Outcome, b: Outcome, c: Outcome)
    ensures Then(Then(a, b), c) == Then(a, Then(b, c))
  {
    if a.fault.None? && b.fault.None? {
      assert (a.ops + b.ops) + c.ops == a.ops + (b.ops + c.ops);
    }
  }

  lemma {:induction false} RunBlocksAppend(t: Tree, a: seq<nat>, b: seq<nat>)
    requires Valid(t) && InRange(t, a) && InRange(t, b)
    ensures RunBlocks(t, a + b) == Then(RunBlocks(t, a), RunBlocks(t, b))
    decreases |a|
  {
    if |a| == 0 {
      assert a + b == b;
      assert [] + RunBlocks(t, b).ops == RunBlocks(t, b).ops;
    } else {
      assert (a + b)[1..] == a[1..] + b;
      RunBlocksAppend(t, a[1..], b);
      ThenAssoc(Block(t, a[0]), RunBlocks(t, a[1..]), RunBlocks(t, b));
    }
  }

  // ---------------------------------------------------------------------------
  // the recursive pass equals the blocks of Order

  lemma {:induction false} DatasetsH5Blocks(t: Tree, g: nat, ds: seq<nat>)
    requires Valid(t) && IsGroupAt(t, g) && MembersOf(t, g, ds, false)
    ensures InRange(t, ds) && DatasetsH5(t, g, ds, Path(t, g)) == RunBlocks(t, ds)
    decreases |ds|
  {
    if |ds| > 0 {
      assert NodeOk(t, ds[0]);
      assert ParentAt(t, ds[0]) == Some(Path(t, g));
      DatasetsH5Blocks(t, g, ds[1..]);
    }
  }

  /** A pass started where the group belongs issues exactly the blocks of its
      subtree, in the order `Order` gives. */
  lemma {:induction false} GroupH5Blocks(t: Tree, g: nat)
    requires Valid(t) && IsGroupAt(t, g)
    ensures GroupH5(t, g, ParentAt(t, g)) == RunBlocks(t, Order(t, g))
    decreases |t.nodes| - g, 1, 0
  {
    assert NodeOk(t, g);
    var here := Path(t, g);
    var cs := Children(t, g);
    var ds := Datasets(t, g);
    var oa := OrderAll(t, g, cs);
    ChildrenH5Blocks(t, g, cs);
    DatasetsH5Blocks(t, g, ds);
    RunBlocksAppend(t, oa, ds);
    assert Order(t, g) == [g] + (oa + ds);
    assert Order(t, g)[1..] == oa + ds;
  }

  lemma {:induction false} ChildrenH5Blocks(t: Tree, g: nat, cs: seq<nat>)
    requires Valid(t) && IsGroupAt(t, g) && MembersOf(t, g, cs, true)
    ensures InRange(t, OrderAll(t, g, cs))
    ensures ChildrenH5(t, g, cs, Path(t, g)) == RunBlocks(t, OrderAll(t, g, cs))
    decreases |t.nodes| - g, 0, |cs|
  {
    if |cs| > 0 {
      var c := cs[0];
      assert NodeOk(t, c);
      assert ParentAt(t, c) == Some(Path(t, g));
      GroupH5Blocks(t, c);
      ChildrenH5Blocks(t, g, cs[1..]);
      RunBlocksAppend(t, Order(t, c), OrderAll(t, g, cs[1..]));
    }
  }

  // ---------------------------------------------------------------------------
  // success, failure, and what a clean pass issues

  /** A run of blocks succeeds exactly when every block does, and then issues
      all their operations. */
  lemma {:induction false} RunBlocksClean(t: Tree, js: seq<nat>)
    requires Valid(t) && InRange(t, js)
    ensures RunBlocks(t, js).fault.None? <==> forall k | 0 <= k < |js| :: Clean(t, js[k])
    ensures RunBlocks(t, js).fault.None? ==> RunBlocks(t, js).ops == BlockOps(t, js)
    decreases |js|
  {
    if |js| > 0 {
      BlockFault(t, js[0]);
      RunBlocksClean(t, js[1..]);
      assert forall k | 1 <= k < |js| :: js[k] == js[1..][k - 1];
    }
  }

  /** The position of the first unclean block, `|js|` when there is none. */
  function FirstUnclean(t: Tree, js: seq<nat>): (k: nat)
    requires InRange(t, js)
    ensures k <= |js|
    ensures forall m | 0 <= m < k :: Clean(t, js[m])
    ensures k < |js| ==> !Clean(t, js[k])
  {
    if |js| == 0 then 0
    else if !Clean(t, js[0]) then 0
    else 1 + FirstUnclean(t, js[1..])
  }

  /** A failing run stops at its first unclean block, keeping the operations
      of the blocks before it and nothing of the failing one. */
  lemma {:induction false} RunBlocksStops(t: Tree, js: seq<nat>)
    requires Valid(t) && InRange(t, js) && RunBlocks(t, js).fault.Some?
    ensures FirstUnclean(t, js) < |js|
    ensures RunBlocks(t, js).fault == Block(t, js[FirstUnclean(t, js)]).fault
    ensures RunBlocks(t, js).ops == BlockOps(t, js[..FirstUnclean(t, js)])
    decreases |js|
  {
    assert |js| > 0;
    BlockFault(t, js[0]);
    var rest := js[1..];
    assert RunBlocks(t, js) == Then(Block(t, js[0]), RunBlocks(t, rest));
    if Clean(t, js[0]) {
      RunBlocksStops(t, rest);
      var k := FirstUnclean(t, rest);
      assert FirstUnclean(t, js) == k + 1;
      assert js[k + 1] == rest[k];
      var pre := js[..k + 1];
      assert pre[0] == js[0] && pre[1..] == rest[..k];
      assert BlockOps(t, pre) == Block(t, js[0]).ops + BlockOps(t, rest[..k]);
    } else {
      assert FirstUnclean(t, js) == 0;
      assert js[..0] == [];
    }
  }

  /** The create operations of a trace, by path, in order. */
  function Creations(ops: seq<Op>): seq<string> {
    if |ops| == 0 then []
    else (if ops[0].CreateGroup? || ops[0].CreateDataset? then [ops[0].path] else [])
         + Creations(ops[1..])
  }

  /** The number of attribute-set operations in a trace. */
  function AttrSets(ops: seq<Op>): nat {
    if |ops| == 0 then 0 else (if ops[0].SetAttr? then 1 else 0) + AttrSets(ops[1..])
  }

  lemma {:induction false} CountsAppend(a: seq<Op>, b: seq<Op>)
    ensures Creations(a + b) == Creations(a) + Creations(b)
    ensures AttrSets(a + b) == AttrSets(a) + AttrSets(b)
    decreases |a|
  {
    if |a| == 0 {
      assert a + b == b;
    } else {
      assert (a + b)[1..] == a[1..] + b;
      CountsAppend(a[1..], b);
    }
  }

  lemma {:induction false} AttrOpsCounts(here: string, attrs: Attrs)
    ensures Creations(AttrOps(here, attrs)) == []
    ensures AttrSets(AttrOps(here, attrs)) == |attrs|
    decreases |attrs|
  {
    if |attrs| > 0 {
      var ops := AttrOps(here, attrs);
      assert ops[1..] == AttrOps(here, attrs[1..]);
      AttrOpsCounts(here, attrs[1..]);
    }
  }

  /** A clean block creates its node, once, at the node's path, and sets
      each of its attributes. */
  lemma BlockCounts(t: Tree, j: nat)
    requires Valid(t) && j < |t.nodes| && Clean(t, j)
    ensures Creations(Block(t, j).ops) == [Path(t, j)]
    ensures AttrSets(Block(t, j).ops) == |t.nodes[j].attrs|
  {
    var here := Path(t, j);
    var ops := Block(t, j).ops;
    AttrOpsCounts(here, t.nodes[j].attrs);
    if t.nodes[j].body.GroupBody? {
      CountsAppend([CreateGroup(here)], AttrOps(here, t.nodes[j].attrs));
    } else {
      assert ops == [ops[0], ops[1]] + AttrOps(here, t.nodes[j].attrs);
      CountsAppend([ops[0], ops[1]], AttrOps(here, t.nodes[j].attrs));
    }
  }

  function PathsOf(t: Tree, js: seq<nat>): (ps: seq<string>)
    requires Valid(t) && InRange(t, js)
    ensures |ps| == |js|
    ensures forall k | 0 <= k < |js| :: ps[k] == Path(t, js[k])
  {
    if |js| == 0 then [] else [Path(t, js[0])] + PathsOf(t, js[1..])
  }

  /** The total number of attribute entries of the nodes. */
  function AttrTotal(t: Tree, js: seq<nat>): nat
    requires InRange(t, js)
  {
    if |js| == 0 then 0 else |t.nodes[js[0]].attrs| + AttrTotal(t, js[1..])
  }

  lemma {:induction false} BlockOpsCounts(t: Tree, js: seq<nat>)
    requires Valid(t) && InRange(t, js)
    requires forall k | 0 <= k < |js| :: Clean(t, js[k])
    ensures Creations(BlockOps(t, js)) == PathsOf(t, js)
    ensures AttrSets(BlockOps(t, js)) == AttrTotal(t, js)
    decreases |js|
  {
    if |js| > 0 {
      BlockCounts(t, js[0]);
      BlockOpsCounts(t, js[1..]);
      CountsAppend(Block(t, js[0]).ops, BlockOps(t, js[1..]));
    }
  }

  // ---------------------------------------------------------------------------
  // the whole pass from a root

  /** The pass from a root fails exactly when some dataset below it has
      parameters that repeat a keyword of its creation call, or shares its
      name with a child group of its parent. */
  lemma MaterializeFailsIff(t: Tree, r: nat)
    requires Valid(t) && IsGroupAt(t, r) && t.nodes[r].parent.None?
    ensures Materialize(t, r).fault.None? <==>
      forall x | x in Subtree(t, r) :: Clean(t, x)
  {
    GroupH5Blocks(t, r);
    RunBlocksClean(t, Order(t, r));
    OrderIsSubtree(t, r);
    var o := Order(t, r);
    assert forall x | x in Subtree(t, r) :: exists k | 0 <= k < |o| :: o[k] == x;
  }

  /** A clean pass from a root creates every node below it exactly once, at
      the node's path, in the order `Order` gives, and issues one attribute-set
      operation per attribute entry of those nodes. */
  lemma MaterializeCreatesEachNodeOnce(t: Tree, r: nat)
    requires Valid(t) && IsGroupAt(t, r) && t.nodes[r].parent.None?
    requires Materialize(t, r).fault.None?
    ensures Creations(Materialize(t, r).ops) == PathsOf(t, Order(t, r))
    ensures |Creations(Materialize(t, r).ops)| == |Subtree(t, r)|
    ensures AttrSets(Materialize(t, r).ops) == AttrTotal(t, Order(t, r))
  {
    GroupH5Blocks(t, r);
    RunBlocksClean(t, Order(t, r));
    BlockOpsCounts(t, Order(t, r));
    OrderIsSubtree(t, r);
  }

  /** A failing pass from a root has issued the complete blocks of the nodes
      visited before the first failing dataset, and reports that dataset's
      path with the repeated keywords or, when its parameters are fine, with
      the name its parent's child group already took. */
  lemma MaterializeStopsAtFirstFault(t: Tree, r: nat)
    requires Valid(t) && IsGroupAt(t, r) && t.nodes[r].parent.None?
    requires Materialize(t, r).fault.Some?
    ensures var o := Order(t, r);
            var k := FirstUnclean(t, o);
      && k < |o|
      && IsDatasetAt(t, o[k])
      && (forall m | 0 <= m < k :: Clean(t, o[m]))
      && Materialize(t, r).ops == BlockOps(t, o[..k])
    ensures var o := Order(t, r);
            var k := FirstUnclean(t, o);
            var c := Clashes(t.nodes[o[k]].body.value, t.nodes[o[k]].body.params);
      && (c != {} ==> Materialize(t, r).fault == Some(KeywordClash(Path(t, o[k]), c)))
      && (c == {} ==> NameTaken(t, o[k]) && Materialize(t, r).fault == Some(NameExists(Path(t, o[k]))))
  {
    var o := Order(t, r);
    GroupH5Blocks(t, r);
    RunBlocksStops(t, o);
    BlockFault(t, o[FirstUnclean(t, o)]);
  }

  /** In a clean pass from a root, every node after the root is created
      after its parent. */
  lemma MaterializeParentsCreatedFirst(t: Tree, r: nat)
    requires Valid(t) && IsGroupAt(t, r) && t.nodes[r].parent.None?
    requires Materialize(t, r).fault.None?
    ensures |Creations(Materialize(t, r).ops)| == |Order(t, r)|
    ensures var cr := Creations(Materialize(t, r).ops);
            var o := Order(t, r);
      forall a | 0 < a < |o| :: ParentAt(t, o[a]).Some? && ParentAt(t, o[a]).value in cr[..a]
  {
    var o := Order(t, r);
    MaterializeCreatesEachNodeOnce(t, r);
    OrderParentsFirst(t, r);
    PathsParentsFirst(t, o);
  }

  /** When every node of `o` after the first has its parent earlier in `o`,
      every path after the first has its parent's location earlier among the
      paths. */
  lemma PathsParentsFirst(t: Tree, o: seq<nat>)
    requires Valid(t) && InRange(t, o)
    requires forall a | 0 < a < |o| :: t.nodes[o[a]].parent.Some? && t.nodes[o[a]].parent.value in o[..a]
    ensures var ps := PathsOf(t, o);
      forall a | 0 < a < |o| :: ParentAt(t, o[a]).Some? && ParentAt(t, o[a]).value in ps[..a]
  {
    var ps := PathsOf(t, o);
    forall a | 0 < a < |o| ensures ParentAt(t, o[a]).Some? && ParentAt(t, o[a]).value in ps[..a] {
      var p := t.nodes[o[a]].parent.value;
      assert p in o[..a];
      var b :| 0 <= b < a && o[..a][b] == p;
      assert ps[..a][b] == Path(t, p);
    }
  }

  /** In a clean pass from a root, the creations of any group below it form
      one uninterrupted run: the group, its child groups' subtrees, then its
      datasets. */
  lemma MaterializeGroupRunsTogether(t: Tree, r: nat, h: nat)
    requires Valid(t) && IsGroupAt(t, r) && t.nodes[r].parent.None?
    requires Materialize(t, r).fault.None?
    requires IsGroupAt(t, h) && Within(t, r, h)
    ensures Infix(PathsOf(t, Order(t, h)), Creations(Materialize(t, r).ops))
  {
    var o := Order(t, r);
    var oh := Order(t, h);
    MaterializeCreatesEachNodeOnce(t, r);
    OrderSegment(t, r, h);
    var a: nat :| InfixAt(oh, o, a);
    PathsOfInfix(t, oh, o, a);
  }

  // ---------------------------------------------------------------------------
  // a clean pass never creates a location twice

  /** Two different members of one group have different names once neither
      of them fails: the dictionaries keep their keys apart, and a dataset
      named like a child group is not clean. */
  lemma SiblingNamesDiffer(t: Tree, x: nat, y: nat)
    requires Valid(t) && x < |t.nodes| && y < |t.nodes| && x != y
    requires Attached(t, x) && Attached(t, y) && t.nodes[x].parent == t.nodes[y].parent
    requires Clean(t, x) && Clean(t, y)
    ensures t.nodes[x].name != t.nodes[y].name
  {
    var p := t.nodes[x].parent.value;
    assert NodeOk(t, p);
    var cs := Children(t, p);
    var ds := Datasets(t, p);
    var gx := t.nodes[x].body.GroupBody?;
    var gy := t.nodes[y].body.GroupBody?;
    if gx && gy {
      var a :| 0 <= a < |cs| && cs[a] == x;
      var b :| 0 <= b < |cs| && cs[b] == y;
      if a > b {
        assert t.nodes[cs[b]].name != t.nodes[cs[a]].name;
      }
    } else if !gx && !gy {
      var a :| 0 <= a < |ds| && ds[a] == x;
      var b :| 0 <= b < |ds| && ds[b] == y;
      if a > b {
        assert t.nodes[ds[b]].name != t.nodes[ds[a]].name;
      }
    } else if gx {
      var a :| 0 <= a < |cs| && cs[a] == x;
      assert !NameTaken(t, y);
    } else {
      var b :| 0 <= b < |cs| && cs[b] == y;
      assert !NameTaken(t, x);
    }
  }

  /** Within a root's subtree whose nodes are clean and whose names are
      slash-free, a path names exactly one node. */
  lemma {:induction false} PathsInjective(t: Tree, r: nat, x: nat, y: nat)
    requires Valid(t) && r < |t.nodes| && t.nodes[r].parent.None?
    requires x < |t.nodes| && y < |t.nodes| && Within(t, r, x) && Within(t, r, y)
    requires forall z | 0 <= z < |t.nodes| && Within(t, r, z) :: Clean(t, z) && SlashFree(t.nodes[z].name)
    requires Path(t, x) == Path(t, y)
    ensures x == y
    decreases x + y
  {
    assert NodeOk(t, x);
    assert NodeOk(t, y);
    if x == r || y == r {
      if x != y {
        var z := if x == r then y else x;
        ChildPathHasSlash(t, z);
      }
    } else {
      var px := t.nodes[x].parent.value;
      var py := t.nodes[y].parent.value;
      LastSeparatorUnique(Path(t, px), t.nodes[x].name, Path(t, py), t.nodes[y].name);
      PathsInjective(t, r, px, py);
      if x != y {
        SiblingNamesDiffer(t, x, y);
      }
    }
  }

  /** A clean pass from a root whose subtree names are slash-free never
      creates the same location twice: the backend is never asked for a
      name that is already taken. */
  lemma MaterializeCreatesDistinctPaths(t: Tree, r: nat)
    requires Valid(t) && IsGroupAt(t, r) && t.nodes[r].parent.None?
    requires Materialize(t, r).fault.None?
    requires forall x | x in Subtree(t, r) :: SlashFree(t.nodes[x].name)
    ensures var cr := Creations(Materialize(t, r).ops);
      forall a, b | 0 <= a < b < |cr| :: cr[a] != cr[b]
  {
    var o := Order(t, r);
    MaterializeFailsIff(t, r);
    MaterializeCreatesEachNodeOnce(t, r);
    OrderIsSubtree(t, r);
    var cr := Creations(Materialize(t, r).ops);
    assert forall z | 0 <= z < |t.nodes| && Within(t, r, z) :: z in Subtree(t, r);
    forall a, b | 0 <= a < b < |cr| ensures cr[a] != cr[b] {
      assert o[a] in Elems(o) && o[b] in Elems(o);
      if cr[a] == cr[b] {
        PathsInjective(t, r, o[a], o[b]);
      }
    }
  }

  lemma PathsOfInfix(t: Tree, s: seq<nat>, u: seq<nat>, a: nat)
    requires Valid(t) && InRange(t, s) && InRange(t, u) && InfixAt(s, u, a)
    ensures InfixAt(PathsOf(t, s), PathsOf(t, u), a)
  {
    forall i | 0 <= i < |s| ensures PathsOf(t, u)[a..a + |s|][i] == PathsOf(t, s)[i] {
      assert s[i] == u[a + i];
    }
  }
}
