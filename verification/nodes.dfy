/**
  The in-memory tree built by `NXGroup` and `NXDataset`
  (create_nxmx/create_nxmx.py, lines 4-21 and 38-44).

  Objects with parent back-references become an arena: every node lives at an
  index of `Tree.nodes`, and a node's parent is an earlier index. A group's
  `_children` and `_datasets` dictionaries become the sequences of their
  members' indices in insertion order; the dictionary key of a member is always
  the member's own name, so it is not stored twice.
 */
module Nodes {
  import opened Wrappers
  import opened Values

  datatype Body =
    | GroupBody(children: seq<nat>, datasets: seq<nat>)
    | DatasetBody(value: Value, params: Params)

  datatype Node = Node(name: string, attrs: Attrs, parent: Option<nat>, body: Body)

  datatype Tree = Tree(nodes: seq<Node>)

  /** A node index together with the tree it lives in. */
  datatype Made = Made(tree: Tree, node: nat)

  predicate IsGroupAt(t: Tree, i: nat) {
    i < |t.nodes| && t.nodes[i].body.GroupBody?
  }

  predicate IsDatasetAt(t: Tree, i: nat) {
    i < |t.nodes| && t.nodes[i].body.DatasetBody?
  }

  /** Every index in `cs` names a node of `t`. */
  predicate InRange(t: Tree, cs: seq<nat>) {
    forall k | 0 <= k < |cs| :: cs[k] < |t.nodes|
  }

  /** Every index in `cs` names a node whose parent is `p` and which is a group
      exactly when `groups` holds. */
  predicate MembersOf(t: Tree, p: nat, cs: seq<nat>, groups: bool) {
    forall k | 0 <= k < |cs| ::
      cs[k] < |t.nodes| && t.nodes[cs[k]].parent == Some(p) &&
      t.nodes[cs[k]].body.GroupBody? == groups
  }

  /** No two members of `cs` share a name: they are the keys of one dictionary. */
  predicate DistinctNames(t: Tree, cs: seq<nat>) {
    forall a, b | 0 <= a < b < |cs| && cs[a] < |t.nodes| && cs[b] < |t.nodes| ::
      t.nodes[cs[a]].name != t.nodes[cs[b]].name
  }

  /** `name in cs`, read as the keys of a dictionary. */
  predicate HasNamed(t: Tree, cs: seq<nat>, name: string) {
    exists k | 0 <= k < |cs| && cs[k] < |t.nodes| :: t.nodes[cs[k]].name == name
  }

  predicate NodeOk(t: Tree, i: nat)
    requires i < |t.nodes|
  {
    var n := t.nodes[i];
    (n.parent.Some? ==> n.parent.value < i) &&
    (n.body.GroupBody? ==>
       MembersOf(t, i, n.body.children, true) &&
       MembersOf(t, i, n.body.datasets, false) &&
       DistinctNames(t, n.body.children) &&
       DistinctNames(t, n.body.datasets))
  }

  /** The shape every tree built through the operations below keeps. */
  predicate Valid(t: Tree) {
    forall i | 0 <= i < |t.nodes| :: NodeOk(t, i)
  }

  function Children(t: Tree, p: nat): seq<nat>
    requires IsGroupAt(t, p)
  {
    t.nodes[p].body.children
  }

  function Datasets(t: Tree, p: nat): seq<nat>
    requires IsGroupAt(t, p)
  {
    t.nodes[p].body.datasets
  }

  /** Dictionary lookup: the member of `cs` called `name`, if any. */
  function Find(t: Tree, cs: seq<nat>, name: string): (r: Option<nat>)
    requires InRange(t, cs)
    ensures r.Some? ==> r.value in cs && t.nodes[r.value].name == name
    ensures r.None? <==> !HasNamed(t, cs, name)
  {
    if |cs| == 0 then None
    else if t.nodes[cs[0]].name == name then Some(cs[0])
    else
      var r := Find(t, cs[1..], name);
      assert HasNamed(t, cs, name) ==> HasNamed(t, cs[1..], name) by {
        if HasNamed(t, cs, name) {
          var k :| 0 <= k < |cs| && t.nodes[cs[k]].name == name;
          assert k != 0 && cs[1..][k - 1] == cs[k];
        }
      }
      assert HasNamed(t, cs[1..], name) ==> HasNamed(t, cs, name) by {
        if HasNamed(t, cs[1..], name) {
          var k :| 0 <= k < |cs[1..]| && t.nodes[cs[1..][k]].name == name;
          assert cs[k + 1] == cs[1..][k];
        }
      }
      r
  }

  /** A fresh node appended to the tree; an earlier node is left as it was. */
  lemma AppendKeepsOk(t: Tree, n: Node, i: nat)
    requires i < |t.nodes| && NodeOk(t, i)
    ensures NodeOk(Tree(t.nodes + [n]), i)
  {
    var t' := Tree(t.nodes + [n]);
    if t.nodes[i].body.GroupBody? {
      var cs := t.nodes[i].body.children;
      var ds := t.nodes[i].body.datasets;
      assert forall k | 0 <= k < |cs| :: t'.nodes[cs[k]] == t.nodes[cs[k]];
      assert forall k | 0 <= k < |ds| :: t'.nodes[ds[k]] == t.nodes[ds[k]];
    }
  }

  /** `NXGroup.__init__` / `NXDataset.__init__`: a new node with no members,
      under `parent` when one is given, which is not entered in the parent's
      dictionaries. */
  function NewNode(t: Tree, name: string, attrs: Attrs, parent: Option<nat>, body: Body): (r: Made)
    requires Valid(t)
    requires parent.Some? ==> parent.value < |t.nodes|
    requires body.GroupBody? ==> body.children == [] && body.datasets == []
    ensures Valid(r.tree)
    ensures r.node == |t.nodes| && |r.tree.nodes| == |t.nodes| + 1
    ensures r.tree.nodes[..|t.nodes|] == t.nodes
    ensures r.tree.nodes[r.node] == Node(name, attrs, parent, body)
  {
    var n := Node(name, attrs, parent, body);
    var t' := Tree(t.nodes + [n]);
    assert forall i | 0 <= i < |t.nodes| :: NodeOk(t', i) by {
      forall i | 0 <= i < |t.nodes| ensures NodeOk(t', i) {
        AppendKeepsOk(t, n, i);
      }
    }
    assert NodeOk(t', |t.nodes|);
    Made(t', |t.nodes|)
  }

  /** `NXGroup(name, attrs, parent)` */
  function NewGroup(t: Tree, name: string, attrs: Attrs, parent: Option<nat>): (r: Made)
    requires Valid(t)
    requires parent.Some? ==> parent.value < |t.nodes|
    ensures Valid(r.tree) && IsGroupAt(r.tree, r.node)
    ensures r.node == |t.nodes| && r.tree.nodes[..|t.nodes|] == t.nodes
    ensures r.tree.nodes[r.node] == Node(name, attrs, parent, GroupBody([], []))
  {
    NewNode(t, name, attrs, parent, GroupBody([], []))
  }

  /** `NXDataset(name, values, attrs, parent, params)` */
  function NewDataset(t: Tree, name: string, value: Value, attrs: Attrs,
                      parent: Option<nat>, params: Params): (r: Made)
    requires Valid(t)
    requires parent.Some? ==> parent.value < |t.nodes|
    ensures Valid(r.tree) && IsDatasetAt(r.tree, r.node)
    ensures r.node == |t.nodes| && r.tree.nodes[..|t.nodes|] == t.nodes
    ensures r.tree.nodes[r.node] == Node(name, attrs, parent, DatasetBody(value, params))
  {
    NewNode(t, name, attrs, parent, DatasetBody(value, params))
  }

  /** Two nodes that agree on everything the tree's shape depends on. */
  predicate SameShell(a: Node, b: Node) {
    a.name == b.name && a.parent == b.parent && a.body.GroupBody? == b.body.GroupBody?
  }

  /** Membership facts carry over to a tree whose nodes keep their shells. */
  lemma ShellsKeepMembers(t: Tree, r: Tree, i: nat, cs: seq<nat>, groups: bool)
    requires |r.nodes| == |t.nodes|
    requires forall j | 0 <= j < |t.nodes| :: SameShell(r.nodes[j], t.nodes[j])
    ensures MembersOf(t, i, cs, groups) ==> MembersOf(r, i, cs, groups)
    ensures DistinctNames(t, cs) ==> DistinctNames(r, cs)
  {
  }

  /** The body of a group with the index `c` appended to one of its members. */
  function Extend(b: Body, c: nat, groups: bool): Body
    requires b.GroupBody?
  {
    if groups then b.(children := b.children + [c]) else b.(datasets := b.datasets + [c])
  }

  /** Extending a group's members changes no node's shell. */
  lemma ExtendKeepsShells(t: Tree, p: nat, c: nat, groups: bool, r: Tree)
    requires IsGroupAt(t, p)
    requires r == Tree(t.nodes[p := t.nodes[p].(body := Extend(t.nodes[p].body, c, groups))])
    ensures |r.nodes| == |t.nodes|
    ensures forall j | 0 <= j < |t.nodes| :: SameShell(r.nodes[j], t.nodes[j])
  {
  }

  /** Appending a member whose name is not yet a key keeps the keys distinct. */
  lemma AppendMember(t: Tree, p: nat, cs: seq<nat>, c: nat, groups: bool)
    requires MembersOf(t, p, cs, groups) && DistinctNames(t, cs)
    requires c < |t.nodes| && t.nodes[c].parent == Some(p) && t.nodes[c].body.GroupBody? == groups
    requires !HasNamed(t, cs, t.nodes[c].name)
    ensures MembersOf(t, p, cs + [c], groups) && DistinctNames(t, cs + [c])
  {
    assert forall k | 0 <= k < |cs| :: t.nodes[cs[k]].name != t.nodes[c].name;
  }

  /** The group that receives the new member stays well formed. */
  lemma EnterKeepsParent(t: Tree, p: nat, groups: bool, r: Tree)
    requires Valid(t) && IsGroupAt(t, p) && |t.nodes| > 0
    requires t.nodes[|t.nodes| - 1].parent == Some(p)
    requires t.nodes[|t.nodes| - 1].body.GroupBody? == groups
    requires !HasNamed(t, if groups then Children(t, p) else Datasets(t, p), t.nodes[|t.nodes| - 1].name)
    requires r == Tree(t.nodes[p := t.nodes[p].(body := Extend(t.nodes[p].body, |t.nodes| - 1, groups))])
    ensures NodeOk(r, p)
  {
    assert NodeOk(t, p);
    var n := t.nodes[p];
    var c := |t.nodes| - 1;
    var before := if groups then n.body.children else n.body.datasets;
    var other := if groups then n.body.datasets else n.body.children;
    AppendMember(t, p, before, c, groups);
    ExtendKeepsShells(t, p, c, groups, r);
    ShellsKeepMembers(t, r, p, before + [c], groups);
    ShellsKeepMembers(t, r, p, other, !groups);
    assert r.nodes[p].body == Extend(n.body, c, groups);
  }

  lemma EnterKeepsOk(t: Tree, p: nat, groups: bool, r: Tree, i: nat)
    requires Valid(t) && IsGroupAt(t, p) && |t.nodes| > 0
    requires t.nodes[|t.nodes| - 1].parent == Some(p)
    requires t.nodes[|t.nodes| - 1].body.GroupBody? == groups
    requires !HasNamed(t, if groups then Children(t, p) else Datasets(t, p), t.nodes[|t.nodes| - 1].name)
    requires r == Tree(t.nodes[p := t.nodes[p].(body := Extend(t.nodes[p].body, |t.nodes| - 1, groups))])
    requires i < |r.nodes|
    ensures NodeOk(r, i)
  {
    if i == p {
      EnterKeepsParent(t, p, groups, r);
    } else {
      assert NodeOk(t, i);
      ExtendKeepsShells(t, p, |t.nodes| - 1, groups, r);
      var n := t.nodes[i];
      assert r.nodes[i] == n;
      if n.body.GroupBody? {
        ShellsKeepMembers(t, r, i, n.body.children, true);
        ShellsKeepMembers(t, r, i, n.body.datasets, false);
      }
    }
  }

  /** Enters the last node of `t` as a member of the group `p`: into its child
      groups when `groups` holds, into its datasets otherwise. */
  function Enter(t: Tree, p: nat, groups: bool): (r: Tree)
    requires Valid(t) && IsGroupAt(t, p) && |t.nodes| > 0
    requires t.nodes[|t.nodes| - 1].parent == Some(p)
    requires t.nodes[|t.nodes| - 1].body.GroupBody? == groups
    requires !HasNamed(t, if groups then Children(t, p) else Datasets(t, p), t.nodes[|t.nodes| - 1].name)
    ensures Valid(r) && |r.nodes| == |t.nodes|
    ensures forall j | 0 <= j < |t.nodes| && j != p :: r.nodes[j] == t.nodes[j]
    ensures IsGroupAt(r, p)
    ensures r.nodes[p].name == t.nodes[p].name && r.nodes[p].attrs == t.nodes[p].attrs
    ensures r.nodes[p].parent == t.nodes[p].parent
    ensures Children(r, p) == if groups then Children(t, p) + [|t.nodes| - 1] else Children(t, p)
    ensures Datasets(r, p) == if groups then Datasets(t, p) else Datasets(t, p) + [|t.nodes| - 1]
  {
    var r := Tree(t.nodes[p := t.nodes[p].(body := Extend(t.nodes[p].body, |t.nodes| - 1, groups))]);
    assert Valid(r) by {
      forall i | 0 <= i < |r.nodes| ensures NodeOk(r, i) {
        EnterKeepsOk(t, p, groups, r, i);
      }
    }
    r
  }

  /** `NXGroup.group(name, attrs)`: the child group called `name`; when there
      is none yet, a new one is created with `attrs` and entered under `p`. */
  function AddGroup(t: Tree, p: nat, name: string, attrs: Attrs): (r: Made)
    requires Valid(t) && IsGroupAt(t, p)
    ensures Valid(r.tree) && IsGroupAt(r.tree, p)
    ensures IsGroupAt(r.tree, r.node)
    ensures r.tree.nodes[r.node].name == name && r.tree.nodes[r.node].parent == Some(p)
    ensures r.node in Children(r.tree, p)
    // the group's dataset namespace is untouched
    ensures Datasets(r.tree, p) == Datasets(t, p)
    // an existing child is returned and nothing changes: `attrs` is discarded
    ensures HasNamed(t, Children(t, p), name) ==> r.tree == t && r.node in Children(t, p)
    // otherwise exactly one key is added, holding a new node with `attrs`
    ensures !HasNamed(t, Children(t, p), name) ==>
      && r.node == |t.nodes|
      && |r.tree.nodes| == |t.nodes| + 1
      && Children(r.tree, p) == Children(t, p) + [r.node]
      && r.tree.nodes[r.node] == Node(name, attrs, Some(p), GroupBody([], []))
      && r.tree.nodes[p].name == t.nodes[p].name
      && r.tree.nodes[p].attrs == t.nodes[p].attrs
      && r.tree.nodes[p].parent == t.nodes[p].parent
      && forall j | 0 <= j < |t.nodes| && j != p :: r.tree.nodes[j] == t.nodes[j]
  {
    assert NodeOk(t, p);
    match Find(t, Children(t, p), name)
    case Some(c) =>
      assert NodeOk(t, c);
      Made(t, c)
    case None =>
      var m := NewGroup(t, name, attrs, Some(p));
      assert m.tree.nodes[p] == t.nodes[p];
      assert forall k | 0 <= k < |Children(t, p)| :: m.tree.nodes[Children(t, p)[k]] == t.nodes[Children(t, p)[k]];
      Made(Enter(m.tree, p, true), m.node)
  }

  /** `NXGroup.dataset(name, values, attrs, params)`: the dataset called
      `name`; when there is none yet, a new one is created from `value`,
      `attrs` and `params` and entered under `p`. */
  function AddDataset(t: Tree, p: nat, name: string, value: Value, attrs: Attrs, params: Params): (r: Made)
    requires Valid(t) && IsGroupAt(t, p)
    ensures Valid(r.tree) && IsGroupAt(r.tree, p)
    ensures IsDatasetAt(r.tree, r.node)
    ensures r.tree.nodes[r.node].name == name && r.tree.nodes[r.node].parent == Some(p)
    ensures r.node in Datasets(r.tree, p)
    // the group's child-group namespace is untouched
    ensures Children(r.tree, p) == Children(t, p)
    // an existing dataset is returned and nothing changes: value, attrs and params are discarded
    ensures HasNamed(t, Datasets(t, p), name) ==> r.tree == t && r.node in Datasets(t, p)
    // otherwise exactly one key is added, holding a new node with the given contents
    ensures !HasNamed(t, Datasets(t, p), name) ==>
      && r.node == |t.nodes|
      && |r.tree.nodes| == |t.nodes| + 1
      && Datasets(r.tree, p) == Datasets(t, p) + [r.node]
      && r.tree.nodes[r.node] == Node(name, attrs, Some(p), DatasetBody(value, params))
      && r.tree.nodes[p].name == t.nodes[p].name
      && r.tree.nodes[p].attrs == t.nodes[p].attrs
      && r.tree.nodes[p].parent == t.nodes[p].parent
      && forall j | 0 <= j < |t.nodes| && j != p :: r.tree.nodes[j] == t.nodes[j]
  {
    assert NodeOk(t, p);
    match Find(t, Datasets(t, p), name)
    case Some(d) =>
      assert NodeOk(t, d);
      Made(t, d)
    case None =>
      var m := NewDataset(t, name, value, attrs, Some(p), params);
      assert m.tree.nodes[p] == t.nodes[p];
      assert forall k | 0 <= k < |Datasets(t, p)| :: m.tree.nodes[Datasets(t, p)[k]] == t.nodes[Datasets(t, p)[k]];
      Made(Enter(m.tree, p, false), m.node)
  }

  /** Asking twice for the same child group yields the same node and the same
      tree; the attributes of the second request never reach the tree. */
  lemma GroupTwice(t: Tree, p: nat, name: string, first: Attrs, second: Attrs)
    requires Valid(t) && IsGroupAt(t, p)
    ensures var m1 := AddGroup(t, p, name, first);
            var m2 := AddGroup(m1.tree, p, name, second);
            m2 == m1 && (!HasNamed(t, Children(t, p), name) ==> m2.tree.nodes[m2.node].attrs == first)
  {
    var m1 := AddGroup(t, p, name, first);
    var cs := Children(m1.tree, p);
    var k :| 0 <= k < |cs| && cs[k] == m1.node;
    assert HasNamed(m1.tree, cs, name);
  }

  /** Asking twice for the same dataset yields the original node: the value,
      attributes and parameters of the second request never reach the tree. */
  lemma DatasetTwice(t: Tree, p: nat, name: string, v1: Value, a1: Attrs, p1: Params,
                     v2: Value, a2: Attrs, p2: Params)
    requires Valid(t) && IsGroupAt(t, p)
    ensures var m1 := AddDataset(t, p, name, v1, a1, p1);
            var m2 := AddDataset(m1.tree, p, name, v2, a2, p2);
            m2 == m1 &&
            (!HasNamed(t, Datasets(t, p), name) ==>
               m2.tree.nodes[m2.node].body == DatasetBody(v1, p1) &&
               m2.tree.nodes[m2.node].attrs == a1)
  {
    var m1 := AddDataset(t, p, name, v1, a1, p1);
    var ds := Datasets(m1.tree, p);
    var k :| 0 <= k < |ds| && ds[k] == m1.node;
    assert HasNamed(m1.tree, ds, name);
  }
}
