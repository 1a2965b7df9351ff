/**
  The order in which the write pass visits a group's subtree, and which nodes
  that subtree holds (create_nxmx/create_nxmx.py, lines 28-36).

  `Order` lists the nodes in the order `NXGroup.h5` reaches them: the group,
  the whole subtree of each child group in insertion order, then the group's
  datasets. `Within` says, from parent references alone, that a node hangs
  below a group through members entered with `group`/`dataset`.
 */
module Traversal {
  import opened Wrappers
  import opened Nodes

  function Order(t: Tree, g: nat): (o: seq<nat>)
    requires Valid(t) && IsGroupAt(t, g)
    ensures |o| > 0 && o[0] == g
    ensures forall k | 0 <= k < |o| :: g <= o[k] < |t.nodes|
    decreases |t.nodes| - g, 1, 0
  {
    assert NodeOk(t, g);
    var ds := Datasets(t, g);
    assert forall k | 0 <= k < |ds| :: NodeOk(t, ds[k]);
    [g] + OrderAll(t, g, Children(t, g)) + ds
  }

  function OrderAll(t: Tree, g: nat, cs: seq<nat>): (o: seq<nat>)
    requires Valid(t) && IsGroupAt(t, g) && MembersOf(t, g, cs, true)
    ensures forall k | 0 <= k < |o| :: g < o[k] < |t.nodes|
    decreases |t.nodes| - g, 0, |cs|
  {
    if |cs| == 0 then []
    else
      assert NodeOk(t, cs[0]);
      Order(t, cs[0]) + OrderAll(t, g, cs[1..])
  }

  /** The node has a parent, and is entered among that parent's members. */
  predicate Attached(t: Tree, j: nat)
    requires j < |t.nodes|
  {
    var n := t.nodes[j];
    n.parent.Some? && IsGroupAt(t, n.parent.value) &&
    j in (if n.body.GroupBody? then Children(t, n.parent.value) else Datasets(t, n.parent.value))
  }

  /** `j` is `i` or hangs below it through attached members. */
  predicate Within(t: Tree, i: nat, j: nat)
    requires Valid(t) && i < |t.nodes| && j < |t.nodes|
    decreases j
  {
    assert NodeOk(t, j);
    i == j || (Attached(t, j) && Within(t, i, t.nodes[j].parent.value))
  }

  predicate NoDup(s: seq<nat>) {
    forall a, b | 0 <= a < b < |s| :: s[a] != s[b]
  }

  // ---------------------------------------------------------------------------
  // facts about Within

  lemma {:induction false} WithinBelow(t: Tree, i: nat, j: nat)
    requires Valid(t) && i < |t.nodes| && j < |t.nodes|
    requires Within(t, i, j)
    ensures i <= j
    decreases j
  {
    assert NodeOk(t, j);
    if i != j {
      WithinBelow(t, i, t.nodes[j].parent.value);
    }
  }

  lemma {:induction false} WithinTrans(t: Tree, a: nat, b: nat, c: nat)
    requires Valid(t) && a < |t.nodes| && b < |t.nodes| && c < |t.nodes|
    requires Within(t, a, b) && Within(t, b, c)
    ensures Within(t, a, c)
    decreases c
  {
    assert NodeOk(t, c);
    if b != c {
      WithinTrans(t, a, b, t.nodes[c].parent.value);
    }
  }

  /** Two nodes above a common node lie on one line: one is below the other. */
  lemma {:induction false} WithinLine(t: Tree, a: nat, b: nat, x: nat)
    requires Valid(t) && a < |t.nodes| && b < |t.nodes| && x < |t.nodes|
    requires Within(t, a, x) && Within(t, b, x)
    ensures Within(t, a, b) || Within(t, b, a)
    decreases x
  {
    assert NodeOk(t, x);
    if a != x && b != x {
      WithinLine(t, a, b, t.nodes[x].parent.value);
    }
  }

  /** Two different members of one group have no common node below them. */
  lemma SiblingsDisjoint(t: Tree, g: nat, c1: nat, c2: nat, x: nat)
    requires Valid(t) && IsGroupAt(t, g) && c1 < |t.nodes| && c2 < |t.nodes| && x < |t.nodes|
    requires c1 != c2 && t.nodes[c1].parent == Some(g) && t.nodes[c2].parent == Some(g)
    requires Attached(t, c1) && Attached(t, c2)
    ensures !(Within(t, c1, x) && Within(t, c2, x))
  {
    assert NodeOk(t, c1);
    assert NodeOk(t, c2);
    if Within(t, c1, x) && Within(t, c2, x) {
      WithinLine(t, c1, c2, x);
      if Within(t, c1, c2) {
        assert Within(t, c1, g);
        WithinBelow(t, c1, g);
      } else {
        assert Within(t, c2, g);
        WithinBelow(t, c2, g);
      }
    }
  }

  lemma MemberAttached(t: Tree, g: nat, c: nat)
    requires Valid(t) && IsGroupAt(t, g)
    requires c in Children(t, g) || c in Datasets(t, g)
    ensures c < |t.nodes| && Attached(t, c) && t.nodes[c].parent == Some(g)
    ensures Within(t, g, c)
  {
    assert NodeOk(t, g);
    var cs := Children(t, g);
    var ds := Datasets(t, g);
    if c in cs {
      var k :| 0 <= k < |cs| && cs[k] == c;
    } else {
      var k :| 0 <= k < |ds| && ds[k] == c;
    }
  }

  // ---------------------------------------------------------------------------
  // Order lists exactly the subtree

  lemma {:induction false} OrderAllMember(t: Tree, g: nat, cs: seq<nat>, x: nat)
    requires Valid(t) && IsGroupAt(t, g) && MembersOf(t, g, cs, true)
    requires x in OrderAll(t, g, cs)
    ensures exists k | 0 <= k < |cs| :: x in Order(t, cs[k])
    decreases |cs|
  {
    assert NodeOk(t, cs[0]);
    if x !in Order(t, cs[0]) {
      OrderAllMember(t, g, cs[1..], x);
      var k :| 0 <= k < |cs[1..]| && x in Order(t, cs[1..][k]);
      assert cs[k + 1] == cs[1..][k];
    }
  }

  lemma {:induction false} OrderAllHas(t: Tree, g: nat, cs: seq<nat>, k: nat, x: nat)
    requires Valid(t) && IsGroupAt(t, g) && MembersOf(t, g, cs, true)
    requires k < |cs| && (assert NodeOk(t, cs[k]); x in Order(t, cs[k]))
    ensures x in OrderAll(t, g, cs)
    decreases k
  {
    assert NodeOk(t, cs[0]);
    if k > 0 {
      assert cs[1..][k - 1] == cs[k];
      OrderAllHas(t, g, cs[1..], k - 1, x);
    }
  }

  /** Every node the pass visits from `g` hangs below `g`. */
  lemma {:induction false} OrderSound(t: Tree, g: nat, x: nat)
    requires Valid(t) && IsGroupAt(t, g) && x in Order(t, g)
    ensures x < |t.nodes| && Within(t, g, x)
    decreases |t.nodes| - g
  {
    assert NodeOk(t, g);
    var cs := Children(t, g);
    if x != g {
      if x in OrderAll(t, g, cs) {
        OrderAllMember(t, g, cs, x);
        var k :| 0 <= k < |cs| && x in Order(t, cs[k]);
        assert NodeOk(t, cs[k]);
        MemberAttached(t, g, cs[k]);
        OrderSound(t, cs[k], x);
        WithinTrans(t, g, cs[k], x);
      } else {
        assert x in Datasets(t, g);
        MemberAttached(t, g, x);
      }
    }
  }

  /** A group visited from `g` has its whole visit inside `g`'s. */
  lemma {:induction false} OrderNested(t: Tree, g: nat, p: nat, x: nat)
    requires Valid(t) && IsGroupAt(t, g) && IsGroupAt(t, p)
    requires p in Order(t, g) && x in Order(t, p)
    ensures x in Order(t, g)
    decreases |t.nodes| - g
  {
    assert NodeOk(t, g);
    var cs := Children(t, g);
    if p != g {
      if p in OrderAll(t, g, cs) {
        OrderAllMember(t, g, cs, p);
        var k :| 0 <= k < |cs| && p in Order(t, cs[k]);
        assert NodeOk(t, cs[k]);
        OrderNested(t, cs[k], p, x);
        OrderAllHas(t, g, cs, k, x);
      } else {
        assert false;
      }
    }
  }

  /** Every node hanging below `g` is visited from `g`. */
  lemma {:induction false} OrderComplete(t: Tree, g: nat, x: nat)
    requires Valid(t) && IsGroupAt(t, g) && x < |t.nodes| && Within(t, g, x)
    ensures x in Order(t, g)
    decreases x
  {
    assert NodeOk(t, x);
    if x != g {
      var p := t.nodes[x].parent.value;
      OrderComplete(t, g, p);
      assert NodeOk(t, p);
      var cs := Children(t, p);
      if x in cs {
        var k :| 0 <= k < |cs| && cs[k] == x;
        assert NodeOk(t, x);
        OrderAllHas(t, p, cs, k, x);
      }
      OrderNested(t, g, p, x);
    }
  }

  // ---------------------------------------------------------------------------
  // Order visits every node once

  lemma NoDupAppend(a: seq<nat>, b: seq<nat>)
    requires NoDup(a) && NoDup(b)
    requires forall x | x in a :: x !in b
    ensures NoDup(a + b)
  {
    forall i, j | 0 <= i < j < |a + b| ensures (a + b)[i] != (a + b)[j] {
      if i < |a| && j >= |a| {
        assert (a + b)[i] in a && (a + b)[j] in b;
      }
    }
  }

  lemma DistinctMembers(t: Tree, g: nat, cs: seq<nat>, groups: bool)
    requires MembersOf(t, g, cs, groups) && DistinctNames(t, cs)
    ensures NoDup(cs)
  {
  }

  lemma {:induction false} OrderNoDup(t: Tree, g: nat)
    requires Valid(t) && IsGroupAt(t, g)
    ensures NoDup(Order(t, g))
    decreases |t.nodes| - g, 1, 0
  {
    assert NodeOk(t, g);
    var cs := Children(t, g);
    var ds := Datasets(t, g);
    var oa := OrderAll(t, g, cs);
    DistinctMembers(t, g, cs, true);
    DistinctMembers(t, g, ds, false);
    OrderAllNoDup(t, g, cs);
    assert forall k | 0 <= k < |ds| :: NodeOk(t, ds[k]);
    forall x | x in oa ensures x !in ds {
      if x in ds {
        OrderAllMember(t, g, cs, x);
        var k :| 0 <= k < |cs| && x in Order(t, cs[k]);
        assert NodeOk(t, cs[k]);
        OrderSound(t, cs[k], x);
        MemberAttached(t, g, x);
        assert Within(t, cs[k], g);
        WithinBelow(t, cs[k], g);
      }
    }
    NoDupAppend(oa, ds);
    NoDupAppend([g], oa + ds);
    assert Order(t, g) == [g] + (oa + ds);
  }

  lemma {:induction false} OrderAllNoDup(t: Tree, g: nat, cs: seq<nat>)
    requires Valid(t) && IsGroupAt(t, g) && MembersOf(t, g, cs, true)
    requires NoDup(cs) && forall k | 0 <= k < |cs| :: cs[k] in Children(t, g)
    ensures NoDup(OrderAll(t, g, cs))
    decreases |t.nodes| - g, 0, |cs|
  {
    if |cs| > 0 {
      var c := cs[0];
      assert NodeOk(t, c);
      var rest := cs[1..];
      OrderNoDup(t, c);
      OrderAllNoDup(t, g, rest);
      forall x | x in Order(t, c) ensures x !in OrderAll(t, g, rest) {
        if x in OrderAll(t, g, rest) {
          OrderAllMember(t, g, rest, x);
          var k :| 0 <= k < |rest| && x in Order(t, rest[k]);
          assert rest[k] == cs[k + 1] && rest[k] != c;
          assert NodeOk(t, rest[k]);
          OrderSound(t, c, x);
          OrderSound(t, rest[k], x);
          MemberAttached(t, g, c);
          MemberAttached(t, g, rest[k]);
          SiblingsDisjoint(t, g, c, rest[k], x);
        }
      }
      NoDupAppend(Order(t, c), OrderAll(t, g, rest));
    }
  }

  /** The nodes hanging below `g`, `g` included. */
  function Subtree(t: Tree, g: nat): set<nat>
    requires Valid(t) && g < |t.nodes|
  {
    set x | 0 <= x < |t.nodes| && Within(t, g, x)
  }

  function Elems(s: seq<nat>): set<nat> {
    set x | x in s
  }

  lemma {:induction false} NoDupCard(s: seq<nat>)
    requires NoDup(s)
    ensures |Elems(s)| == |s|
    decreases |s|
  {
    if |s| > 0 {
      assert Elems(s) == {s[0]} + Elems(s[1..]);
      assert s[0] !in Elems(s[1..]);
      NoDupCard(s[1..]);
    }
  }

  /** The pass from `g` visits exactly the nodes below `g`, each once. */
  lemma OrderIsSubtree(t: Tree, g: nat)
    requires Valid(t) && IsGroupAt(t, g)
    ensures Elems(Order(t, g)) == Subtree(t, g)
    ensures NoDup(Order(t, g))
    ensures |Order(t, g)| == |Subtree(t, g)|
  {
    forall x | x in Order(t, g) ensures x in Subtree(t, g) {
      OrderSound(t, g, x);
    }
    forall x | x in Subtree(t, g) ensures x in Order(t, g) {
      OrderComplete(t, g, x);
    }
    OrderNoDup(t, g);
    NoDupCard(Order(t, g));
  }

  // ---------------------------------------------------------------------------
  // the order of the visit

  /** Every node of `s` has a parent that appears in `pre` or earlier in `s`. */
  predicate ParentsEarlier(t: Tree, s: seq<nat>, pre: seq<nat>) {
    forall a | 0 <= a < |s| ::
      s[a] < |t.nodes| && t.nodes[s[a]].parent.Some? && t.nodes[s[a]].parent.value in pre + s[..a]
  }

  lemma ParentsEarlierAppend(t: Tree, s1: seq<nat>, s2: seq<nat>, pre: seq<nat>)
    requires ParentsEarlier(t, s1, pre) && ParentsEarlier(t, s2, pre + s1)
    ensures ParentsEarlier(t, s1 + s2, pre)
  {
    var s := s1 + s2;
    forall a | 0 <= a < |s|
      ensures s[a] < |t.nodes| && t.nodes[s[a]].parent.Some? && t.nodes[s[a]].parent.value in pre + s[..a]
    {
      if a < |s1| {
        assert s[..a] == s1[..a];
        assert s[a] == s1[a];
      } else {
        var b := a - |s1|;
        assert s[a] == s2[b];
        assert pre + s[..a] == (pre + s1) + s2[..b];
      }
    }
  }

  lemma ParentsEarlierWiden(t: Tree, s: seq<nat>, pre: seq<nat>, pre': seq<nat>)
    requires ParentsEarlier(t, s, pre)
    requires forall x | x in pre :: x in pre'
    ensures ParentsEarlier(t, s, pre')
  {
    forall a | 0 <= a < |s| ensures t.nodes[s[a]].parent.value in pre' + s[..a] {
      var p := t.nodes[s[a]].parent.value;
      assert p in pre + s[..a];
      if p in pre {
        assert p in pre';
      } else {
        assert p in s[..a];
      }
    }
  }

  /** After the group itself, every node of its visit has its parent visited
      earlier. */
  lemma {:induction false} OrderTailParentsEarlier(t: Tree, g: nat)
    requires Valid(t) && IsGroupAt(t, g)
    ensures ParentsEarlier(t, Order(t, g)[1..], [g])
    decreases |t.nodes| - g, 1, 0
  {
    assert NodeOk(t, g);
    var cs := Children(t, g);
    var ds := Datasets(t, g);
    var oa := OrderAll(t, g, cs);
    OrderAllParentsEarlier(t, g, cs, [g]);
    forall a | 0 <= a < |ds|
      ensures ds[a] < |t.nodes| && t.nodes[ds[a]].parent.Some? && t.nodes[ds[a]].parent.value in ([g] + oa) + ds[..a]
    {
      assert (([g] + oa) + ds[..a])[0] == g;
    }
    ParentsEarlierAppend(t, oa, ds, [g]);
    assert Order(t, g)[1..] == oa + ds;
  }

  lemma {:induction false} OrderAllParentsEarlier(t: Tree, g: nat, cs: seq<nat>, pre: seq<nat>)
    requires Valid(t) && IsGroupAt(t, g) && MembersOf(t, g, cs, true) && g in pre
    ensures ParentsEarlier(t, OrderAll(t, g, cs), pre)
    decreases |t.nodes| - g, 0, |cs|
  {
    if |cs| > 0 {
      var c := cs[0];
      assert NodeOk(t, c);
      var oc := Order(t, c);
      OrderTailParentsEarlier(t, c);
      ParentsEarlierWiden(t, oc[1..], [c], pre + [c]);
      assert ParentsEarlier(t, [c], pre);
      ParentsEarlierAppend(t, [c], oc[1..], pre);
      assert [c] + oc[1..] == oc;
      OrderAllParentsEarlier(t, g, cs[1..], pre + oc);
      ParentsEarlierAppend(t, oc, OrderAll(t, g, cs[1..]), pre);
    }
  }

  /** The pass reaches every node after its parent: each node visited after
      `g` has its parent among the nodes visited before it. */
  lemma OrderParentsFirst(t: Tree, g: nat)
    requires Valid(t) && IsGroupAt(t, g)
    ensures var o := Order(t, g);
      forall a | 0 < a < |o| :: t.nodes[o[a]].parent.Some? && t.nodes[o[a]].parent.value in o[..a]
  {
    var o := Order(t, g);
    OrderTailParentsEarlier(t, g);
    forall a | 0 < a < |o| ensures t.nodes[o[a]].parent.Some? && t.nodes[o[a]].parent.value in o[..a] {
      assert o[a] == o[1..][a - 1];
      assert [g] + o[1..][..a - 1] == o[..a];
    }
  }

  /** `s` occurs in `u` as the run starting at `a`. */
  predicate InfixAt<T(==)>(s: seq<T>, u: seq<T>, a: nat) {
    a + |s| <= |u| && u[a..a + |s|] == s
  }

  /** `s` occurs as a contiguous run of `u`. */
  ghost predicate Infix<T>(s: seq<T>, u: seq<T>) {
    exists a: nat :: InfixAt(s, u, a)
  }

  lemma InfixTrans<T>(s: seq<T>, u: seq<T>, v: seq<T>)
    requires Infix(s, u) && Infix(u, v)
    ensures Infix(s, v)
  {
    var a: nat :| InfixAt(s, u, a);
    var b: nat :| InfixAt(u, v, b);
    forall i | 0 <= i < |s| ensures v[b + a..b + a + |s|][i] == s[i] {
      assert s[i] == u[a + i] == v[b + a + i];
    }
    assert InfixAt(s, v, b + a);
  }

  lemma InfixAppend<T>(s: seq<T>, x: seq<T>, y: seq<T>)
    ensures Infix(s, x) ==> Infix(s, x + y)
    ensures Infix(s, y) ==> Infix(s, x + y)
  {
    if Infix(s, x) {
      var a: nat :| InfixAt(s, x, a);
      assert (x + y)[a..a + |s|] == x[a..a + |s|];
      assert InfixAt(s, x + y, a);
    }
    if Infix(s, y) {
      var a: nat :| InfixAt(s, y, a);
      assert (x + y)[|x| + a..|x| + a + |s|] == y[a..a + |s|];
      assert InfixAt(s, x + y, |x| + a);
    }
  }

  lemma InfixSelf<T>(s: seq<T>)
    ensures Infix(s, s)
  {
    assert s[0..|s|] == s;
    assert InfixAt(s, s, 0);
  }

  lemma {:induction false} ChildVisitInfix(t: Tree, g: nat, cs: seq<nat>, k: nat)
    requires Valid(t) && IsGroupAt(t, g) && MembersOf(t, g, cs, true) && k < |cs|
    ensures IsGroupAt(t, cs[k]) && Infix(Order(t, cs[k]), OrderAll(t, g, cs))
    decreases k
  {
    assert NodeOk(t, cs[0]);
    var rest := OrderAll(t, g, cs[1..]);
    if k == 0 {
      InfixSelf(Order(t, cs[0]));
      InfixAppend(Order(t, cs[0]), Order(t, cs[0]), rest);
    } else {
      assert cs[1..][k - 1] == cs[k];
      ChildVisitInfix(t, g, cs[1..], k - 1);
      InfixAppend(Order(t, cs[k]), Order(t, cs[0]), rest);
    }
  }

  /** The child groups' visits form a contiguous run of the group's visit. */
  lemma ChildrenVisitInfix(t: Tree, g: nat)
    requires Valid(t) && IsGroupAt(t, g)
    ensures assert NodeOk(t, g); Infix(OrderAll(t, g, Children(t, g)), Order(t, g))
  {
    assert NodeOk(t, g);
    var oa := OrderAll(t, g, Children(t, g));
    InfixSelf(oa);
    InfixAppend(oa, [g], oa);
    InfixAppend(oa, [g] + oa, Datasets(t, g));
  }

  /** The visit of any group below `g` is one contiguous run of `g`'s visit
      (which, by `Order`, is that group, then its child groups' visits, then its
      datasets). */
  lemma {:induction false} OrderSegment(t: Tree, g: nat, h: nat)
    requires Valid(t) && IsGroupAt(t, g) && IsGroupAt(t, h) && Within(t, g, h)
    ensures Infix(Order(t, h), Order(t, g))
    decreases |t.nodes| - g
  {
    if h == g {
      InfixSelf(Order(t, g));
    } else {
      assert NodeOk(t, g);
      var cs := Children(t, g);
      OrderComplete(t, g, h);
      if h in OrderAll(t, g, cs) {
        OrderAllMember(t, g, cs, h);
        var k :| 0 <= k < |cs| && h in Order(t, cs[k]);
        ChildVisitInfix(t, g, cs, k);
        OrderSound(t, cs[k], h);
        OrderSegment(t, cs[k], h);
        ChildrenVisitInfix(t, g);
        InfixTrans(Order(t, cs[k]), OrderAll(t, g, cs), Order(t, g));
        InfixTrans(Order(t, h), Order(t, cs[k]), Order(t, g));
      } else {
        assert false;
      }
    }
  }
}
