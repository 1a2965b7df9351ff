/**
  Path derivation: `NXGroup.path` and `NXDataset.path`
  (create_nxmx/create_nxmx.py, lines 23-26 and 46-49).
 */
module Paths {
  import opened Wrappers
  import opened Values
  import opened Nodes

  /** `'%s/%s' % (parent.path(), name)` for a node with a parent, its bare
      name for a root. The parent is read from the tree at call time. */
  function Path(t: Tree, i: nat): string
    requires Valid(t) && i < |t.nodes|
    decreases i
  {
    assert NodeOk(t, i);
    match t.nodes[i].parent
    case None => t.nodes[i].name
    case Some(p) => Path(t, p) + "/" + t.nodes[i].name
  }

  /** The names of the node's ancestors, root first, ending with its own. */
  function NameChain(t: Tree, i: nat): (names: seq<string>)
    requires Valid(t) && i < |t.nodes|
    ensures |names| > 0 && names[|names| - 1] == t.nodes[i].name
    decreases i
  {
    assert NodeOk(t, i);
    match t.nodes[i].parent
    case None => [t.nodes[i].name]
    case Some(p) => NameChain(t, p) + [t.nodes[i].name]
  }

  /** The number of ancestors of a node. */
  function Depth(t: Tree, i: nat): nat
    requires Valid(t) && i < |t.nodes|
    decreases i
  {
    assert NodeOk(t, i);
    match t.nodes[i].parent
    case None => 0
    case Some(p) => Depth(t, p) + 1
  }

  lemma {:induction false} ChainLength(t: Tree, i: nat)
    requires Valid(t) && i < |t.nodes|
    ensures |NameChain(t, i)| == Depth(t, i) + 1
    decreases i
  {
    assert NodeOk(t, i);
    match t.nodes[i].parent
    case None =>
    case Some(p) => ChainLength(t, p);
  }

  // ---------------------------------------------------------------------------
  // joining and splitting on the separator

  /** The names separated by `/`. */
  function Join(names: seq<string>): string {
    if |names| == 0 then ""
    else if |names| == 1 then names[0]
    else names[0] + "/" + Join(names[1..])
  }

  /** The index of the first `/` in `s`, or `|s|` when there is none. */
  function FirstSlash(s: string): (k: nat)
    ensures k <= |s|
    ensures forall j | 0 <= j < k :: s[j] != '/'
    ensures k < |s| ==> s[k] == '/'
  {
    if |s| == 0 then 0
    else if s[0] == '/' then 0
    else 1 + FirstSlash(s[1..])
  }

  /** The pieces of `s` between separators. */
  function Split(s: string): (pieces: seq<string>)
    ensures |pieces| > 0
    decreases |s|
  {
    var k := FirstSlash(s);
    if k == |s| then [s] else [s[..k]] + Split(s[k + 1..])
  }

  predicate SlashFree(s: string) {
    forall j | 0 <= j < |s| :: s[j] != '/'
  }

  predicate AllSlashFree(names: seq<string>) {
    forall k | 0 <= k < |names| :: SlashFree(names[k])
  }

  /** The number of separators in `s`. */
  function Slashes(s: string): nat {
    if |s| == 0 then 0
    else (if s[0] == '/' then 1 else 0) + Slashes(s[1..])
  }

  lemma {:induction false} SlashesAppend(a: string, b: string)
    ensures Slashes(a + b) == Slashes(a) + Slashes(b)
    decreases |a|
  {
    if |a| == 0 {
      assert a + b == b;
    } else {
      assert (a + b)[1..] == a[1..] + b;
      SlashesAppend(a[1..], b);
    }
  }

  lemma {:induction false} SlashFreeHasNoSlashes(s: string)
    requires SlashFree(s)
    ensures Slashes(s) == 0
    decreases |s|
  {
    if |s| > 0 {
      SlashFreeHasNoSlashes(s[1..]);
    }
  }

  lemma {:induction false} JoinSnoc(names: seq<string>, last: string)
    requires |names| > 0
    ensures Join(names + [last]) == Join(names) + "/" + last
    decreases |names|
  {
    if |names| == 1 {
      assert names + [last] == [names[0], last];
      assert [names[0], last][1..] == [last];
    } else {
      assert (names + [last])[1..] == names[1..] + [last];
      JoinSnoc(names[1..], last);
    }
  }

  lemma {:induction false} SplitJoin(names: seq<string>)
    requires |names| > 0 && AllSlashFree(names)
    ensures Split(Join(names)) == names
    decreases |names|
  {
    var x := names[0];
    assert SlashFree(x);
    if |names| == 1 {
      assert FirstSlash(x) == |x|;
    } else {
      var s := Join(names);
      var rest := Join(names[1..]);
      assert s == x + "/" + rest;
      FirstSlashAfter(x, rest);
      assert s[..|x|] == x;
      assert s[|x| + 1..] == rest;
      SplitJoin(names[1..]);
    }
  }

  lemma {:induction false} FirstSlashAfter(x: string, rest: string)
    requires SlashFree(x)
    ensures FirstSlash(x + "/" + rest) == |x|
    decreases |x|
  {
    if |x| > 0 {
      assert (x + "/" + rest)[1..] == x[1..] + "/" + rest;
      FirstSlashAfter(x[1..], rest);
    }
  }

  /** The index of the last `/` in `s`, or -1 when there is none. */
  function LastSlash(s: string): (k: int)
    ensures -1 <= k < |s|
  {
    if |s| == 0 then -1
    else if s[|s| - 1] == '/' then |s| - 1
    else LastSlash(s[..|s| - 1])
  }

  lemma {:induction false} LastSlashBefore(a: string, n: string)
    requires SlashFree(n)
    ensures LastSlash(a + "/" + n) == |a|
    decreases |n|
  {
    var s := a + "/" + n;
    if |n| > 0 {
      assert s[|s| - 1] == n[|n| - 1];
      assert s[..|s| - 1] == a + "/" + n[..|n| - 1];
      LastSlashBefore(a, n[..|n| - 1]);
    }
  }

  /** The part after the last separator is determined: two joins of
      slash-free last names agree only when both halves do. */
  lemma LastSeparatorUnique(a: string, n: string, b: string, m: string)
    requires SlashFree(n) && SlashFree(m) && a + "/" + n == b + "/" + m
    ensures n == m && a == b
  {
    var s := a + "/" + n;
    LastSlashBefore(a, n);
    LastSlashBefore(b, m);
    assert n == s[|a| + 1..];
    assert m == s[|b| + 1..];
    assert a == s[..|a|];
    assert b == s[..|b|];
  }

  /** A node with a parent has a separator in its path; a root whose name is
      slash-free has none. */
  lemma ChildPathHasSlash(t: Tree, i: nat)
    requires Valid(t) && i < |t.nodes| && t.nodes[i].parent.Some?
    ensures !SlashFree(Path(t, i))
  {
    assert NodeOk(t, i);
    var p := t.nodes[i].parent.value;
    assert Path(t, i)[|Path(t, p)|] == '/';
  }

  // ---------------------------------------------------------------------------
  // what a path is

  /** A path is the node's name chain joined by `/`. */
  lemma {:induction false} PathIsJoinedChain(t: Tree, i: nat)
    requires Valid(t) && i < |t.nodes|
    ensures Path(t, i) == Join(NameChain(t, i))
    decreases i
  {
    assert NodeOk(t, i);
    match t.nodes[i].parent
    case None =>
    case Some(p) =>
      PathIsJoinedChain(t, p);
      JoinSnoc(NameChain(t, p), t.nodes[i].name);
  }

  /** When no name on the chain contains `/`, splitting a path recovers the
      names of the node's ancestors and its own, in order. */
  lemma PathSplitsIntoChain(t: Tree, i: nat)
    requires Valid(t) && i < |t.nodes|
    requires AllSlashFree(NameChain(t, i))
    ensures Split(Path(t, i)) == NameChain(t, i)
  {
    PathIsJoinedChain(t, i);
    SplitJoin(NameChain(t, i));
  }

  /** When no name on the chain contains `/`, a path holds exactly one
      separator per ancestor. */
  lemma {:induction false} PathSlashCount(t: Tree, i: nat)
    requires Valid(t) && i < |t.nodes|
    requires AllSlashFree(NameChain(t, i))
    ensures Slashes(Path(t, i)) == Depth(t, i)
    decreases i
  {
    assert NodeOk(t, i);
    var chain := NameChain(t, i);
    var name := t.nodes[i].name;
    assert SlashFree(name) by {
      assert chain[|chain| - 1] == name;
    }
    SlashFreeHasNoSlashes(name);
    match t.nodes[i].parent
    case None =>
    case Some(p) =>
      assert AllSlashFree(NameChain(t, p)) by {
        assert forall k | 0 <= k < |NameChain(t, p)| :: NameChain(t, p)[k] == chain[k];
      }
      PathSlashCount(t, p);
      SlashesAppend(Path(t, p), "/");
      SlashesAppend(Path(t, p) + "/", name);
  }

  // ---------------------------------------------------------------------------
  // paths under construction

  /** A tree whose first nodes keep their names and parents gives those nodes
      the same paths. */
  lemma {:induction false} PathsKept(t: Tree, r: Tree, i: nat)
    requires Valid(t) && Valid(r) && i < |t.nodes| <= |r.nodes|
    requires forall j | 0 <= j < |t.nodes| ::
      r.nodes[j].name == t.nodes[j].name && r.nodes[j].parent == t.nodes[j].parent
    ensures Path(r, i) == Path(t, i)
    decreases i
  {
    assert NodeOk(t, i);
    match t.nodes[i].parent
    case None =>
    case Some(p) => PathsKept(t, r, p);
  }

  /** `group(name)` on `p` yields a node whose path is `p`'s path, a `/` and
      `name`, whether the group was created or already there; every earlier
      node keeps its path. */
  lemma AddGroupPath(t: Tree, p: nat, name: string, attrs: Attrs)
    requires Valid(t) && IsGroupAt(t, p)
    ensures var m := AddGroup(t, p, name, attrs);
            && Path(m.tree, m.node) == Path(t, p) + "/" + name
            && forall j | 0 <= j < |t.nodes| :: Path(m.tree, j) == Path(t, j)
  {
    var m := AddGroup(t, p, name, attrs);
    forall j | 0 <= j < |t.nodes| ensures Path(m.tree, j) == Path(t, j) {
      PathsKept(t, m.tree, j);
    }
  }

  /** `dataset(name, ...)` on `p` yields a node whose path is `p`'s path, a
      `/` and `name`; every earlier node keeps its path. */
  lemma AddDatasetPath(t: Tree, p: nat, name: string, value: Value, attrs: Attrs, params: Params)
    requires Valid(t) && IsGroupAt(t, p)
    ensures var m := AddDataset(t, p, name, value, attrs, params);
            && Path(m.tree, m.node) == Path(t, p) + "/" + name
            && forall j | 0 <= j < |t.nodes| :: Path(m.tree, j) == Path(t, j)
  {
    var m := AddDataset(t, p, name, value, attrs, params);
    forall j | 0 <= j < |t.nodes| ensures Path(m.tree, j) == Path(t, j) {
      PathsKept(t, m.tree, j);
    }
  }

  /** A node built without a parent is a root: its path is its own name. */
  lemma RootPath(t: Tree, name: string, attrs: Attrs)
    requires Valid(t)
    ensures var m := NewGroup(t, name, attrs, None);
            Path(m.tree, m.node) == name && Depth(m.tree, m.node) == 0
  {
  }
}
