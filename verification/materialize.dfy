/**
  The single write pass: `NXGroup.h5` and `NXDataset.h5`
  (create_nxmx/create_nxmx.py, lines 28-36 and 51-67).

  The storage backend is not called: the pass returns the sequence of backend
  operations it would issue, each naming the location it acts on. A handle is
  identified with its location, so the location of a node created under a
  handle is that handle's location, a `/` and the node's name, and a node
  created directly in the file is located at its bare name.
 */
module Writer {
  import opened Wrappers
  import opened Values
  import opened Nodes

  datatype Op =
    | CreateGroup(path: string)
    | SetAttr(path: string, key: string, value: Value)
    | CreateDataset(path: string, shape: seq<nat>, dtype: Option<string>, params: Params)
    | Write(path: string, value: Value)

  /** The failures that stop the pass: `**params` repeating a keyword that
      the call site already passes (a Python TypeError, raised before the
      backend is called), and a dataset whose name is already a link in the
      handle it is created in (the backend's "name already exists"). */
  datatype Fault =
    | KeywordClash(path: string, keywords: set<string>)
    | NameExists(path: string)

  /** The operations issued, and the fault that stopped the pass, if any.
      Nothing issued before a fault is undone. */
  datatype Outcome = Outcome(ops: seq<Op>, fault: Option<Fault>)

  /** Runs `a`, then `b` unless `a` stopped the pass. */
  function Then(a: Outcome, b: Outcome): (r: Outcome)
    ensures a.fault.Some? ==> r == a
    ensures a.fault.None? ==> r.ops == a.ops + b.ops && r.fault == b.fault
  {
    if a.fault.Some? then a else Outcome(a.ops + b.ops, b.fault)
  }

  /** The location of a node called `name` created under the handle at `at`
      (`None`: the file itself). */
  function Under(at: Option<string>, name: string): string {
    match at
    case None => name
    case Some(loc) => loc + "/" + name
  }

  /** `for attr, value in attrs.items(): handle.attrs[attr] = value` */
  function AttrOps(here: string, attrs: Attrs): (ops: seq<Op>)
    ensures |ops| == |attrs|
    ensures forall k | 0 <= k < |attrs| :: ops[k] == SetAttr(here, attrs[k].key, attrs[k].value)
  {
    if |attrs| == 0 then [] else [SetAttr(here, attrs[0].key, attrs[0].value)] + AttrOps(here, attrs[1..])
  }

  /** The dataset's parent holds a child group of the same name. The group and
      dataset dictionaries are separate (lines 8-9), but HDF5 keeps one
      namespace of links per group, and the pass creates every child group
      of the parent before any of its datasets (lines 32-35): by the time the
      dataset is created, the name is taken. */
  predicate NameTaken(t: Tree, d: nat)
    requires d < |t.nodes|
  {
    var n := t.nodes[d];
    n.parent.Some? && n.parent.value < |t.nodes| && t.nodes[n.parent.value].body.GroupBody? &&
    HasNamed(t, t.nodes[n.parent.value].body.children, n.name)
  }

  /** `NXDataset.h5(handle)`: create the dataset with the shape and type its
      value's kind calls for and the parameters passed through, write the value,
      then set the attributes. The handle is the parent's group, as in the
      pass, so a name taken there is a name taken by the parent's child
      group. */
  function DatasetH5(t: Tree, d: nat, at: Option<string>): (o: Outcome)
    requires IsDatasetAt(t, d)
    ensures var n := t.nodes[d];
            var here := Under(at, n.name);
            var clash := Clashes(n.body.value, n.body.params);
            && (o.fault.Some? <==> clash != {} || NameTaken(t, d))
            && (o.fault.Some? ==> o.ops == [])
            && (clash != {} ==> o.fault == Some(KeywordClash(here, clash)))
            && (clash == {} && NameTaken(t, d) ==> o.fault == Some(NameExists(here)))
            && (o.fault.None? ==>
                  && |o.ops| == 2 + |n.attrs|
                  && o.ops[0] == CreateDataset(here, CreationArgs(n.body.value).shape,
                                               CreationArgs(n.body.value).dtype, n.body.params)
                  && o.ops[1] == Write(here, n.body.value)
                  && o.ops[2..] == AttrOps(here, n.attrs))
  {
    var n := t.nodes[d];
    var here := Under(at, n.name);
    var value := n.body.value;
    var params := n.body.params;
    var args := CreationArgs(value);
    var clash := Clashes(value, params);
    if clash != {} then
      Outcome([], Some(KeywordClash(here, clash)))
    else if NameTaken(t, d) then
      Outcome([], Some(NameExists(here)))
    else
      Outcome([CreateDataset(here, args.shape, args.dtype, params), Write(here, value)]
              + AttrOps(here, n.attrs), None)
  }

  /** `NXGroup.h5(handle)`: create the group, set its attributes, write every
      child group in full, then every dataset. */
  function GroupH5(t: Tree, g: nat, at: Option<string>): (o: Outcome)
    requires Valid(t) && IsGroupAt(t, g)
    ensures |o.ops| > 0 && o.ops[0] == CreateGroup(Under(at, t.nodes[g].name))
    ensures |o.ops| > |t.nodes[g].attrs| &&
            o.ops[1..|t.nodes[g].attrs| + 1] == AttrOps(Under(at, t.nodes[g].name), t.nodes[g].attrs)
    decreases |t.nodes| - g, 1, 0
  {
    assert NodeOk(t, g);
    var here := Under(at, t.nodes[g].name);
    var head := [CreateGroup(here)] + AttrOps(here, t.nodes[g].attrs);
    var r := Then(Outcome(head, None),
                  Then(ChildrenH5(t, g, Children(t, g), here), DatasetsH5(t, g, Datasets(t, g), here)));
    assert r.ops[..|head|] == head;
    r
  }

  /** `for name, child in children.items(): child.h5(group)` */
  function ChildrenH5(t: Tree, g: nat, cs: seq<nat>, here: string): Outcome
    requires Valid(t) && IsGroupAt(t, g) && MembersOf(t, g, cs, true)
    decreases |t.nodes| - g, 0, |cs|
  {
    if |cs| == 0 then Outcome([], None)
    else
      assert NodeOk(t, cs[0]);
      Then(GroupH5(t, cs[0], Some(here)), ChildrenH5(t, g, cs[1..], here))
  }

  /** `for name, dataset in datasets.items(): dataset.h5(group)` */
  function DatasetsH5(t: Tree, g: nat, ds: seq<nat>, here: string): Outcome
    requires MembersOf(t, g, ds, false)
  {
    if |ds| == 0 then Outcome([], None)
    else Then(DatasetH5(t, ds[0], Some(here)), DatasetsH5(t, g, ds[1..], here))
  }

  /** `root.h5(file)` for a group: the whole pass. */
  function Materialize(t: Tree, root: nat): Outcome
    requires Valid(t) && IsGroupAt(t, root)
  {
    GroupH5(t, root, None)
  }
}
