/**
  Concrete uses of the engine, after the calls `main` makes
  (create_nxmx/create_nxmx.py, lines 69-147): small trees built through the
  operations, cut down to a few nodes, and the operations their write pass
  issues.
 */
module Scenarios {
  import opened Wrappers
  import opened Values
  import opened Nodes
  import opened Paths
  import opened Writer

  function NxClass(c: string): Attrs {
    [Attr("NX_class", Str(c))]
  }

  /** `entry`, its child group `instrument`, and a dataset `two_theta`
      (value 0.0, `depends_on` ".") placed directly in `instrument`, built
      through the get-or-create calls. */
  function EntryTree(): (m: Made)
    ensures Valid(m.tree) && IsDatasetAt(m.tree, m.node)
  {
    var e := NewGroup(Tree([]), "entry", NxClass("NXentry"), None);
    var i := AddGroup(e.tree, e.node, "instrument", NxClass("NXinstrument"));
    AddDataset(i.tree, i.node, "two_theta", Float(0.0), [Attr("depends_on", Str("."))], map[])
  }

  /** The tree above is the three expected nodes, linked as expected. */
  lemma EntryTreeShape()
    ensures EntryTree().tree == Tree([
      Node("entry", NxClass("NXentry"), None, GroupBody([1], [])),
      Node("instrument", NxClass("NXinstrument"), Some(0), GroupBody([], [2])),
      Node("two_theta", [Attr("depends_on", Str("."))], Some(1), DatasetBody(Float(0.0), map[]))])
    ensures EntryTree().node == 2
  {
    var entry := Node("entry", NxClass("NXentry"), None, GroupBody([], []));
    var instrument := Node("instrument", NxClass("NXinstrument"), Some(0), GroupBody([], []));
    var e := NewGroup(Tree([]), "entry", NxClass("NXentry"), None);
    assert e.tree == Tree([entry]) && e.node == 0;
    assert !HasNamed(e.tree, Children(e.tree, e.node), "instrument");
    var i := AddGroup(e.tree, e.node, "instrument", NxClass("NXinstrument"));
    assert i.node == 1 && i.tree.nodes[1] == instrument;
    assert i.tree.nodes[0] == entry.(body := GroupBody([1], []));
    assert i.tree == Tree([entry.(body := GroupBody([1], [])), instrument]);
    assert !HasNamed(i.tree, Datasets(i.tree, i.node), "two_theta");
    var d := AddDataset(i.tree, i.node, "two_theta", Float(0.0), [Attr("depends_on", Str("."))], map[]);
    assert d.node == 2;
    assert d.tree.nodes[0] == entry.(body := GroupBody([1], []));
    assert d.tree.nodes[1] == instrument.(body := GroupBody([], [2]));
  }

  /** The three nodes of `EntryTree`, written out. */
  function EntryNodes(): Tree {
    Tree([
      Node("entry", NxClass("NXentry"), None, GroupBody([1], [])),
      Node("instrument", NxClass("NXinstrument"), Some(0), GroupBody([], [2])),
      Node("two_theta", [Attr("depends_on", Str("."))], Some(1), DatasetBody(Float(0.0), map[]))])
  }

  /** The dataset `two_theta`, written under `entry/instrument`. */
  lemma TwoThetaOps()
    ensures IsDatasetAt(EntryNodes(), 2)
    ensures DatasetH5(EntryNodes(), 2, Some("entry/instrument")) == Outcome([
        CreateDataset("entry/instrument/two_theta", [], None, map[]),
        Write("entry/instrument/two_theta", Float(0.0)),
        SetAttr("entry/instrument/two_theta", "depends_on", Str("."))], None)
  {
    var t := EntryNodes();
    assert Clashes(Float(0.0), map[]) == {};
    assert Under(Some("entry/instrument"), "two_theta") == "entry/instrument/two_theta";
    assert CreationArgs(Float(0.0)) == CreateArgs([], None);
    assert AttrOps("entry/instrument/two_theta", [Attr("depends_on", Str("."))])
        == [SetAttr("entry/instrument/two_theta", "depends_on", Str("."))];
  }

  lemma EntryNodesValid()
    ensures Valid(EntryNodes()) && IsGroupAt(EntryNodes(), 0) && IsGroupAt(EntryNodes(), 1)
    ensures EntryTree().tree == EntryNodes()
  {
    EntryTreeShape();
  }

  /** The members of `instrument` write out as `two_theta` alone. */
  lemma InstrumentMembersOps()
    ensures Valid(EntryNodes()) && IsGroupAt(EntryNodes(), 1)
    ensures Children(EntryNodes(), 1) == [] && Datasets(EntryNodes(), 1) == [2]
    ensures ChildrenH5(EntryNodes(), 1, [], "entry/instrument") == Outcome([], None)
    ensures DatasetsH5(EntryNodes(), 1, [2], "entry/instrument")
         == DatasetH5(EntryNodes(), 2, Some("entry/instrument"))
  {
    EntryNodesValid();
    var t := EntryNodes();
    assert DatasetsH5(t, 1, [], "entry/instrument") == Outcome([], None);
  }

  /** The group `instrument`, written under `entry`. */
  lemma InstrumentOps()
    ensures Valid(EntryNodes()) && IsGroupAt(EntryNodes(), 1)
    ensures GroupH5(EntryNodes(), 1, Some("entry")) == Outcome([
        CreateGroup("entry/instrument"),
        SetAttr("entry/instrument", "NX_class", Str("NXinstrument")),
        CreateDataset("entry/instrument/two_theta", [], None, map[]),
        Write("entry/instrument/two_theta", Float(0.0)),
        SetAttr("entry/instrument/two_theta", "depends_on", Str("."))], None)
  {
    InstrumentMembersOps();
    TwoThetaOps();
    var t := EntryNodes();
    var here := "entry/instrument";
    assert Under(Some("entry"), t.nodes[1].name) == here;
    var head := [CreateGroup(here)] + AttrOps(here, t.nodes[1].attrs);
    assert head == [CreateGroup(here), SetAttr(here, "NX_class", Str("NXinstrument"))];
  }

  /** The members of `entry` write out as `instrument` alone. */
  lemma EntryMembersOps()
    ensures Valid(EntryNodes()) && IsGroupAt(EntryNodes(), 0) && IsGroupAt(EntryNodes(), 1)
    ensures Children(EntryNodes(), 0) == [1] && Datasets(EntryNodes(), 0) == []
    ensures ChildrenH5(EntryNodes(), 0, [1], "entry") == GroupH5(EntryNodes(), 1, Some("entry"))
    ensures DatasetsH5(EntryNodes(), 0, [], "entry") == Outcome([], None)
  {
    EntryNodesValid();
    var t := EntryNodes();
    assert ChildrenH5(t, 0, [], "entry") == Outcome([], None);
  }

  /** The whole pass over the three nodes. */
  lemma EntryNodesOps()
    ensures Valid(EntryNodes()) && IsGroupAt(EntryNodes(), 0)
    ensures Materialize(EntryNodes(), 0) == Outcome([
        CreateGroup("entry"),
        SetAttr("entry", "NX_class", Str("NXentry")),
        CreateGroup("entry/instrument"),
        SetAttr("entry/instrument", "NX_class", Str("NXinstrument")),
        CreateDataset("entry/instrument/two_theta", [], None, map[]),
        Write("entry/instrument/two_theta", Float(0.0)),
        SetAttr("entry/instrument/two_theta", "depends_on", Str("."))], None)
  {
    EntryMembersOps();
    InstrumentOps();
    var t := EntryNodes();
    var head := [CreateGroup("entry")] + AttrOps("entry", t.nodes[0].attrs);
    assert head == [CreateGroup("entry"), SetAttr("entry", "NX_class", Str("NXentry"))];
  }

  /** Writing `entry` into a file creates `entry` and `entry/instrument` with
      their classes, and a scalar dataset `entry/instrument/two_theta` holding
      0.0 with `depends_on` equal to ".". */
  lemma EntryScenario()
    ensures var t := EntryTree().tree;
      Valid(t) && IsGroupAt(t, 0) &&
      Materialize(t, 0) == Outcome([
        CreateGroup("entry"),
        SetAttr("entry", "NX_class", Str("NXentry")),
        CreateGroup("entry/instrument"),
        SetAttr("entry/instrument", "NX_class", Str("NXinstrument")),
        CreateDataset("entry/instrument/two_theta", [], None, map[]),
        Write("entry/instrument/two_theta", Float(0.0)),
        SetAttr("entry/instrument/two_theta", "depends_on", Str("."))], None)
  {
    EntryNodesValid();
    EntryNodesOps();
  }

  /** One step of `depends_on: d2t_data.path()`: a group or dataset placed
      under a node with a known path. */
  lemma PathStep(t: Tree, p: nat, name: string, expected: string)
    requires Valid(t) && IsGroupAt(t, p) && Path(t, p) + "/" + name == expected
    ensures var m := AddGroup(t, p, name, []);
            Valid(m.tree) && IsGroupAt(m.tree, m.node) && Path(m.tree, m.node) == expected
    ensures var m := AddDataset(t, p, name, Float(0.0), [], map[]);
            Valid(m.tree) && Path(m.tree, m.node) == expected
  {
    AddGroupPath(t, p, name, []);
    AddDatasetPath(t, p, name, Float(0.0), [], map[]);
  }

  /** `d2t_data.path()`: the path of `two_theta` under
      `entry/instrument/detector_2t`. */
  lemma DependsOnPath()
    ensures var e := NewGroup(Tree([]), "entry", [], None);
            var i := AddGroup(e.tree, e.node, "instrument", []);
            var d := AddGroup(i.tree, i.node, "detector_2t", []);
            var z := AddDataset(d.tree, d.node, "two_theta", Float(0.0), [], map[]);
            Path(z.tree, z.node) == "entry/instrument/detector_2t/two_theta"
  {
    var e := NewGroup(Tree([]), "entry", [], None);
    RootPath(Tree([]), "entry", []);
    assert "entry" + "/" + "instrument" == "entry/instrument";
    PathStep(e.tree, e.node, "instrument", "entry/instrument");
    var i := AddGroup(e.tree, e.node, "instrument", []);
    assert "entry/instrument" + "/" + "detector_2t" == "entry/instrument/detector_2t";
    PathStep(i.tree, i.node, "detector_2t", "entry/instrument/detector_2t");
    var d := AddGroup(i.tree, i.node, "detector_2t", []);
    assert "entry/instrument/detector_2t" + "/" + "two_theta" == "entry/instrument/detector_2t/two_theta";
    PathStep(d.tree, d.node, "two_theta", "entry/instrument/detector_2t/two_theta");
  }

  /** A group `e` holding a child group `x` and a dataset `x`: the two
      dictionaries accept the same key. */
  function SharedNameTree(): (m: Made)
    ensures Valid(m.tree) && IsDatasetAt(m.tree, m.node)
  {
    var e := NewGroup(Tree([]), "e", [], None);
    var x := AddGroup(e.tree, e.node, "x", []);
    AddDataset(x.tree, e.node, "x", Int(0), [], map[])
  }

  function SharedNameNodes(): Tree {
    Tree([
      Node("e", [], None, GroupBody([1], [2])),
      Node("x", [], Some(0), GroupBody([], [])),
      Node("x", [], Some(0), DatasetBody(Int(0), map[]))])
  }

  lemma SharedNameShape()
    ensures SharedNameTree().tree == SharedNameNodes()
    ensures Valid(SharedNameNodes()) && IsGroupAt(SharedNameNodes(), 0)
  {
    var e := NewGroup(Tree([]), "e", [], None);
    assert e.tree == Tree([Node("e", [], None, GroupBody([], []))]) && e.node == 0;
    assert !HasNamed(e.tree, Children(e.tree, e.node), "x");
    var x := AddGroup(e.tree, e.node, "x", []);
    assert x.node == 1 && x.tree.nodes[1] == Node("x", [], Some(0), GroupBody([], []));
    assert x.tree.nodes[0] == Node("e", [], None, GroupBody([1], []));
    assert x.tree == Tree([Node("e", [], None, GroupBody([1], [])), Node("x", [], Some(0), GroupBody([], []))]);
    assert !HasNamed(x.tree, Datasets(x.tree, 0), "x");
    var d := AddDataset(x.tree, e.node, "x", Int(0), [], map[]);
    assert d.node == 2;
    assert d.tree.nodes[0] == Node("e", [], None, GroupBody([1], [2]));
    assert d.tree.nodes[1] == x.tree.nodes[1];
  }

  /** The group `x` holds the name the dataset `x` needs. */
  lemma SharedNameTaken()
    ensures Valid(SharedNameNodes()) && IsGroupAt(SharedNameNodes(), 0)
    ensures IsDatasetAt(SharedNameNodes(), 2) && NameTaken(SharedNameNodes(), 2)
  {
    SharedNameShape();
    var t := SharedNameNodes();
    assert t.nodes[0].body.children[0] == 1 && t.nodes[1].name == "x";
  }

  /** So the dataset `x` fails, and nothing of it is issued. */
  lemma SharedNameDatasetOps()
    ensures Valid(SharedNameNodes()) && IsGroupAt(SharedNameNodes(), 0)
    ensures DatasetsH5(SharedNameNodes(), 0, [2], "e") == Outcome([], Some(NameExists("e/x")))
  {
    SharedNameTaken();
    var t := SharedNameNodes();
    assert Clashes(Int(0), map[]) == {};
    assert Under(Some("e"), "x") == "e/x";
    assert DatasetH5(t, 2, Some("e")) == Outcome([], Some(NameExists("e/x")));
  }

  /** The child group `x` is created and written in full. */
  lemma SharedNameGroupOps()
    ensures Valid(SharedNameNodes()) && IsGroupAt(SharedNameNodes(), 0)
    ensures ChildrenH5(SharedNameNodes(), 0, [1], "e") == Outcome([CreateGroup("e/x")], None)
  {
    SharedNameShape();
    var t := SharedNameNodes();
    assert IsGroupAt(t, 1) && Children(t, 1) == [] && Datasets(t, 1) == [];
    assert Under(Some("e"), "x") == "e/x";
    assert ChildrenH5(t, 1, [], "e/x") == Outcome([], None);
    assert DatasetsH5(t, 1, [], "e/x") == Outcome([], None);
    assert ChildrenH5(t, 0, [], "e") == Outcome([], None);
  }

  /** The whole pass over the three nodes. */
  lemma SharedNameNodesOps()
    ensures Valid(SharedNameNodes()) && IsGroupAt(SharedNameNodes(), 0)
    ensures Materialize(SharedNameNodes(), 0)
         == Outcome([CreateGroup("e"), CreateGroup("e/x")], Some(NameExists("e/x")))
  {
    SharedNameGroupOps();
    SharedNameDatasetOps();
    var t := SharedNameNodes();
    assert AttrOps("e", t.nodes[0].attrs) == [];
  }

  /** Writing `e` creates `e` and the group `e/x`, then fails to create the
      dataset `e/x`: nothing of the dataset is issued. */
  lemma SharedNameScenario()
    ensures var t := SharedNameTree().tree;
      Valid(t) && IsGroupAt(t, 0) &&
      Materialize(t, 0) == Outcome([CreateGroup("e"), CreateGroup("e/x")], Some(NameExists("e/x")))
  {
    SharedNameShape();
    SharedNameNodesOps();
  }

  /** `module.dataset('data_origin', [0,0])` followed by
      `module.dataset('data_origin', [1024,2048])` leaves `[0,0]` in place. */
  lemma DataOriginKeepsFirstValue(t: Tree, grp: nat)
    requires Valid(t) && IsGroupAt(t, grp)
    requires !HasNamed(t, Datasets(t, grp), "data_origin")
    ensures var first := AddDataset(t, grp, "data_origin", List([Int(0), Int(0)]), [], map[]);
            var second := AddDataset(first.tree, grp, "data_origin", List([Int(1024), Int(2048)]), [], map[]);
            second.node == first.node &&
            second.tree.nodes[second.node].body.value == List([Int(0), Int(0)])
  {
    DatasetTwice(t, grp, "data_origin", List([Int(0), Int(0)]), [], map[],
                 List([Int(1024), Int(2048)]), [], map[]);
  }

  /** A parameter named `self` collides with the handle the bound method
      `create_dataset` receives, whatever the value's kind. */
  lemma SelfParamClashes()
    ensures Clashes(Int(0), map["self" := Int(0)]) == {"self"}
    ensures Clashes(Str("pixel"), map["self" := Int(0), "dtype" := Str("S5")]) == {"self", "dtype"}
  {
  }

  /** The value kinds of `main`'s datasets: the text "silicon" becomes a
      scalar of type `S7`, the list `[0, 0]` a vector of length 2, `0.0` a
      scalar, and the zero array `zeros` keeps its shape, its chunking and
      compression parameters clashing with nothing. */
  lemma KindExamples()
    ensures CreationArgs(Str("silicon")) == CreateArgs([], Some("S7"))
    ensures CreationArgs(List([Int(0), Int(0)])) == CreateArgs([2], None)
    ensures CreationArgs(Float(0.0)) == CreateArgs([], None)
    ensures CreationArgs(Array([16, 1024, 2048])) == CreateArgs([16, 1024, 2048], None)
    ensures Clashes(Array([16, 1024, 2048]),
                    map["chunks" := Tuple([Int(1), Int(1024), Int(2048)]),
                        "compression" := Str("gzip"), "compression_opts" := Int(9)]) == {}
  {
    assert Decimal(7) == "7";
    assert TextDtype(7) == "S7";
    assert |"silicon"| == 7;
    var p := map["chunks" := Tuple([Int(1), Int(1024), Int(2048)]),
                 "compression" := Str("gzip"), "compression_opts" := Int(9)];
    assert p.Keys == {"chunks", "compression", "compression_opts"};
  }
}
