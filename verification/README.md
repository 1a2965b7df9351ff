# NXmx tree builder and writer, modelled in Dafny

`create_nxmx/create_nxmx.py` builds an in-memory tree of NeXus groups and
datasets and writes it into an HDF5 file in one pass:

- `NXGroup(name, attrs, parent)` and `NXDataset(name, values, attrs, parent, params)`
  create nodes that hold a back-reference to their parent.
- `group.group(name, attrs)` and `group.dataset(name, values, attrs, params)`
  are get-or-create: the first call with a name creates and stores the child.
  Later calls with the same name return the stored child and ignore the new
  arguments. Child groups and datasets live in two separate dictionaries.
- `path()` is the parent's path, a `/`, and the node's own name. A node without
  a parent has its bare name as its path.
- `h5(handle)` creates the group under the handle and sets its attributes. It
  then writes every child group in full, then every dataset. A dataset's
  storage shape and element type depend on its value: an array keeps its
  shape; text gets a scalar of fixed-length type `S<len>`; a list or tuple
  becomes a vector of its length; anything else is a scalar. Extra creation
  parameters are passed through unchanged.

The model:

- **Tree** (`nodes.dfy`) is an arena `Tree(nodes)`. Each node records its
  parent's index, which is always earlier in the arena. A group's two
  dictionaries are insertion-ordered index sequences whose keys are the
  members' own names. `Valid` is the invariant every tree built through the
  operations keeps.
- Every dictionary (members, attributes) is read in insertion order. Python
  guarantees this order from version 3.7 on. Older interpreters may iterate
  in another order; the order-sensitive results (the trace order, `AttrOps`,
  `OrderSegment`, the scenarios) assume insertion order. The other results do
  not depend on order.
- **Paths** (`paths.dfy`) derive a node's path from its parent chain.
- **Writer** (`materialize.dfy`) turns the write pass into a function. It
  returns the backend operations in issue order, plus the fault that stopped
  the pass, if there was one. There are two faults:
  - a `**params` dictionary that repeats a keyword the call site already
    passes (a Python TypeError);
  - a dataset whose name is already taken in its group. The two dictionaries
    are separate, so a group may hold a child group and a dataset of the same
    name, but an HDF5 group has one namespace for both. The child group is
    written first, so creating the dataset then fails.
- **Traversal** (`traversal.dfy`) defines the pre-order the pass follows.
- **Trace** (`trace.dfy`) proves that the recursive pass equals one block of
  operations per node, in that order. From this it derives:
  - when the pass fails;
  - that each node is created exactly once, and never at a location already
    taken;
  - the number of attribute operations;
  - that parents are created first;
  - that each subtree is written contiguously.
- **Scenarios** (`scenarios.dfy`) works through concrete trees like those
  `main` builds.

## Model

| member | source | states |
|---|---|---|
| Nodes.NewGroup | create_nxmx/create_nxmx.py:5-10 | a new group is appended with the given name, attrs and parent, with empty child and dataset dictionaries; earlier nodes are unchanged and the tree stays valid |
| Nodes.NewDataset | create_nxmx/create_nxmx.py:39-44 | a new dataset node stores the value, attrs, parent and params exactly as given; earlier nodes are unchanged |
| Nodes.Find | create_nxmx/create_nxmx.py:13 | dictionary lookup: a hit is a member with that name; a miss happens exactly when no member has that name |
| Nodes.AddGroup | create_nxmx/create_nxmx.py:12-15 | if the name is already a child key, the same child is returned and the tree is unchanged, so `attrs` is discarded. Otherwise one new group with `attrs` is appended to the children in insertion order, and every other node is unchanged. In both cases the dataset dictionary is untouched |
| Nodes.AddDataset | create_nxmx/create_nxmx.py:17-21 | the same for datasets: an existing key returns the stored dataset and discards the value, attrs and params; a new key appends one dataset with exactly those contents. The child-group dictionary is untouched |
| Nodes.GroupTwice | create_nxmx/create_nxmx.py:12-15 | a second `group` call with the same name returns the same node and tree, and the node keeps the first call's attrs |
| Nodes.DatasetTwice | create_nxmx/create_nxmx.py:17-21 | a second `dataset` call with the same name returns the same node; the first call's value, attrs and params are the ones kept |
| Paths.Path | create_nxmx/create_nxmx.py:23-26 | `path()` of a group; `NXDataset.path` (lines 46-49) is the same rule. What it means is stated by Paths.PathIsJoinedChain, Paths.PathSplitsIntoChain, Paths.PathSlashCount and, for built trees, Paths.AddGroupPath and Paths.AddDatasetPath |
| Paths.NameChain | create_nxmx/create_nxmx.py:23-26 | the chain of names from the root down is never empty and ends with the node's own name |
| Paths.ChainLength | create_nxmx/create_nxmx.py:23-26 | the name chain has one entry per ancestor, plus one |
| Paths.PathIsJoinedChain | create_nxmx/create_nxmx.py:23-26 | a path is the node's name chain joined with `/` |
| Paths.PathSplitsIntoChain | create_nxmx/create_nxmx.py:46-49 | when no name contains `/`, splitting a path on `/` recovers the ancestor names and the node's own name, in order |
| Paths.PathSlashCount | create_nxmx/create_nxmx.py:23-26 | when no name contains `/`, a path holds exactly as many `/` as the node has ancestors |
| Paths.PathsKept | create_nxmx/create_nxmx.py:23-26 | a path depends only on the names and parents along the chain |
| Paths.AddGroupPath | create_nxmx/create_nxmx.py:12-26 | the group that `group(name)` returns has path `parent path + "/" + name`, whether it was created or found; every existing node keeps its path |
| Paths.AddDatasetPath | create_nxmx/create_nxmx.py:17-21 | the same for `dataset(name, ...)`, with the dataset path rule of lines 46-49 |
| Paths.RootPath | create_nxmx/create_nxmx.py:23-26 | a node built without a parent has its own name as its path and has no ancestors |
| Values.Classify | create_nxmx/create_nxmx.py:52-63 | the guard chain (has `shape`, then str, then list or tuple, else). Its outcome for each sort of value is stated by Values.CreationArgs and Values.ArgsDependOnlyOnKind |
| Values.Decimal | create_nxmx/create_nxmx.py:57 | `'%d'` formatting gives a non-empty run of digits with no leading zero |
| Values.DecimalRoundTrip | create_nxmx/create_nxmx.py:57 | reading back the `'%d'` rendering gives the number |
| Values.TextDtypeRoundTrip | create_nxmx/create_nxmx.py:57 | the width encoded in `'S%d' % n` is `n` |
| Values.CreationArgs | create_nxmx/create_nxmx.py:52-63 | an explicit dtype is given exactly for text, and its width is the text's length; an array keeps its shape; a list or tuple has shape `(len,)`; ints and floats have shape `()` |
| Values.ArgsDependOnlyOnKind | create_nxmx/create_nxmx.py:52-63 | two values of the same kind get the same creation arguments |
| Values.Clashes | create_nxmx/create_nxmx.py:53-63 | `**params` fails on `self`, `name` and `shape` in every branch (the bound method binds `self` to the handle), and on `dtype` exactly in the text branch; no other keyword clashes |
| Writer.AttrOps | create_nxmx/create_nxmx.py:30-31 | one SetAttr per attribute entry, in dictionary order, at the handle's location |
| Writer.NameTaken | create_nxmx/create_nxmx.py:28-35 | the dataset's parent holds a child group of the same name, which the pass creates before any of the parent's datasets. Its consequences are stated by Writer.DatasetH5, Trace.SiblingNamesDiffer and Trace.MaterializeCreatesDistinctPaths |
| Writer.DatasetH5 | create_nxmx/create_nxmx.py:51-67 | it fails, issuing nothing, exactly when the params clash or the name is taken; a clash is reported first. Otherwise it issues one CreateDataset with the kind's shape and dtype and the params unchanged, then one Write of the value, then one SetAttr per attribute |
| Writer.GroupH5 | create_nxmx/create_nxmx.py:28-31 | a group's pass begins with its CreateGroup, followed by one SetAttr per attribute |
| Writer.ChildrenH5 | create_nxmx/create_nxmx.py:32-33 | the child-group loop; stated by Trace.ChildrenH5Blocks |
| Writer.DatasetsH5 | create_nxmx/create_nxmx.py:34-35 | the dataset loop; stated by Trace.DatasetsH5Blocks |
| Writer.Materialize | create_nxmx/create_nxmx.py:146-147 | `entry.h5(f)` into a freshly truncated file; stated by the Trace.Materialize theorems |
| Traversal.Order | create_nxmx/create_nxmx.py:28-36 | the order the pass reaches nodes in; stated by Traversal.OrderIsSubtree, Traversal.OrderParentsFirst, Traversal.OrderSegment and Trace.GroupH5Blocks |
| Traversal.OrderSound | create_nxmx/create_nxmx.py:32-35 | every node visited from `g` lies in `g`'s subtree |
| Traversal.OrderComplete | create_nxmx/create_nxmx.py:32-35 | every node that hangs below `g` through entries in the child and dataset dictionaries is visited |
| Traversal.OrderNoDup | create_nxmx/create_nxmx.py:32-35 | no node is visited twice |
| Traversal.OrderIsSubtree | create_nxmx/create_nxmx.py:28-36 | the visit order lists exactly the subtree, each node once |
| Traversal.OrderParentsFirst | create_nxmx/create_nxmx.py:28-36 | every visited node after the first has its parent visited earlier |
| Traversal.OrderSegment | create_nxmx/create_nxmx.py:32-33 | the visit order of a group inside `g` is one contiguous run of `g`'s visit order |
| Trace.ParentAt | create_nxmx/create_nxmx.py:29 | the handle a node is written under, joined with the node's name, is the node's path |
| Trace.BlockFault | create_nxmx/create_nxmx.py:51-63 | one node's operations fail exactly when it is a dataset whose params clash or whose name is taken, and then nothing is issued for it. The fault names the keywords, or else the taken location |
| Trace.DatasetsH5Blocks | create_nxmx/create_nxmx.py:34-35 | the dataset loop equals the blocks of the datasets, in dictionary order |
| Trace.ChildrenH5Blocks | create_nxmx/create_nxmx.py:32-33 | the child-group loop equals the blocks of each child's visit order, one child after another |
| Trace.GroupH5Blocks | create_nxmx/create_nxmx.py:28-36 | the recursive pass, started under the group's parent, equals the per-node blocks of its visit order |
| Trace.RunBlocksClean | create_nxmx/create_nxmx.py:32-35 | a run of blocks succeeds exactly when every block is clean, and then issues all their operations |
| Trace.RunBlocksStops | create_nxmx/create_nxmx.py:32-35 | a failing run keeps the blocks before the first unclean node and reports that node's fault |
| Trace.MaterializeFailsIff | create_nxmx/create_nxmx.py:28-63 | writing a root fails exactly when some dataset in its subtree has clashing params or shares its name with a child group of its parent |
| Trace.MaterializeCreatesEachNodeOnce | create_nxmx/create_nxmx.py:28-66 | a clean pass creates every node of the subtree exactly once, at its path, in visit order, and issues as many SetAttr operations as there are attribute entries |
| Trace.MaterializeStopsAtFirstFault | create_nxmx/create_nxmx.py:28-63 | a failing pass has issued exactly the blocks before the first failing dataset, all of them clean. It reports that dataset's path with the repeated keywords or, when its params are fine, as a taken name |
| Trace.MaterializeParentsCreatedFirst | create_nxmx/create_nxmx.py:28-36 | in a clean pass every node after the root is created after its parent's location |
| Trace.MaterializeGroupRunsTogether | create_nxmx/create_nxmx.py:32-33 | the creations of any group's subtree form one contiguous run of the pass |
| Trace.SiblingNamesDiffer | create_nxmx/create_nxmx.py:8-9 | two different clean members of one group have different names, whichever dictionaries they sit in |
| Trace.PathsInjective | create_nxmx/create_nxmx.py:23-26 | in a root's subtree of clean nodes with slash-free names, equal paths mean the same node |
| Trace.MaterializeCreatesDistinctPaths | create_nxmx/create_nxmx.py:28-36 | when names are slash-free, a clean pass never creates the same location twice |
| Scenarios.EntryScenario | create_nxmx/create_nxmx.py:70-80 | writing `entry` / `instrument` / `two_theta` issues the expected seven operations, in order, with no fault |
| Scenarios.DependsOnPath | create_nxmx/create_nxmx.py:76-85 | `d2t_data.path()` is `entry/instrument/detector_2t/two_theta` |
| Scenarios.DataOriginKeepsFirstValue | create_nxmx/create_nxmx.py:114-115 | the second `data_origin` request leaves `[0, 0]` in place |
| Scenarios.SharedNameScenario | create_nxmx/create_nxmx.py:12-35 | a group `e` with a child group `x` and a dataset `x` is accepted by both dictionaries. Writing it creates `e` and `e/x`, then fails with `e/x` taken, issuing nothing for the dataset |
| Scenarios.SelfParamClashes | create_nxmx/create_nxmx.py:53-63 | a param named `self` collides with the handle the bound `create_dataset` receives: `{'self': 0}` clashes for a number, and for a string `self` and `dtype` both clash |
| Scenarios.KindExamples | create_nxmx/create_nxmx.py:77-144 | from `main`'s datasets: `silicon` (line 93) is stored as a scalar of type `S7`; `[0, 0]` (line 114) as a vector of length 2; `0.0` (line 77) as a scalar; the `zeros` array (lines 141-144) keeps its shape, and its `chunks` and `compression` params do not clash |

## Left out

- The HDF5 library is not called. The pass returns the operations it would
  issue, and a handle is identified with its location. The file is the empty
  one `h5py.File(filename, 'w')` creates. Array contents and the
  bytes `dataset[...] = values` writes are not modelled; `Write` carries the
  value as given.
- Floating point: a float value is an uninterpreted `real` payload. `main`'s
  arithmetic (beam centre times pixel size) is not modelled.
- `main` itself, the NeXus schema it encodes, and the command line are left
  out. `main`'s calls appear only as the concrete scenarios.
- The `h5` return value (the created handle) is not modelled: no caller in the
  core uses it.
- Mutable default arguments (`attrs={}`, `params={}`): the code never mutates
  them, so each default behaves as a fresh empty dictionary.
- Trace.MaterializeFailsIff: the only backend failure modelled is a dataset
  name already taken by a sibling group. Names containing `/` are not given
  HDF5's meaning: the backend would create intermediate groups for them, and
  those could collide with later members. Empty names or `.`, and I/O errors,
  are not modelled either.
- Trace.MaterializeStopsAtFirstFault: it shares the limits of
  Trace.MaterializeFailsIff. A backend failure on a name with `/` could stop
  the pass earlier.
- Trace.BlockFault: it shares the limits of Trace.MaterializeFailsIff.
- Writer.DatasetH5: a name is taken only by the parent's child groups. This
  holds inside the pass, where the handle is the parent group; it does not
  hold for a dataset written into an arbitrary handle.
- Trace.MaterializeCreatesDistinctPaths: this needs slash-free names. With a
  `/` in a name, two different nodes can share a path, e.g. a group's child
  `a/b` and its child `a`'s child `b`.
- Values.Clashes: this assumes the backend's bound method
  `create_dataset(self, name, shape=None, dtype=None, ...)`. Any other error the
  backend raises for bad params is not modelled; only the Python-level
  keyword clash is.
- Writer.GroupH5: its own contract only fixes the opening operations. The full
  trace is stated by the Trace theorems, for a pass started under the group's
  parent (for a root, the file itself). Writing a non-root group directly into
  the file is not covered by them.
- Attribute dictionaries are modelled as sequences of entries, so a sequence
  with a repeated key is representable. A Python dict cannot hold one, and
  the theorems count one SetAttr per entry.
- Values.CreationArgs: the text width is `len(s)`, the character count, as the
  code computes it. The encoded byte length, which a non-ASCII string would
  need, is not modelled.
- `if self._parent:` is read as "has a parent": neither class defines a truth
  value, so any parent object is true.
- A node built with a `parent` but never entered in that parent's dictionary
  has a path through the parent, but the pass never reaches it. The subtree
  the theorems speak of is the set of nodes entered through `group` and
  `dataset`.
- Scenarios: the trees are cut down to the few nodes each property needs, and
  the groups along `DependsOnPath` carry no attributes, since paths do not
  depend on them.
