/**
  Runtime values handed to the tree builder, and the value-kind dispatch that
  `NXDataset.h5` performs to choose the storage shape and element type of a
  dataset (create_nxmx/create_nxmx.py, lines 51-63).
 */
module Values {
  import opened Wrappers

  /** A caller-supplied value. Only `Array` (a numpy array) has a `shape`
      attribute; its elements are not modelled. `Float` carries its number as
      an uninterpreted payload: no arithmetic is done on it. */
  datatype Value =
    | Int(i: int)
    | Float(x: real)
    | Str(s: string)
    | List(items: seq<Value>)
    | Tuple(items: seq<Value>)
    | Array(shape: seq<nat>)

  /** One entry of an attribute dictionary, in insertion order. */
  datatype Attr = Attr(key: string, value: Value)

  type Attrs = seq<Attr>

  /** Keyword arguments forwarded verbatim to the backend's dataset creation. */
  type Params = map<string, Value>

  /** The storage kind a value is given when its dataset is created. */
  datatype Kind =
    | NdArray(dims: seq<nat>)
    | Text(width: nat)
    | Vector(length: nat)
    | Scalar

  /** `hasattr(value, 'shape')` */
  predicate HasShape(v: Value) {
    v.Array?
  }

  /** The dispatch of `NXDataset.h5`, guard by guard in the source's order. */
  function Classify(v: Value): (k: Kind)
  {
    if HasShape(v) then NdArray(v.shape)
    else if v.Str? then Text(|v.s|)
    else if v.List? || v.Tuple? then Vector(|v.items|)
    else Scalar
  }

  // ---------------------------------------------------------------------------
  // '%d' formatting of the fixed-length text element type

  function DigitChar(d: nat): char
    requires d < 10
  {
    "0123456789"[d]
  }

  function DigitValue(c: char): nat {
    if '0' <= c <= '9' then (c - '0') as nat else 0
  }

  predicate IsDigit(c: char) {
    '0' <= c <= '9'
  }

  /** The decimal rendering of `n`, as Python's `'%d' % n` writes it. */
  function Decimal(n: nat): (s: string)
    ensures |s| > 0
    ensures forall k | 0 <= k < |s| :: IsDigit(s[k])
    ensures |s| > 1 ==> s[0] != '0'
  {
    if n < 10 then [DigitChar(n)] else Decimal(n / 10) + [DigitChar(n % 10)]
  }

  /** Reads a string of decimal digits back as a number. */
  function ParseDecimal(s: string): nat {
    if |s| == 0 then 0
    else ParseDecimal(s[..|s| - 1]) * 10 + DigitValue(s[|s| - 1])
  }

  lemma {:induction false} DecimalRoundTrip(n: nat)
    ensures ParseDecimal(Decimal(n)) == n
  {
    var s := Decimal(n);
    if n < 10 {
      assert s[..|s| - 1] == [];
    } else {
      assert s[..|s| - 1] == Decimal(n / 10);
      DecimalRoundTrip(n / 10);
    }
  }

  /** The element type `'S%d' % width` of a fixed-length byte string. */
  function TextDtype(width: nat): (d: string)
    ensures |d| >= 2 && d[0] == 'S'
  {
    "S" + Decimal(width)
  }

  /** The width a fixed-length byte-string type name denotes. */
  function DtypeWidth(d: string): nat {
    if |d| > 0 && d[0] == 'S' then ParseDecimal(d[1..]) else 0
  }

  lemma TextDtypeRoundTrip(width: nat)
    ensures DtypeWidth(TextDtype(width)) == width
  {
    assert TextDtype(width)[1..] == Decimal(width);
    DecimalRoundTrip(width);
  }

  // ---------------------------------------------------------------------------
  // the arguments of the backend's create_dataset call

  /** Shape and explicit element type passed to `create_dataset`;
      `dtype == None` means the keyword is not given. */
  datatype CreateArgs = CreateArgs(shape: seq<nat>, dtype: Option<string>)

  function ArgsFor(k: Kind): CreateArgs {
    match k
    case NdArray(dims) => CreateArgs(dims, None)
    case Text(width) => CreateArgs([], Some(TextDtype(width)))
    case Vector(length) => CreateArgs([length], None)
    case Scalar => CreateArgs([], None)
  }

  /** The creation arguments for a value: a rank-0 shape except for arrays
      and sequences, and an explicit type only for text. */
  function CreationArgs(v: Value): (a: CreateArgs)
    ensures a.dtype.Some? <==> v.Str?
    ensures v.Str? ==> a.shape == [] && DtypeWidth(a.dtype.value) == |v.s|
    ensures v.Array? ==> a.shape == v.shape
    ensures (v.List? || v.Tuple?) ==> a.shape == [|v.items|]
    ensures (v.Int? || v.Float?) ==> a.shape == []
  {
    var a := ArgsFor(Classify(v));
    if v.Str? then TextDtypeRoundTrip(|v.s|); a else a
  }

  /** The shape and type depend on the value only through its kind. */
  lemma ArgsDependOnlyOnKind(v: Value, w: Value)
    requires Classify(v) == Classify(w)
    ensures CreationArgs(v) == CreationArgs(w)
  {
  }

  /** Keywords the call site itself supplies: the bound method
      `create_dataset(self, name, shape=None, dtype=None, ...)` receives the
      handle as `self` and the name and shape positionally, and the text
      branch passes `dtype=` explicitly. */
  function FixedKeywords(a: CreateArgs): set<string> {
    {"self", "name", "shape"} + (if a.dtype.Some? then {"dtype"} else {})
  }

  /** The keywords that `**params` would supply a second time; Python rejects
      such a call with a TypeError before the backend is reached. */
  function Clashes(v: Value, params: Params): (c: set<string>)
    ensures c <= params.Keys
    ensures "self" in params ==> "self" in c
    ensures "name" in params ==> "name" in c
    ensures "shape" in params ==> "shape" in c
    ensures "dtype" in c <==> ("dtype" in params && v.Str?)
    ensures forall k | k in params && k !in {"self", "name", "shape", "dtype"} :: k !in c
  {
    params.Keys * FixedKeywords(CreationArgs(v))
  }
}
