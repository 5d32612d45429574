/** A nested schema declaration (fields, shaped tensors, scalar element
    types) and the flattening of a schema into one leaf descriptor per
    scalar element type, as done by hub/features/features.py.

    The element-type registry (`hub.dtype`) is not part of this model: every
    operation that builds a `Primitive` takes it as a parameter `normalize`
    from raw type descriptors `R` to canonical element types `D`. */
module Features {

  datatype Option<T> = None | Some(value: T)

  /** One dimension of a shape: a size, or `None` for an unbounded dimension. */
  type Dim = Option<nat>

  type Shape = seq<Dim>

  /** A leaf descriptor: where a scalar element type sits in the schema
      (path), the dimensions around it (shape, maxShape) and its dtype. */
  datatype FlatTensor<D> = FlatTensor(path: string, shape: Shape, dtype: D, maxShape: Shape)

  /** A schema node. Nodes are built once and never change afterwards. */
  datatype Node<D> =
    | Primitive(dtype: D)
    | FeatureDict(fields: seq<(string, Node<D>)>)
    | Tensor(shape: Shape, cell: Node<D>, maxShape: Shape)

  /** What `featurify` accepts: a dict of declarations (in insertion order),
      an already built node, or a raw type descriptor. */
  datatype Decl<R, D> =
    | Dict(entries: seq<(string, Decl<R, D>)>)
    | Built(node: Node<D>)
    | Raw(raw: R)

  /** The keys of an ordered field list, in order. */
  function Keys<V>(fields: seq<(string, V)>): (ks: seq<string>)
    ensures |ks| == |fields|
    ensures forall i :: 0 <= i < |fields| ==> ks[i] == fields[i].0
  {
    if fields == [] then [] else [fields[0].0] + Keys(fields[1..])
  }

  // ---------------------------------------------------------------------
  // Construction

  /** `featurify`: dicts become a FeatureDict, nodes pass through unchanged,
      anything else is a raw type descriptor wrapped in a Primitive. */
  function Featurify<R, D>(decl: Decl<R, D>, normalize: R -> D): (r: Node<D>)
    ensures decl.Built? ==> r == decl.node
    ensures decl.Raw? ==> r == Primitive(normalize(decl.raw))
    ensures decl.Dict? ==> r.FeatureDict? && Keys(r.fields) == Keys(decl.entries)
    decreases decl, 2
  {
    match decl
    case Dict(entries) => MakeFeatureDict(entries, normalize)
    case Built(node) => node
    case Raw(raw) => MakePrimitive(raw, normalize)
  }

  /** `Primitive(dtype)`: the raw descriptor is normalised once, at construction. */
  function MakePrimitive<R, D>(raw: R, normalize: R -> D): (r: Node<D>)
    ensures Flatten(r) == [FlatTensor("", [], normalize(raw), [])]
  {
    Primitive(normalize(raw))
  }

  /** `FeatureDict(dict_)`: every value is featurified and kept under its own
      key, in the dict's insertion order. */
  function MakeFeatureDict<R, D>(entries: seq<(string, Decl<R, D>)>, normalize: R -> D): (r: Node<D>)
    ensures r.FeatureDict? && |r.fields| == |entries|
    ensures Keys(r.fields) == Keys(entries)
    decreases entries, 1
  {
    FeatureDict(FeaturifyEntries(entries, normalize))
  }

  function FeaturifyEntries<R, D>(entries: seq<(string, Decl<R, D>)>, normalize: R -> D)
    : (fields: seq<(string, Node<D>)>)
    ensures Keys(fields) == Keys(entries)
    decreases entries, 0
  {
    if entries == [] then []
    else
      var e := entries[0];
      assert e in entries && e.1 < e;
      [(e.0, Featurify(e.1, normalize))] + FeaturifyEntries(entries[1..], normalize)
  }

  /** The `max_shape or shape` default: a missing or empty max_shape means
      the nominal shape; any other max_shape is kept as given. */
  function EffectiveMaxShape(shape: Shape, maxShape: Option<Shape>): (m: Shape)
    ensures maxShape == None || maxShape == Some([]) ==> m == shape
    ensures maxShape.Some? && maxShape.value != [] ==> m == maxShape.value
  {
    if maxShape.None? || maxShape.value == [] then shape else maxShape.value
  }

  /** `Tensor(shape, dtype, max_shape=None)`: the element declaration is
      featurified, the max_shape defaulted. */
  function MakeTensor<R, D>(shape: Shape, dtype: Decl<R, D>, maxShape: Option<Shape>, normalize: R -> D)
    : (r: Node<D>)
    ensures r.Tensor? && r.shape == shape && r.cell == Featurify(dtype, normalize)
    ensures r.maxShape == EffectiveMaxShape(shape, maxShape)
    ensures maxShape.None? || |maxShape.value| == |shape| || maxShape.value == [] ==>
      |r.maxShape| == |r.shape|
  {
    Tensor(shape, Featurify(dtype, normalize), EffectiveMaxShape(shape, maxShape))
  }

  // ---------------------------------------------------------------------
  // Flattening

  /** Number of Primitive leaves of a node. */
  function LeafCount<D>(n: Node<D>): nat
  {
    match n
    case Primitive(_) => 1
    case FeatureDict(fields) => FieldsLeafCount(fields)
    case Tensor(_, cell, _) => LeafCount(cell)
  }

  function FieldsLeafCount<D>(fields: seq<(string, Node<D>)>): nat
  {
    if fields == [] then 0
    else
      var f := fields[0];
      assert f in fields && f.1 < f;
      LeafCount(f.1) + FieldsLeafCount(fields[1..])
  }

  /** A child's records as a FeatureDict re-emits them under field `key`:
      "/" + key is put in front of each path, nothing else changes. */
  function UnderKey<D>(key: string, items: seq<FlatTensor<D>>): seq<FlatTensor<D>>
  {
    seq(|items|, i requires 0 <= i < |items| =>
      FlatTensor("/" + key + items[i].path, items[i].shape, items[i].dtype, items[i].maxShape))
  }

  /** A cell's records as a Tensor re-emits them: its own shape and
      max_shape are put in front of each record's; path and dtype stay. */
  function WithinTensor<D>(shape: Shape, maxShape: Shape, items: seq<FlatTensor<D>>): seq<FlatTensor<D>>
  {
    seq(|items|, i requires 0 <= i < |items| =>
      FlatTensor(items[i].path, shape + items[i].shape, items[i].dtype, maxShape + items[i].maxShape))
  }

  /** `_flatten`: one record per Primitive leaf, depth first, fields in
      declaration order. */
  function Flatten<D>(n: Node<D>): (r: seq<FlatTensor<D>>)
    ensures |r| == LeafCount(n)
  {
    match n
    case Primitive(dtype) => [FlatTensor("", [], dtype, [])]
    case FeatureDict(fields) => FlattenFields(fields)
    case Tensor(shape, cell, maxShape) => WithinTensor(shape, maxShape, Flatten(cell))
  }

  /** The records of a FeatureDict's fields: each field's records in turn,
      in declaration order. */
  function FlattenFields<D>(fields: seq<(string, Node<D>)>): (r: seq<FlatTensor<D>>)
    ensures |r| == FieldsLeafCount(fields)
  {
    if fields == [] then []
    else
      var f := fields[0];
      assert f in fields && f.1 < f;
      UnderKey(f.0, Flatten(f.1)) + FlattenFields(fields[1..])
  }
}
