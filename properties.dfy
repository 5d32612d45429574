/** What flattening promises about the records it emits: how many there
    are, how FeatureDict and Tensor rewrite their children's records, that
    shape and max_shape keep equal arity, and when paths are unique. */
module FeatureProperties {
  import opened Features

  // ---------------------------------------------------------------------
  // featurify

  /** An already built node passes through `featurify` unchanged, so
      featurifying twice is the same as featurifying once. */
  lemma FeaturifyIdempotent<R, D>(decl: Decl<R, D>, normalize: R -> D)
    ensures Featurify(Built(Featurify(decl, normalize)), normalize) == Featurify(decl, normalize)
  {
  }

  lemma {:induction false} FeaturifyEntriesPointwise<R, D>(entries: seq<(string, Decl<R, D>)>, normalize: R -> D)
    ensures var fields := FeaturifyEntries(entries, normalize);
      |fields| == |entries| &&
      forall i :: 0 <= i < |entries| ==> fields[i] == (entries[i].0, Featurify(entries[i].1, normalize))
  {
    if entries != [] {
      FeaturifyEntriesPointwise(entries[1..], normalize);
    }
  }

  /** A dict becomes a FeatureDict holding, under the same keys and in the
      same order, the featurified values. */
  lemma FeaturifyDict<R, D>(entries: seq<(string, Decl<R, D>)>, normalize: R -> D)
    ensures var r := Featurify(Dict(entries), normalize);
      r.FeatureDict? && |r.fields| == |entries| &&
      forall i :: 0 <= i < |entries| ==> r.fields[i] == (entries[i].0, Featurify(entries[i].1, normalize))
  {
    FeaturifyEntriesPointwise(entries, normalize);
  }

  // ---------------------------------------------------------------------
  // Primitive

  /** A Primitive flattens to exactly one record: empty path, empty shape,
      empty max_shape and the normalised dtype. */
  lemma PrimitiveFlatten<R, D>(raw: R, normalize: R -> D)
    ensures Flatten(MakePrimitive(raw, normalize)) == [FlatTensor("", [], normalize(raw), [])]
    ensures Flatten(Featurify(Raw(raw), normalize)) == [FlatTensor("", [], normalize(raw), [])]
  {
  }

  // ---------------------------------------------------------------------
  // FeatureDict

  /** A FeatureDict's output is its fields' outputs, one after the other. */
  lemma {:induction false} FlattenFieldsAppend<D>(f1: seq<(string, Node<D>)>, f2: seq<(string, Node<D>)>)
    ensures FlattenFields(f1 + f2) == FlattenFields(f1) + FlattenFields(f2)
  {
    if f1 != [] {
      var f := f1[0];
      assert (f1 + f2)[0] == f;
      assert (f1 + f2)[1..] == f1[1..] + f2;
      FlattenFieldsAppend(f1[1..], f2);
    } else {
      assert f1 + f2 == f2;
    }
  }

  /** The records of field `k` form one block, in the child's own order,
      right after the records of the fields declared before it; each has
      path "/" + key + the child's path, and the child's shape, dtype and
      max_shape. */
  lemma FieldRecords<D>(fields: seq<(string, Node<D>)>, k: nat)
    requires k < |fields|
    ensures var r := Flatten(FeatureDict(fields));
      var start := |FlattenFields(fields[..k])|;
      var key := fields[k].0;
      var items := Flatten(fields[k].1);
      start + |items| <= |r| &&
      forall j :: 0 <= j < |items| ==>
        && r[start + j].path == "/" + key + items[j].path
        && r[start + j].shape == items[j].shape
        && r[start + j].dtype == items[j].dtype
        && r[start + j].maxShape == items[j].maxShape
  {
    assert fields == fields[..k] + fields[k..];
    FlattenFieldsAppend(fields[..k], fields[k..]);
    assert fields[k..][0] == fields[k];
  }

  // ---------------------------------------------------------------------
  // Tensor

  /** A Tensor emits one record per record of its cell, with the same path
      and dtype, and its own shape and max_shape put in front. */
  lemma TensorRecords<D>(shape: Shape, cell: Node<D>, maxShape: Shape)
    ensures var r := Flatten(Tensor(shape, cell, maxShape));
      var items := Flatten(cell);
      |r| == |items| &&
      forall i :: 0 <= i < |items| ==>
        && r[i].path == items[i].path
        && r[i].shape == shape + items[i].shape
        && r[i].dtype == items[i].dtype
        && r[i].maxShape == maxShape + items[i].maxShape
  {
  }

  /** Nested Tensors compose by concatenation: a Tensor of a Tensor flattens
      as one Tensor over the concatenated shapes and max_shapes. */
  lemma NestedTensors<D>(outer: Shape, outerMax: Shape, inner: Shape, innerMax: Shape, cell: Node<D>)
    ensures Flatten(Tensor(outer, Tensor(inner, cell, innerMax), outerMax))
         == Flatten(Tensor(outer + inner, cell, outerMax + innerMax))
  {
    var nested := Flatten(Tensor(outer, Tensor(inner, cell, innerMax), outerMax));
    var merged := Flatten(Tensor(outer + inner, cell, outerMax + innerMax));
    var items := Flatten(cell);
    var innerItems := Flatten(Tensor(inner, cell, innerMax));
    assert innerItems == WithinTensor(inner, innerMax, items);
    assert nested == WithinTensor(outer, outerMax, innerItems);
    assert merged == WithinTensor(outer + inner, outerMax + innerMax, items);
    assert |nested| == |merged|;
    forall i | 0 <= i < |nested|
      ensures nested[i] == merged[i]
    {
      var item := items[i];
      assert outer + (inner + item.shape) == (outer + inner) + item.shape;
      assert outerMax + (innerMax + item.maxShape) == (outerMax + innerMax) + item.maxShape;
    }
  }

  // ---------------------------------------------------------------------
  // shape / max_shape arity

  /** Every Tensor in the tree has a max_shape of the same arity as its shape. */
  predicate ArityConsistent<D>(n: Node<D>)
    decreases n, 1
  {
    match n
    case Primitive(_) => true
    case FeatureDict(fields) => FieldsArityConsistent(fields)
    case Tensor(shape, cell, maxShape) => |maxShape| == |shape| && ArityConsistent(cell)
  }

  predicate FieldsArityConsistent<D>(fields: seq<(string, Node<D>)>)
    decreases fields, 0
  {
    fields != [] ==>
      var f := fields[0];
      assert f in fields && f.1 < f;
      ArityConsistent(f.1) && FieldsArityConsistent(fields[1..])
  }

  predicate RecordsArityConsistent<D>(rs: seq<FlatTensor<D>>)
  {
    forall i :: 0 <= i < |rs| ==> |rs[i].shape| == |rs[i].maxShape|
  }

  /** If every Tensor of the tree has |max_shape| == |shape|, every record
      emitted has |max_shape| == |shape|. */
  lemma {:induction false} FlattenKeepsArity<D>(n: Node<D>)
    requires ArityConsistent(n)
    ensures RecordsArityConsistent(Flatten(n))
    decreases n, 1
  {
    match n
    case Primitive(_) =>
    case FeatureDict(fields) => FieldsKeepArity(fields);
    case Tensor(shape, cell, maxShape) => FlattenKeepsArity(cell);
  }

  lemma {:induction false} FieldsKeepArity<D>(fields: seq<(string, Node<D>)>)
    requires FieldsArityConsistent(fields)
    ensures RecordsArityConsistent(FlattenFields(fields))
    decreases fields, 0
  {
    if fields != [] {
      var f := fields[0];
      assert f in fields && f.1 < f;
      FlattenKeepsArity(f.1);
      FieldsKeepArity(fields[1..]);
    }
  }

  /** The arity is not checked: a Tensor whose max_shape is longer than its
      shape emits a record whose shape and max_shape differ in arity. */
  lemma UncheckedArity<D>(d: D)
    ensures var r := Flatten(Tensor([Some(5)], Primitive(d), [Some(5), None]));
      |r| == 1 && |r[0].shape| == 1 && |r[0].maxShape| == 2
  {
  }

  /** A declaration all of whose built nodes are arity consistent. */
  predicate DeclArityConsistent<R, D>(decl: Decl<R, D>)
    decreases decl, 1
  {
    match decl
    case Dict(entries) => EntriesArityConsistent(entries)
    case Built(node) => ArityConsistent(node)
    case Raw(_) => true
  }

  predicate EntriesArityConsistent<R, D>(entries: seq<(string, Decl<R, D>)>)
    decreases entries, 0
  {
    entries != [] ==>
      var e := entries[0];
      assert e in entries && e.1 < e;
      DeclArityConsistent(e.1) && EntriesArityConsistent(entries[1..])
  }

  /** `featurify` introduces no arity mismatch of its own. */
  lemma {:induction false} FeaturifyKeepsArity<R, D>(decl: Decl<R, D>, normalize: R -> D)
    requires DeclArityConsistent(decl)
    ensures ArityConsistent(Featurify(decl, normalize))
    decreases decl, 1
  {
    match decl
    case Dict(entries) => EntriesKeepArity(entries, normalize);
    case Built(_) =>
    case Raw(_) =>
  }

  lemma {:induction false} EntriesKeepArity<R, D>(entries: seq<(string, Decl<R, D>)>, normalize: R -> D)
    requires EntriesArityConsistent(entries)
    ensures FieldsArityConsistent(FeaturifyEntries(entries, normalize))
    decreases entries, 0
  {
    if entries != [] {
      var e := entries[0];
      assert e in entries && e.1 < e;
      FeaturifyKeepsArity(e.1, normalize);
      EntriesKeepArity(entries[1..], normalize);
      var fields := FeaturifyEntries(entries, normalize);
      assert fields[0].1 == Featurify(e.1, normalize);
      assert fields[1..] == FeaturifyEntries(entries[1..], normalize);
    }
  }

  /** A Tensor built without a max_shape, with an empty one, or with one of
      the shape's arity, over an arity consistent declaration, is arity
      consistent. */
  lemma MakeTensorKeepsArity<R, D>(shape: Shape, dtype: Decl<R, D>, maxShape: Option<Shape>, normalize: R -> D)
    requires DeclArityConsistent(dtype)
    requires maxShape.None? || maxShape.value == [] || |maxShape.value| == |shape|
    ensures ArityConsistent(MakeTensor(shape, dtype, maxShape, normalize))
  {
    FeaturifyKeepsArity(dtype, normalize);
  }

  // ---------------------------------------------------------------------
  // paths

  /** A path is empty (a bare scalar at the root) or starts with '/'. */
  predicate Rooted(path: string)
  {
    path == [] || path[0] == '/'
  }

  /** The characters of `s` before its first '/'. */
  function Segment(s: string): (seg: string)
    ensures '/' !in seg
  {
    if s == [] || s[0] == '/' then [] else [s[0]] + Segment(s[1..])
  }

  /** The first field name of a path: what follows its leading '/' up to the next '/'. */
  function FirstSegment(path: string): string
  {
    if path == [] then [] else Segment(path[1..])
  }

  lemma {:induction false} SegmentOfPrefixed(key: string, rest: string)
    requires '/' !in key && Rooted(rest)
    ensures Segment(key + rest) == key
  {
    if key == [] {
      assert key + rest == rest;
    } else {
      assert (key + rest)[0] == key[0];
      assert (key + rest)[1..] == key[1..] + rest;
      SegmentOfPrefixed(key[1..], rest);
    }
  }

  /** Under a slash-free key, the first path segment of a re-emitted record
      is that key. */
  lemma FirstSegmentUnderKey(key: string, path: string)
    requires '/' !in key && Rooted(path)
    ensures FirstSegment("/" + key + path) == key
  {
    assert ("/" + key + path)[1..] == key + path;
    SegmentOfPrefixed(key, path);
  }

  /** Every record a FeatureDict emits has a path starting with '/'. */
  lemma {:induction false} FieldPathsStartWithSlash<D>(fields: seq<(string, Node<D>)>)
    ensures forall i :: 0 <= i < |FlattenFields(fields)| ==>
      |FlattenFields(fields)[i].path| > 0 && FlattenFields(fields)[i].path[0] == '/'
  {
    if fields != [] {
      FieldPathsStartWithSlash(fields[1..]);
    }
  }

  /** Every path emitted is empty or starts with '/'. */
  lemma {:induction false} PathsRooted<D>(n: Node<D>)
    ensures forall i :: 0 <= i < |Flatten(n)| ==> Rooted(Flatten(n)[i].path)
  {
    match n
    case Primitive(_) =>
    case FeatureDict(fields) => FieldPathsStartWithSlash(fields);
    case Tensor(_, cell, _) => PathsRooted(cell);
  }

  /** Every FeatureDict of the tree has keys without '/' and no key twice. */
  predicate WellKeyed<D>(n: Node<D>)
    decreases n, 1
  {
    match n
    case Primitive(_) => true
    case FeatureDict(fields) => FieldsWellKeyed(fields)
    case Tensor(_, cell, _) => WellKeyed(cell)
  }

  predicate FieldsWellKeyed<D>(fields: seq<(string, Node<D>)>)
    decreases fields, 0
  {
    fields != [] ==>
      var f := fields[0];
      assert f in fields && f.1 < f;
      && '/' !in f.0
      && f.0 !in Keys(fields[1..])
      && WellKeyed(f.1)
      && FieldsWellKeyed(fields[1..])
  }

  /** Every record of a FeatureDict with slash-free keys names, as its
      first path segment, the field it came from. */
  lemma {:induction false} FieldPathsKeyed<D>(fields: seq<(string, Node<D>)>)
    requires FieldsWellKeyed(fields)
    ensures forall i :: 0 <= i < |FlattenFields(fields)| ==>
      FirstSegment(FlattenFields(fields)[i].path) in Keys(fields)
  {
    if fields != [] {
      var f := fields[0];
      var items := Flatten(f.1);
      var r := FlattenFields(fields);
      PathsRooted(f.1);
      FieldPathsKeyed(fields[1..]);
      forall i | 0 <= i < |r|
        ensures FirstSegment(r[i].path) in Keys(fields)
      {
        if i < |items| {
          FirstSegmentUnderKey(f.0, items[i].path);
        } else {
          assert r[i] == FlattenFields(fields[1..])[i - |items|];
        }
      }
    }
  }

  /** Every record in field k's block has, as its first path segment, the
      key of field k itself, provided that key has no '/'. */
  lemma FieldPathsNameTheirField<D>(fields: seq<(string, Node<D>)>, k: nat, j: nat)
    requires k < |fields| && '/' !in fields[k].0 && j < |Flatten(fields[k].1)|
    ensures |FlattenFields(fields[..k])| + j < |FlattenFields(fields)|
    ensures FirstSegment(FlattenFields(fields)[|FlattenFields(fields[..k])| + j].path) == fields[k].0
  {
    FieldRecords(fields, k);
    PathsRooted(fields[k].1);
    FirstSegmentUnderKey(fields[k].0, Flatten(fields[k].1)[j].path);
  }

  predicate DistinctPaths<D>(rs: seq<FlatTensor<D>>)
  {
    forall i, j :: 0 <= i < j < |rs| ==> rs[i].path != rs[j].path
  }

  /** When every FeatureDict has distinct, slash-free keys, no two records
      share a path. */
  lemma {:induction false} PathsUnique<D>(n: Node<D>)
    requires WellKeyed(n)
    ensures DistinctPaths(Flatten(n))
    decreases n, 1
  {
    match n
    case Primitive(_) =>
    case FeatureDict(fields) => FieldPathsUnique(fields);
    case Tensor(_, cell, _) => PathsUnique(cell);
  }

  lemma {:induction false} FieldPathsUnique<D>(fields: seq<(string, Node<D>)>)
    requires FieldsWellKeyed(fields)
    ensures DistinctPaths(FlattenFields(fields))
    decreases fields, 0
  {
    if fields != [] {
      var f := fields[0];
      assert f in fields && f.1 < f;
      var items := Flatten(f.1);
      var rest := FlattenFields(fields[1..]);
      var r := FlattenFields(fields);
      PathsUnique(f.1);
      PathsRooted(f.1);
      FieldPathsUnique(fields[1..]);
      FieldPathsKeyed(fields[1..]);
      forall i, j | 0 <= i < j < |r|
        ensures r[i].path != r[j].path
      {
        if j < |items| {
          var prefix := "/" + f.0;
          assert r[i].path == prefix + items[i].path && r[j].path == prefix + items[j].path;
          assert (prefix + items[i].path)[|prefix|..] == items[i].path;
          assert (prefix + items[j].path)[|prefix|..] == items[j].path;
        } else if i < |items| {
          FirstSegmentUnderKey(f.0, items[i].path);
          assert r[j] == rest[j - |items|];
        } else {
          assert r[i] == rest[i - |items|] && r[j] == rest[j - |items|];
        }
      }
    }
  }

  /** Distinct keys alone do not make paths unique: a key containing '/'
      can spell the path of a nested field. */
  lemma SlashInKeyCollides<D>(d: D)
    ensures var r := Flatten(FeatureDict([("a", FeatureDict([("b", Primitive(d))])), ("a/b", Primitive(d))]));
      |r| == 2 && r[0].path == "/a/b" && r[1].path == "/a/b"
  {
    var leaf := [FlatTensor("", [], d, [])];
    var nested: seq<(string, Node<D>)> := [("b", Primitive(d))];
    var fields := [("a", FeatureDict(nested)), ("a/b", Primitive(d))];
    assert Flatten(Primitive(d)) == leaf;
    assert nested[1..] == [];
    assert "/" + "b" + "" == "/b";
    assert FlattenFields(nested) == UnderKey("b", leaf);
    var inner := Flatten(FeatureDict(nested));
    assert inner == [FlatTensor("/b", [], d, [])];
    assert "/" + "a" + "/b" == "/a/b";
    assert "/" + "a/b" + "" == "/a/b";
    assert fields[1..][1..] == [];
    assert FlattenFields(fields[1..]) == UnderKey("a/b", leaf);
    assert FlattenFields(fields) == UnderKey("a", inner) + UnderKey("a/b", leaf);
  }
}
