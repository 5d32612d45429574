/** Worked declarations and the records they flatten to. The registry is
    left abstract: `normalize` maps each type name to whatever canonical
    element type it stands for. */
module FeatureScenarios {
  import opened Features
  import opened FeatureProperties

  /** {"a": "int32"} flattens to one record at "/a" with an empty shape. */
  lemma ScalarField<D>(normalize: string -> D)
    ensures Flatten(Featurify(Dict([("a", Raw("int32"))]), normalize))
         == [FlatTensor("/a", [], normalize("int32"), [])]
  {
    var entries: seq<(string, Decl<string, D>)> := [("a", Raw("int32"))];
    FeaturifyDict(entries, normalize);
    var fields := Featurify(Dict(entries), normalize).fields;
    var leaf := [FlatTensor("", [], normalize("int32"), [])];
    assert fields == [("a", Primitive(normalize("int32")))];
    assert fields[1..] == [];
    assert FlattenFields(fields) == UnderKey("a", leaf);
    assert "/" + "a" + "" == "/a";
  }

  /** Tensor(shape=(10, 10), dtype="float32") flattens to one record at the
      root whose max_shape defaults to its shape. */
  lemma FixedTensor<D>(normalize: string -> D)
    ensures Flatten(MakeTensor([Some(10), Some(10)], Raw("float32"), None, normalize))
         == [FlatTensor("", [Some(10), Some(10)], normalize("float32"), [Some(10), Some(10)])]
  {
    assert [Some(10), Some(10)] + [] == [Some(10), Some(10)];
  }

  /** Two fields flatten in declaration order: the image tensor, then the label. */
  lemma ImageAndLabel<D>(normalize: string -> D)
    ensures
      var image := MakeTensor([Some(256), Some(256)], Raw("uint8"), None, normalize);
      Flatten(Featurify(Dict([("img", Built(image)), ("label", Raw("int64"))]), normalize))
      == [ FlatTensor("/img", [Some(256), Some(256)], normalize("uint8"), [Some(256), Some(256)]),
           FlatTensor("/label", [], normalize("int64"), []) ]
  {
    var dims := [Some(256), Some(256)];
    var image := MakeTensor(dims, Raw("uint8"), None, normalize);
    var entries: seq<(string, Decl<string, D>)> := [("img", Built(image)), ("label", Raw("int64"))];
    FeaturifyDict(entries, normalize);
    var fields := Featurify(Dict(entries), normalize).fields;
    assert fields == [("img", image), ("label", Primitive(normalize("int64")))];
    assert fields[1..][1..] == [];
    assert dims + [] == dims;
    var imageRecords := [FlatTensor("", dims, normalize("uint8"), dims)];
    var labelRecords := [FlatTensor("", [], normalize("int64"), [])];
    assert Flatten(image) == imageRecords;
    assert FlattenFields(fields[1..]) == UnderKey("label", labelRecords);
    assert FlattenFields(fields) == UnderKey("img", imageRecords) + UnderKey("label", labelRecords);
    assert "/" + "img" + "" == "/img";
    assert "/" + "label" + "" == "/label";
  }

  /** An explicit max_shape with an unbounded dimension is kept as given. */
  lemma UnboundedMaxShape<D>(normalize: string -> D)
    ensures Flatten(MakeTensor([Some(5)], Raw("float32"), Some([None]), normalize))
         == [FlatTensor("", [Some(5)], normalize("float32"), [None])]
  {
    assert [Some(5)] + [] == [Some(5)];
    var unbounded: Shape := [None];
    assert unbounded + [] == unbounded;
  }

  /** An empty max_shape is falsy, so it falls back to the shape. */
  lemma EmptyMaxShapeFallsBack<D>(normalize: string -> D)
    ensures Flatten(MakeTensor([Some(3)], Raw("float32"), Some([]), normalize))
         == [FlatTensor("", [Some(3)], normalize("float32"), [Some(3)])]
  {
    assert [Some(3)] + [] == [Some(3)];
  }

  /** Nested dicts compose their keys into one multi-segment path. */
  lemma NestedDicts<D>(normalize: string -> D)
    ensures Flatten(Featurify(Dict([("outer", Dict([("inner", Raw("bool"))]))]), normalize))
         == [FlatTensor("/outer/inner", [], normalize("bool"), [])]
  {
    var innerEntries: seq<(string, Decl<string, D>)> := [("inner", Raw("bool"))];
    FeaturifyDict(innerEntries, normalize);
    var innerNode := Featurify(Dict(innerEntries), normalize);
    var leaf := [FlatTensor("", [], normalize("bool"), [])];
    assert innerNode.fields == [("inner", Primitive(normalize("bool")))];
    assert innerNode.fields[1..] == [];
    assert FlattenFields(innerNode.fields) == UnderKey("inner", leaf);
    assert "/" + "inner" + "" == "/inner";
    var innerRecords := [FlatTensor("/inner", [], normalize("bool"), [])];
    assert Flatten(innerNode) == innerRecords;
    var entries: seq<(string, Decl<string, D>)> := [("outer", Dict(innerEntries))];
    FeaturifyDict(entries, normalize);
    var fields := Featurify(Dict(entries), normalize).fields;
    assert fields == [("outer", innerNode)];
    assert fields[1..] == [];
    assert FlattenFields(fields) == UnderKey("outer", innerRecords);
    assert "/" + "outer" + "/inner" == "/outer/inner";
  }
}
