# Hub feature schemas: declaration and flattening

This project models the schema layer of Hub's `hub/features/features.py`.
A user declares a nested schema made of three things. A dict maps field names
to declarations. A `Tensor` has a shape, an optional max_shape and an element
declaration. Anything else is a raw element type. `featurify` turns such a
declaration into a tree of schema nodes (`Primitive`, `FeatureDict`,
`Tensor`). `_flatten` turns that tree into a flat list of `FlatTensor(path,
shape, dtype, max_shape)` leaf descriptors, one per scalar element type.

Files:

- `features.dfy` (module `Features`): the data model and the operations. It
  holds the `FlatTensor` record, the `Node` tree and the `Decl` declarations.
  It also holds `Featurify`, the three constructors (`MakePrimitive`,
  `MakeFeatureDict`, `MakeTensor`) and `Flatten`.
- `properties.dfy` (module `FeatureProperties`): lemmas about `Featurify`
  and `Flatten`. They cover record counts, the FeatureDict and Tensor
  rewriting rules, nested Tensor composition, shape/max_shape arity and path
  uniqueness.
- `scenarios.dfy` (module `FeatureScenarios`): worked declarations and the
  exact records they flatten to.

Modelling decisions:

- The element-type registry `hub.dtype` is external. Every operation that
  builds a `Primitive` takes it as a parameter `normalize: R -> D`. `R` is
  the raw type descriptor and `D` the canonical dtype, both left abstract.
- A dimension is `Option<nat>`. `None` stands for Python's `None`, an
  unbounded dimension.
- A Python dict keeps insertion order. It is modelled as a sequence of
  `(key, value)` pairs. Python dict keys are distinct. Dafny sequences do not
  enforce that, so the path-uniqueness lemma states it as a precondition
  (`WellKeyed`).
- Nodes are immutable values, not heap objects. The source assigns each
  field once, in the constructor, and never again.
- The `Decl` datatype stands for the three cases that `featurify` tells
  apart with `isinstance`: `Dict`, `Built` (an already constructed node)
  and `Raw`.

Behaviour of the code worth knowing:

- Distinct keys do not make paths unique. A key that contains `/` can spell
  the path of a nested field. For example, `{"a": {"b": t}, "a/b": t}`
  flattens to two records whose path is `/a/b` (`SlashInKeyCollides`).
  Uniqueness is proved only when every key is free of `/` and no dict repeats
  a key (`PathsUnique`).
- `max_shape or shape` also falls back to shape when max_shape is the empty
  tuple `()`, because `()` is falsy (`EffectiveMaxShape`,
  `EmptyMaxShapeFallsBack`).
- Tensor does not check that shape and max_shape have the same arity
  (`UncheckedArity`). Equal arity of every record is proved under the
  hypothesis that every Tensor has it (`FlattenKeepsArity`).

## Model

| member | source | states |
|---|---|---|
| `Features.MakePrimitive` | hub/features/features.py:30-35 | the raw type is normalised once, at construction, and the Primitive flattens to exactly one record: path `""`, shape `()`, the normalised dtype, max_shape `()` |
| `Features.Featurify` | hub/features/features.py:21-27 | a dict declaration becomes a FeatureDict with the same keys in the same order; a built node is returned unchanged; anything else becomes `Primitive(normalize(raw))` |
| `Features.MakeFeatureDict` | hub/features/features.py:38-42 | the FeatureDict has one field per dict entry, with the same keys in the same order |
| `Features.FeaturifyEntries` | hub/features/features.py:40-42 | the dict comprehension keeps every key, in insertion order |
| `Features.EffectiveMaxShape` | hub/features/features.py:53-56 | a max_shape of `None` or `()` falls back to shape; any other max_shape is kept as given |
| `Features.MakeTensor` | hub/features/features.py:52-56 | the Tensor keeps its shape, featurifies its element declaration and defaults its max_shape; with no max_shape, an empty one or one of the shape's arity, max_shape and shape have equal arity |
| `Features.Flatten` | hub/features/features.py:30-65 | the number of records emitted equals the number of Primitive leaves of the tree |
| `Features.FlattenFields` | hub/features/features.py:44-49 | a FeatureDict emits as many records as its fields have Primitive leaves in total, which is the sum of its children's output lengths |
| `FeatureProperties.FeaturifyIdempotent` | hub/features/features.py:24-25 | featurifying an already featurified declaration changes nothing |
| `FeatureProperties.FeaturifyEntriesPointwise` | hub/features/features.py:40-42 | entry i of the comprehension is the i-th key with its featurified value |
| `FeatureProperties.FeaturifyDict` | hub/features/features.py:22-23 | a dict becomes a FeatureDict whose i-th field is the i-th key with its value featurified |
| `FeatureProperties.PrimitiveFlatten` | hub/features/features.py:30-35 | a Primitive, built directly or through featurify, emits exactly one record: path `""`, shape `()`, the normalised dtype, max_shape `()` |
| `FeatureProperties.FlattenFieldsAppend` | hub/features/features.py:45-49 | the output for a list of fields is the output for its first part followed by the output for its second part |
| `FeatureProperties.FieldRecords` | hub/features/features.py:44-49 | field k's records form one block in the child's own order, right after the earlier fields' records; each has path "/" + key + the child's path, and the child's shape, dtype and max_shape unchanged |
| `FeatureProperties.TensorRecords` | hub/features/features.py:58-65 | a Tensor emits one record per cell record, in the same order; path and dtype stay the same; shape and max_shape get the Tensor's own dimensions in front |
| `FeatureProperties.NestedTensors` | hub/features/features.py:58-65 | a Tensor of a Tensor flattens exactly like one Tensor over the concatenated shapes and concatenated max_shapes |
| `FeatureProperties.FlattenKeepsArity` | hub/features/features.py:30-65 | if every Tensor of the tree has a max_shape of its shape's arity, every emitted record has a max_shape of its shape's arity |
| `FeatureProperties.FieldsKeepArity` | hub/features/features.py:44-49 | a FeatureDict whose children are arity consistent emits only arity consistent records |
| `FeatureProperties.UncheckedArity` | hub/features/features.py:53-64 | arity is not checked: a Tensor with shape `(5,)` and max_shape `(5, None)` emits a record with a shape of arity 1 and a max_shape of arity 2 |
| `FeatureProperties.FeaturifyKeepsArity` | hub/features/features.py:21-27 | featurify adds no arity mismatch: a declaration whose built nodes are arity consistent yields an arity consistent tree |
| `FeatureProperties.EntriesKeepArity` | hub/features/features.py:40-42 | featurifying dict entries keeps every field arity consistent |
| `FeatureProperties.MakeTensorKeepsArity` | hub/features/features.py:53-56 | a Tensor built with no max_shape, with `()`, or with one of the shape's arity, over an arity consistent declaration, is arity consistent |
| `FeatureProperties.FirstSegmentUnderKey` | hub/features/features.py:48 | under a key without `/`, the first segment of "/" + key + child path is the key |
| `FeatureProperties.FieldPathsStartWithSlash` | hub/features/features.py:47-49 | every record a FeatureDict emits has a path starting with `/` |
| `FeatureProperties.PathsRooted` | hub/features/features.py:34-65 | every emitted path is empty or starts with `/` |
| `FeatureProperties.FieldPathsKeyed` | hub/features/features.py:44-49 | if the FeatureDict and every dict below it have distinct keys without `/`, the first segment of every record's path is one of the FeatureDict's keys |
| `FeatureProperties.FieldPathsNameTheirField` | hub/features/features.py:44-49 | every record in field k's block has the key of field k as its first path segment, provided that key has no `/` |
| `FeatureProperties.PathsUnique` | hub/features/features.py:34-65 | if every FeatureDict has distinct keys without `/`, no two emitted records share a path |
| `FeatureProperties.FieldPathsUnique` | hub/features/features.py:44-49 | a FeatureDict with distinct keys without `/` and well-keyed children emits pairwise distinct paths |
| `FeatureProperties.SlashInKeyCollides` | hub/features/features.py:48 | distinct keys alone do not make paths unique: `{"a": {"b": t}, "a/b": t}` emits two records with path `/a/b` |
| `FeatureScenarios.ScalarField` | hub/features/features.py:38-49 | `{"a": "int32"}` flattens to exactly one record: `/a`, `()`, int32, `()` |
| `FeatureScenarios.FixedTensor` | hub/features/features.py:52-65 | `Tensor((10, 10), "float32")` flattens to exactly one record: `""`, `(10, 10)`, float32, `(10, 10)` |
| `FeatureScenarios.ImageAndLabel` | hub/features/features.py:38-65 | `{"img": Tensor((256, 256), "uint8"), "label": "int64"}` flattens to the image record, then the label record |
| `FeatureScenarios.UnboundedMaxShape` | hub/features/features.py:52-65 | `Tensor((5,), "float32", max_shape=(None,))` keeps max_shape `(None,)` in its record |
| `FeatureScenarios.EmptyMaxShapeFallsBack` | hub/features/features.py:56 | `Tensor((3,), "float32", max_shape=())` emits max_shape `(3,)` |
| `FeatureScenarios.NestedDicts` | hub/features/features.py:38-49 | `{"outer": {"inner": "bool"}}` flattens to exactly one record with path `/outer/inner` |

## Left out

- `hub.dtype` (hub/features/features.py:32) is an external registry and is not part of this model. It is the parameter `normalize`. The errors it raises for unknown types propagate unchanged in the source and are not modelled.
- `_flatten` is a generator that yields records lazily. The model returns the whole finite sequence at once. The order and contents are the same.
- The abstract `FeatureConnector._flatten`, which raises `NotImplementedError` (hub/features/features.py:16-18), is not modelled. With a closed set of node variants it cannot be reached.
- Python's runtime `isinstance` tests and object identity are not modelled. The three `Decl` variants stand for the three `isinstance` outcomes. Nodes are values, so the model cannot tell two equal nodes apart or observe one node shared by two parents.
- Dict keys are modelled as strings. Keys of other types are left out, even though the f-string would format them. Repeated keys in a Dict declaration cannot occur in a Python dict. Only the path-uniqueness lemmas exclude them.
- Dimensions are `Option<nat>`. Negative sizes are left out, and so are non-tuple shape values, for which Python's `+` would fail or behave differently.
