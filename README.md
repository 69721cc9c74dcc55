# libSerialization, Maya back end — a Dafny model

libSerialization turns Python objects into Maya scene data and back.
`export_network` writes an object as a *network* node: one Maya user
attribute per public field. `import_network` rebuilds the object from
such a node. This project models the serializer's Maya back end
(`MayaSerializer` in `libSerialization/plugin_maya.py`) and the
module-level graph helpers that find networks in a scene.

It models:

- **Values** (`values.dfy`).
  - `Wrappers` holds `Option`, `Result` and one error constructor per kind of failure.
  - `MayaValues` holds the closed set of Python values the serializer is handed. `int` and `long` are separate constructors, because Python 2 tells them apart by type, not by size.
  - It also holds the storage categories (`get_data_type`, with the dictionary serializer's classifier as the parameter `base`) and `is_valid_PyNode`.
- **Attribute shapes** (`schemas.dfy`). `create_attr` is a pure function from a name and a value to an attribute schema, `None`, or an error.
- **Writing** (`attributes.dfy`).
  - A network node is a value: attributes by long name, plus the order they were added in.
  - `set_attr` is the function `Write` and the method `WritePlug`; the method carries its element loop.
  - `add_attr` is the function `AddAttrSpec`.
  - `Storable`/`Encode`/`Decode` are an independent account of what a write stores. A storable value is a string, a bool, a 32-bit int or a float, or a one-level list of such scalars all of the first element's kind.
- **Reading** (`reading.dfy`).
  - A node is seen as the answers Maya gives about its plugs.
  - `get_network_attr` is `ReadPlug`.
  - `import_network` is the function `ImportSpec` and the method `ImportNetwork`; the method has the source's three loops.
  - The class registry `_get_class_by_name` is the parameter `resolve`.
- **Exporting** (`exporting.dfy`).
  - `Scene` is a class whose fields are updated in place: the network nodes by identity, the `_network` back-references of live objects, the next node identity, and the connections requested.
  - `Scene.ExportNetwork` reuses or creates the node, then runs the writing loop.
  - `Scene.RecordImport` is the back-reference `import_network` sets on the object it rebuilds, so that exporting that object again reuses its network.
  - The writing loop is the module-level method `ExportItems`, specified by the function `ExportFrom`.
  - `ExportImportRoundTrip` proves that importing an exported object of storable fields gives back its fields.
- **Traversal** (`traversal.dfy`).
  - The scene is a `Graph` value.
  - `ls` and `networks` are two views of the scene's networks; `Listed` ties them together.
  - It models `str.split('.')`, `isNetworkInstanceOfClass`, `getNetworksByClass`, `getConnectedNetworks` (a method with its two nested loops and its recursion) and `getConnectedNetworksByHierarchy` (a method with its upward loop).

Places where the model follows the code rather than an evident intention:

- **Tuples.** `create_attr` tests `isinstance(type, tuple)` (line 64). That is always false, so a tuple reaches the final `pymel.error`, and `CreateAttr` gives tuples an error.
- **Dictionary classes.** `import_network` sets the fields of a dictionary class with `attr_name.longName()` on a `str` (line 328). So importing a dictionary class with at least one field raises, and `ReadFields` fails there.
- **Matrices and vectors.** `set_attr` dereferences `plug = None` for matrices and vectors (lines 179-195). `Write` reports that as an error.

## Model

| member | source | states |
|---|---|---|
| MayaValues.IsValidPyNode | libSerialization/plugin_maya.py:11-12 | Defines `is_valid_PyNode`: true exactly for a live node or attribute reference. `ValidPyNodeIsDagNode` relates it to the categories. |
| MayaValues.GetDataType | libSerialization/plugin_maya.py:29-40 | Defines `get_data_type`: a pymel value is a reference, anything else gets the base classifier's answer. Its properties are the three lemmas below. |
| MayaValues.PymelOverridesBase | libSerialization/plugin_maya.py:35-40 | A pymel value (node, attribute, matrix, vector) is a reference whatever the base classifier says; for every other value, two classifiers give the same category exactly when they agree. |
| MayaValues.ValidPyNodeIsDagNode | libSerialization/plugin_maya.py:11-12 | A value that `is_valid_PyNode` accepts (a live node or attribute) is always in the DAG-reference category. |
| MayaValues.ListCategoryIsSequence | libSerialization/plugin_maya.py:35-40 | Once the pymel check has passed, the list category only holds lists and tuples, given a base classifier that only reports sequences as lists. |
| Schemas.CreateAttr | libSerialization/plugin_maya.py:42-114 | The schema it builds carries the requested long name. |
| Schemas.ScalarSchemas | libSerialization/plugin_maya.py:43-59 | Strings, bools, `int`s and floats each get exactly their own kind (a bool is never an int) and never an array. |
| Schemas.LongRejected | libSerialization/plugin_maya.py:52-114 | A `long` of any size, `5L` included, passes none of the type tests and reaches the final `pymel.error`. |
| Schemas.ListSchemaFromHead | libSerialization/plugin_maya.py:64-70 | A non-empty list's schema depends only on its first element; it is that element's schema marked as an array. |
| Schemas.NoArrayForEmptyOrTuple | libSerialization/plugin_maya.py:64-67 | An empty list gives no attribute; a tuple of any length raises. |
| Schemas.AttrRefSchema | libSerialization/plugin_maya.py:86-105 | A dead attribute gives None; `doubleAngle` gives an angle unit and `time` a time unit; any other attribute type gives exactly the schema of its current value. |
| Schemas.SkippedIff | libSerialization/plugin_maya.py:42-114 | `create_attr` returns None if and only if the value is an empty list, a dead attribute, or a live attribute with no unit type whose current value is itself skipped. |
| Schemas.VectorSchema | libSerialization/plugin_maya.py:76-85 | A vector is a non-array double3 compound whose children are exactly the name followed by `X`, `Y` and `Z`, pairwise distinct and different from the name. |
| Attributes.Write | libSerialization/plugin_maya.py:147-214 | Defines `set_attr` on the data of one plug: the data stored, the connections requested, and whether it raised. `WritePlug` implements it; `WriteScalar`, `WriteStorable`, `WriteListInOrder` and `DecodeEncode` are its properties. |
| Attributes.WritePlug | libSerialization/plugin_maya.py:147-214 | `set_attr` with its element loop yields exactly the plug data, the connections and the status that `Write` defines. A list write keeps an existing array's cells past the list; an int outside 32 bits raises. |
| Attributes.WriteScalar | libSerialization/plugin_maya.py:157-166 | Writing a storable scalar stores its encoding, whatever the plug held, connects nothing and completes. |
| Attributes.LongIgnored | libSerialization/plugin_maya.py:157-166 | A `long` in the basic category matches none of the `isinstance` tests. The plug keeps its data, nothing is linked, and the write completes. |
| Attributes.WriteStorable | libSerialization/plugin_maya.py:147-166 | For a standard classifier, writing a storable value requests no connection and completes. It stores the value's encoding, followed by the old cells past the list when the plug already held a longer array. |
| Attributes.DecodeEncode | libSerialization/plugin_maya.py:147-166 | The stored data of a storable value determines the value: decoding it gives the value back. |
| Attributes.WriteListInOrder | libSerialization/plugin_maya.py:149-156 | A completed list write gives an array as long as the longer of the list and the old array. Cell `j` of the list is what writing element `j` alone into the old cell `j` stores; the cells past the list are the old ones. |
| Attributes.AddAttrSpec | libSerialization/plugin_maya.py:116-145 | Defines `add_attr` on a node value. `AddAttrTo` implements it; the `Add…` lemmas below are its properties. |
| Attributes.AddEmptySequenceUnchanged | libSerialization/plugin_maya.py:119-122 | An empty sequence never changes the node; for a standard classifier and a list, nothing is linked or raised either. |
| Attributes.AddWithoutSchemaUnchanged | libSerialization/plugin_maya.py:131-134 | A new name whose value has no schema leaves the node unchanged; the call raises exactly when `create_attr` raised and the empty-sequence skip did not apply. |
| Attributes.AddReusesExisting | libSerialization/plugin_maya.py:124-145 | An existing attribute is written in place: same names, order, schema and nice name, and every other attribute is untouched. Unless the value is a skipped empty sequence, the attribute's data, the connections and the status are those of writing the value over its old data. |
| Attributes.AddCreatesNew | libSerialization/plugin_maya.py:131-145 | A new attribute is added last in the order with its schema, its name as nice name, and the data of a write from nothing; the other attributes are untouched. |
| Attributes.AddKeepsNodeValid | libSerialization/plugin_maya.py:116-145 | `add_attr` keeps the order listing every attribute exactly once. |
| Reading.ReadPlug | libSerialization/plugin_maya.py:216-238 | Defines `get_network_attr` on a plug view. `ReadMulti` and `ReadSingle` are its properties. |
| Reading.ReadMulti | libSerialization/plugin_maya.py:218-219 | A multi plug reads as the list of its elements' reads, in physical index order, and fails exactly when one element fails. |
| Reading.ReadSingle | libSerialization/plugin_maya.py:221-238 | Covers every case of a single plug: an unconnected message reads None; a connected plug with no input raises; a message whose source has `_class` reads the imported object; otherwise it reads the source node; a connected plug reads its source plug; an unconnected plug reads its stored value. |
| Reading.ImportSpec | libSerialization/plugin_maya.py:289-345 | Defines `import_network` on a node view. `ImportNetwork` implements it; `ImportOutcomes`, `ImportedFields` and `ImportSucceeds` are its properties. |
| Reading.ImportNetwork | libSerialization/plugin_maya.py:289-345 | `import_network` with its attribute, compound-child and field loops returns exactly `ImportSpec`. |
| Reading.ImportOutcomes | libSerialization/plugin_maya.py:290-298 | A node without `_class` raises; a class that does not resolve gives None. |
| Reading.PublicFromSpec | libSerialization/plugin_maya.py:307-310 | `attrs_by_longname` is built only when every name is non-empty; it then holds exactly the names not starting with `_`, each with its own attribute. |
| Reading.KeptAttrs | libSerialization/plugin_maya.py:312-321 | After the children are popped, exactly the public names that are not a child of a public compound remain, each with its own attribute. |
| Reading.ReadFieldsSpec | libSerialization/plugin_maya.py:323-330 | The field loop sets exactly the kept names, each to its plug's read; it keeps class, back-reference and earlier fields, and sets nothing on a dictionary class. |
| Reading.ImportedFields | libSerialization/plugin_maya.py:289-345 | A successful import has the resolved class, the network back-reference unless the class is a dictionary, the post-build flag of the class, and exactly the kept names as fields, each read from its plug. |
| Reading.ImportSucceeds | libSerialization/plugin_maya.py:289-345 | A node with distinct non-empty names, whose `_class` (with `_class_module` when present) resolves to a non-dictionary class, and whose kept plugs all read, imports as an object of that class. |
| Exporting.ExportFrom | libSerialization/plugin_maya.py:276-282 | Defines the writing loop of `export_network` from item `i` on; it keeps the node valid. `ExportItems` implements it; `ExportedNode` and the lemmas below are its properties. |
| Exporting.ExportItem | libSerialization/plugin_maya.py:277-280 | A None value, or a private key other than `_class`, writes nothing; a non-None value under an empty key raises. |
| Exporting.Scene.NetworkFor | libSerialization/plugin_maya.py:251-265 | Reuses the object's recorded live network unchanged; otherwise creates a fresh node named by the naming hook or the class name and records it on the object unless it is a dict. |
| Exporting.Scene.RecordImport | libSerialization/plugin_maya.py:302-304 | Records the network of an imported object that is not a dict in the back-references, changing nothing else. A later export of that object then reuses the network as it stands. |
| Exporting.Scene.ExportNetwork | libSerialization/plugin_maya.py:240-282 | Returns the reused or new node; with the reuse and creation cases as in `NetworkFor`, the node ends as `ExportFrom` of that node, the connections are appended, and the scene stays valid. |
| Exporting.AddAttrTo | libSerialization/plugin_maya.py:116-145 | The method form of `AddAttrSpec`, through which `ExportItems` is tied to `ExportFrom`. It returns exactly `AddAttrSpec`, whose properties are the `Add…` lemmas. |
| Exporting.ExportItems | libSerialization/plugin_maya.py:276-282 | The loop over the dictionary items returns exactly `ExportFrom`, stopping at the first raise. |
| Exporting.ExportWritesOnlyKept | libSerialization/plugin_maya.py:277-280 | Every attribute the loop adds is named by an item that is non-None, public or `_class`, not an empty sequence, and has a schema. |
| Exporting.PrivateNeverWritten | libSerialization/plugin_maya.py:279 | A private key other than `_class` never becomes an attribute. |
| Exporting.EmptyListNotExported | libSerialization/plugin_maya.py:119-122 | A key whose values are all empty lists never becomes an attribute. |
| Exporting.ExportedNode | libSerialization/plugin_maya.py:240-282 | Exports storable values under distinct non-empty keys, none a built-in attribute name, into a fresh node. The export completes, connects nothing, keeps the node valid, and leaves exactly the kept keys, each with its expected attribute. |
| Exporting.ImportOfExported | libSerialization/plugin_maya.py:289-345 | Importing a node written that way gives an object with the class named in `_class` and the node as back-reference. Its fields are exactly the kept keys other than `_class`, each equal to its exported value. |
| Exporting.ExportImportRoundTrip | libSerialization/plugin_maya.py:240-345 | Export then import, with storable values under distinct non-empty keys, none a built-in attribute name, and a `_class` that resolves to a non-dictionary class. The export completes, the import succeeds, and every kept field comes back equal to its exported value. |
| Traversal.JoinSplit | libSerialization/plugin_maya.py:366 | `split('.')` gives dot-free pieces that join back to the string. |
| Traversal.SplitJoin | libSerialization/plugin_maya.py:366 | Splitting dot-free pieces joined by dots gives the pieces back. |
| Traversal.IsNetworkInstanceOfClass | libSerialization/plugin_maya.py:365-366 | Defines `isNetworkInstanceOfClass`: the network has `_class`, and the class name is one of its dot-separated pieces. `InstanceOfPath` and `DottedNameNeverMatches` are its properties. |
| Traversal.InstanceOfPath | libSerialization/plugin_maya.py:365-366 | A network whose `_class` is a dotted path is an instance of a class name if and only if the name is one of the path's pieces. |
| Traversal.DottedNameNeverMatches | libSerialization/plugin_maya.py:365-366 | A class name containing a dot matches no network. |
| Traversal.GetNetworksByClass | libSerialization/plugin_maya.py:369-370 | A node is in the result if and only if it is listed as a network and is an instance of the class. |
| Traversal.NetworksByClassListed | libSerialization/plugin_maya.py:369-370 | When `ls` lists each network once, the result holds each network of the class exactly once. |
| Traversal.Visit | libSerialization/plugin_maya.py:374-391 | Defines the walk of `getConnectedNetworks` over the objects from `i` on, with `inArray` so far. `GetConnectedNetworks` implements it; `ConnectedNetworks`, `ConnectedNetworksComplete` and `ConnectedNetworksShallow` are its properties. |
| Traversal.GetConnectedNetworks | libSerialization/plugin_maya.py:374-391 | The nested loops and the recursion, sharing `inArray`, return exactly the walk `Visit` defines from the given or an empty `inArray`. |
| Traversal.ConnectedNetworks | libSerialization/plugin_maya.py:374-391 | Without duplicates, every network found is accepted by `key` and reachable from one of the objects. Without a key, the walk finishes when the bound covers the scene's networks. |
| Traversal.ConnectedNetworksComplete | libSerialization/plugin_maya.py:382-390 | Without a key and recursively, every network reachable from one of the objects is found. |
| Traversal.VisitShallow | libSerialization/plugin_maya.py:384-390 | A non-recursive walk finishes and only adds direct message outputs of the objects. |
| Traversal.VisitShallowComplete | libSerialization/plugin_maya.py:384-390 | A non-recursive walk keeps what `inArray` held and appends every accepted network among the objects' direct message outputs. |
| Traversal.ConnectedNetworksShallow | libSerialization/plugin_maya.py:374-391 | With `recursive=False`, the result holds each accepted direct network output of the objects exactly once, and nothing else. |
| Traversal.Upward | libSerialization/plugin_maya.py:397-403 | Defines the upward loop of `getConnectedNetworksByHierarchy` from `obj`, with the set gathered so far. `GetConnectedNetworksByHierarchy` implements it; `UpwardSound`, `UpwardComplete` and `UpwardShallow` are its properties. |
| Traversal.GetConnectedNetworksByHierarchy | libSerialization/plugin_maya.py:397-403 | The upward loop returns exactly the union, level by level, that `Upward` defines, and raises when it reaches a node outside the DAG. |
| Traversal.UpwardSound | libSerialization/plugin_maya.py:397-403 | Everything gathered is an accepted network reachable from the object or one of its ancestors, and a direct output of one when the walk is not recursive. The only error is a node outside the DAG on the way up. Without a key and under the bound, the walk succeeds if and only if the whole chain is in the DAG, and it finishes. |
| Traversal.UpwardComplete | libSerialization/plugin_maya.py:394-403 | A gathering that succeeds without running out of fuel holds everything `getConnectedNetworks` finds from the object and from each of its ancestors; a non-recursive gathering never runs out of fuel. |
| Traversal.UpwardShallow | libSerialization/plugin_maya.py:394-403 | With its default `recursive=False`, a gathering that does not raise holds exactly the accepted networks that are direct message outputs of the object or one of its ancestors. |

## Left out

- Maya and pymel calls (`createNode`, `addAttribute`, `findPlug`, `MDagModifier`) are not called. The scene is the `Scene` fields for writing, `NetView` for reading, and `Graph` for traversal.
- The connections `set_attr` makes for complex values and live references are recorded as the values to connect (`links`). The message edges they would create are not built.
- The nested `export_network` that `set_attr` runs for a complex value (line 170) is not performed. The value is recorded in `links`.
- The `_uid` attribute added to each network (lines 267-270) is not modelled. It is private, holds no value, and `import_network` skips it.
- `export_dict` (the core dictionary serializer) is not part of this model. Its result reaches `ExportNetwork` as the sequence `items`, in the order `dict.items()` yields it.
- `_get_class_by_name` is not part of this model. It is the `resolve` parameter, and `ClassInfo` records whether the class is a dict and whether its instances have `__callbackNetworkPostBuild__`.
- The module-level `export_network` and `import_network` wrappers (lines 355-362) only construct a serializer and delegate. The profiler decorator and logging have no model.
- Logical versus physical element indices are not modelled. Element `i` is written to cell `i` and read back from cell `i`. `setNumElements` only pre-sizes the array: existing cells past a shorter list are kept, and `Write` keeps them.
- `addAttribute` failing (lines 138-142) is not modelled. Adding an attribute always succeeds.
- Node names are not made unique. A node keeps the name it was created with.
- Reading: a node's attribute views form a finite tree, so a cycle of message connections between networks is not represented.
- Python truthiness of values is not modelled: `is_valid_PyNode` is true exactly for live nodes and attributes.
- Reading.ImportNetwork: fields are visited in `listAttr` order, not in the arbitrary order of the Python 2 dictionary `attrs_by_longname`. The two agree on the fields set, because names are distinct; they may differ on which error a failing import reports.
- Traversal.GetConnectedNetworks: the recursion depth is bounded by `fuel` and the result records whether the bound was reached. Without a key, the walk provably finishes once `fuel` covers the scene's networks. With a key that rejects a network on a cycle, the source recurses until CPython raises `RuntimeError: maximum recursion depth exceeded`. `exhausted` stands for that error. An acyclic chain deeper than the recursion limit (about 1000 nested calls) also raises in the source, while the model finishes when `fuel` is large enough. The source appends to the caller's own `inArray` list in place (lines 386-388 and 391), so a caller that passes `inArray` sees it grow. The model returns the grown list as a new value (`Walk.found`) and does not capture that aliasing.
- Traversal.GetConnectedNetworksByHierarchy: the result is the set itself, not the arbitrarily ordered `list(set)`. It passes only `key` through `**kwargs`: an `inArray` keyword would be shared across levels in the source and is not modelled. The DAG parent relation is assumed acyclic, through a ghost rank. The `AttributeError` of `getParent()` on a node outside the DAG is the error `NotDagNode`.
- `getConnectedNetworks` wraps a single non-iterable object into a list (lines 379-380). The model always takes a sequence of objects.
- Exporting.Scene.ExportNetwork: the writing loop runs on a node value, and the node is stored back once at the end. Nothing else can observe the node between two `add_attr` calls.
- The matrix and vector writes of `set_attr` (lines 186-195) raise, as the `None` dereference at those lines does. The model records no data for them.
- Attributes.WritePlug: the plug is untyped. Any data can be stored in any attribute, whatever its kind: lists with elements of mixed kinds, a scalar over another kind, nested lists as nested arrays. Maya would coerce or reject these. A list written over a plug that holds non-array data starts from an empty array.
- Attributes.WriteStorable: states the stored data only for storable values (one-level, same-kind lists; ints of 32 bits). For other values, `Write` is still defined, but the model promises nothing about how Maya would convert them.
- Exporting.ExportImportRoundTrip: holds for storable values only, for the same reason as `WriteStorable`. Exporting.ImportOfExported and Exporting.ExportedNode have the same scope.
- Float precision is not modelled. `kFloat` is single precision, but `FloatTag` is opaque, so the round trip says nothing about rounding.
- MayaValues.VInt: the integer is not bounded by `sys.maxint`. Python 2 never makes an `int` beyond it, since larger results become `long`s. A `VInt` that large stands for no Python value; the model gives it the `kInt` schema, and writing it raises `setInt`'s overflow.
- The `OverflowError` of `setInt` (line 162) on an `int` outside 32 bits comes from how the Maya binding converts arguments. The model raises `IntOverflow` there and leaves the plug unchanged.
- Exporting.ExportedNode: `findPlug` also finds Maya's built-in attributes (`BuiltinNames`: `message`, `caching`, `nodeState` and the rest, with their short names) and the children of compound attributes. The model's node holds only user attributes, so the round-trip lemmas exclude keys with those names, and writing over built-in attributes is not modelled.
- Reading.ImportSucceeds: requires the node's long names to be distinct, which Maya guarantees for the attributes of one node.
- Traversal.GetConnectedNetworks: completeness is proved for the non-recursive walk (`ConnectedNetworksShallow`) and for the recursive walk without a key (`ConnectedNetworksComplete`). For a recursive walk with a key, only soundness is proved (`ConnectedNetworks`). The key can reject a network that the walk still recurses through, so the closure argument used without a key does not carry over.
