# XmlMarshaller, modelled in Dafny

`obj2xml.py` of python-javaobj turns a decoded Java serialization graph
into an XML document. Its `XmlMarshaller` dispatches every node through
an ordered type table (`TYPE_MAP`) to a renderer:
- objects, class descriptors, proxy class descriptors and strings are
  reference-tracked in one registry (`_references`). A first encounter
  is registered and emitted with `ref="n"`; every later encounter is a
  pointer, `<reference idx="n"/>`.
- an object's fields are flattened along its superclass chain.
- arrays, `java.util` maps and lists are objects with an `items` block.
- raw block data is literal text, or base64 when it holds a NUL byte or
  does not decode as UTF-8.
- the elements of primitive arrays become hexadecimal, `str()` or
  `True`/`False` text according to the array's type code.

The model has two layers.

- **`Render`** (`render.dfy`) is the specification. Every renderer is a
  function of:
  - the graph, a `Heap` from node ids to nodes; identity is id equality;
  - the registry so far, a `seq` of node ids;
  - the value to render;
  - a stack allowance `depth`.

  It returns a `Step`: the result (an `Xml` tree or a `Failure` standing
  for a Python exception) and the registry afterwards. The registry is
  returned even on failure, because registrations made before an
  exception survive it. Every renderer ensures `Extends`: the registry
  only grows at its end, and a registry without duplicates stays without
  duplicates (so a call that starts from an empty registry never
  registers a node twice).
- **`Marshalling.XmlMarshaller`** (`marshaller.dfy`) is the class the
  source defines. It has a mutable `references` field and one method per
  renderer, with the source's own loops. Each method is proved to return
  exactly the result its `Render` function gives, and to leave
  `references` at exactly the registry that function gives.

The other files:
- `typetable.dfy`: the dispatch table and an independent per-kind
  statement of where each kind of value goes.
- `hierarchy.dfy`: field flattening along the superclass chain.
- `leaves.dfy`: block data, primitive array elements and element modes.
- `numerals.dfy`: Python's `str()` and `hex()` of integers, with
  read-back.
- `base64.dfy`: RFC 4648 section 4 base 64.
- `utf8.dfy`: the byte strings Python 2.7's UTF-8 codec accepts.
- `javaobj.dfy`, `xml.dfy`: the input graph and the output tree.
- `render_facts.dfy`: the properties of the renderers.
- `contents.dfy`: what each rendering loop puts in item j, and the registry it starts from.

The Python stack is the `depth` parameter. A renderer frame that
recurses with `depth == 0` fails with `RecursionLimit`, the model's
`RuntimeError: maximum recursion depth exceeded`. A result that holds
for every `depth` therefore holds however deep the real stack is.

### Where the code departs from what identity tracking suggests

The model follows the code in each case.

- **The registry lives as long as the marshaller.** `marshall`
  (obj2xml.py:52-61) recreates the document but never clears
  `_references`. A second call on the same marshaller renders whatever
  the first call registered as pointers into the first document, so two
  calls are not independent. `RenderFacts.SecondMarshallSeesFirst`
  exhibits this for a string and `RenderFacts.LaterMarshallPointsBack`
  for any registered plain object.
- **Arrays, maps and lists re-render their items on a repeat encounter.**
  `do_array`, `do_map` and `do_list` (213-263) rename the pointer that
  `do_object` returns and then append an `items` block anyway. An
  `Object[]` that contains itself is never reduced to a pointer, so
  rendering it exhausts the stack at every depth: for these three kinds
  the registry neither renders each node once nor stops cycles.
  `RenderFacts.SelfArrayExhaustsStack` and
  `RenderFacts.RepeatedArrayRendersItemsAgain` cover this. Plain objects
  behave as the registry suggests: a field holding a registered plain
  object is a pointer to its index (`RenderFacts.RegisteredFieldIsPointer`),
  and an object holding itself renders once
  (`RenderFacts.SelfReferenceRendersOnce`).
- **The map and list filter keeps only annotation 0.** The filter is
  `idx < 1` (234, 252). In the `annotations` block, a map or list shows
  its header annotation and nothing else; the entries appear only in the
  `items` block, rendered from annotation 1 on. `RenderFacts.MapHeader`
  and `RenderFacts.ListHeader` state the whole element.
- **A map's annotation list must have odd length, or none.** With an
  even length of at least two, the last key has no value,
  `obj.annotations[i+1]` raises IndexError, and the whole call aborts.
  `RenderFacts.EvenMapAnnotationsFail` covers this.

## Model

| member | source | states |
|---|---|---|
| TypeTable.Lookup | obj2xml.py:23-50 | the `TYPE_MAP` table (`TypeTable.Table`) and the scan over it; no contract of its own, specified by `TypeTable.LookupIsFirstMatch` and `TypeTable.LookupByKind` |
| TypeTable.FirstMatch | obj2xml.py:45-48 | the position found is a table entry `v` is an instance of, or the table's end |
| TypeTable.FirstMatchSkips | obj2xml.py:45-48 | no entry the scan passes over matches `v`, so the position found is the first match |
| TypeTable.FirstMatchIs | obj2xml.py:45-48 | an entry `v` is an instance of, with no match before it, is the one the scan finds |
| TypeTable.LookupIsFirstMatch | obj2xml.py:44-50 | the handler chosen is an entry `v` is an instance of, with no matching entry before it; there is no handler exactly when `v` is an instance of no entry |
| TypeTable.LookupByKind | obj2xml.py:23-34 | the ordered table sends each kind of node where an independent per-kind definition says: arrays, maps, lists and enums reach their own renderers, not the JavaObject one; bool, int and float reach none |
| TypeTable.ObjectEntryOnlyForPlainObjects | obj2xml.py:24-29 | of all the JavaObject instances, exactly the plain objects reach `do_object` |
| Marshalling.FindHandler | obj2xml.py:44-50 | the table loop returns the handler `TypeTable.Lookup` specifies |
| Render.LookupAndExec | obj2xml.py:44-50 | dispatch only appends to the registry and never repeats a node in it |
| RenderFacts.UnknownValueAborts | obj2xml.py:50 | a value of no listed type aborts the call with the registry unchanged |
| RenderFacts.CollectionsKeepTheirKind | obj2xml.py:24-26 | a rendered array, map or list is an `array`, `map` or `list` element |
| RenderFacts.EnumIsOpaque | obj2xml.py:265-266 | an enum constant is the `enum` comment and registers nothing |
| Marshalling.XmlMarshaller.constructor | obj2xml.py:36 | a new marshaller's registry is empty |
| Marshalling.XmlMarshaller.LookupAndExec | obj2xml.py:44-50 | result and new registry are those of `Render.LookupAndExec` |
| Marshalling.XmlMarshaller.ExecCollection | obj2xml.py:44-48 | for an array, a map or a list, result and new registry are those of `Render.LookupAndExec` |
| Render.Marshall | obj2xml.py:52-61 | a result is one `root` element with one child per top-level node |
| Render.TopLevelFrom | obj2xml.py:58-59 | one rendering per remaining top-level node (the contents are in `RenderContents.TopLevelContent`) |
| RenderContents.TopLevelContent | obj2xml.py:58-59 | rendering j is the dispatch of top-level node i+j from the registry the dispatches before it leave, and the loop ends with the registry all of them leave |
| RenderContents.MarshallContent | obj2xml.py:52-61 | child j of `root` is the dispatch of top-level node j, each dispatch starting from the registry the previous ones leave |
| Marshalling.XmlMarshaller.Marshall | obj2xml.py:52-61 | result and new registry are those of `Render.Marshall` from the registry the marshaller holds |
| RenderFacts.MarshallRegistersOnce | obj2xml.py:79-80 | a call that starts from an empty registry never registers a node twice |
| RenderFacts.SecondMarshallSeesFirst | obj2xml.py:52-61 | a string rendered in full by one call is only a pointer in the next call on the same marshaller |
| RenderFacts.LaterMarshallPointsBack | obj2xml.py:52-61 | a plain object an earlier call registered is, in a later call, a `root` holding only the pointer to its index, with the registry unchanged |
| Render.DoValue | obj2xml.py:63-71 | a field value only appends to the registry |
| RenderFacts.FieldValueCases | obj2xml.py:63-71 | bool, int and float are their `str()` text (`True`/`False`, decimal) and register nothing; anything else is dispatched |
| Marshalling.XmlMarshaller.DoValue | obj2xml.py:63-71 | result and new registry are those of `Render.DoValue` |
| Render.IndexOf | obj2xml.py:76 | `index` gives the first position holding the node |
| RenderFacts.IndexOfStable | obj2xml.py:74-80 | in a registry without duplicates, the node at position k is found at k |
| RenderFacts.IndexOfPrefix | obj2xml.py:76 | appending to the registry does not move an earlier node's index |
| Render.DoObject | obj2xml.py:73-80 | an object renders as an element, and the registry only grows |
| RenderFacts.ObjectIdentityStable | obj2xml.py:73-83 | a first rendering takes the index equal to the registry's length and carries it as `ref`; every later encounter, however the registry grew, is a pointer to that index |
| RenderFacts.RegisteredObjectIsPointer | obj2xml.py:73-77 | dispatching a registered plain object gives the pointer to its index and registers nothing |
| RenderFacts.RegisterBeforeDescend | obj2xml.py:79-87 | an object is registered before its class descriptor, which takes the next index |
| Render.FreshObject | obj2xml.py:82-123 | a fresh object is an `object` element carrying its index, whose last child is `annotations` |
| Render.DescriptorPart | obj2xml.py:85-112 | the descriptor children only append to the registry |
| Hierarchy.FieldNames | obj2xml.py:88-93 | the `while tmpcls` walk; no contract of its own, specified by `Hierarchy.FieldNamesAlongChain`, `Hierarchy.OwnNamesFirst` and `Hierarchy.SelfSuperclassDiverges` |
| Hierarchy.FieldNamesAlongChain | obj2xml.py:88-93 | the flattened names are the concatenation of each class's own names along the superclass chain, in chain order; flattening fails exactly when the chain walk does, with the same failure |
| Hierarchy.ChainDistinct | obj2xml.py:88-93 | a chain walk that succeeds starts at the given class and visits no class twice |
| Hierarchy.FewerVisitedSameNames | obj2xml.py:88-93 | a flattening that succeeds gives the same names from any smaller set of walked classes |
| Hierarchy.OwnNamesFirst | obj2xml.py:90-93 | a class's flattened names are its own names, then its superclass's flattened names |
| Hierarchy.TwoLevelNames | obj2xml.py:90-93 | with one superclass: own names, then the superclass's, duplicates kept |
| Hierarchy.SelfSuperclassDiverges | obj2xml.py:90-93 | a class that is its own superclass makes the walk diverge |
| Marshalling.CollectFieldNames | obj2xml.py:88-93 | the `while tmpcls` loop returns `Hierarchy.FieldNames` |
| Render.FieldsFrom | obj2xml.py:96-110 | one `field` element per flattened name, in order, named by it; a name the object lacks holds the null marker |
| RenderContents.FieldsContent | obj2xml.py:97-109 | field j is named by name i+j and holds exactly `Render.FieldValue` of that name, taken from the registry the earlier fields leave |
| Render.FieldValue | obj2xml.py:100-107 | a field never raises AttributeError; a missing attribute is the null marker with the registry unchanged; a present one is exactly what `do_value` gives for its value, except that an AttributeError from it becomes the null marker, keeping the registry `do_value` left |
| RenderFacts.PresentFieldCases | obj2xml.py:100-107 | a present bool, int or float field is its `str()` text and registers nothing; any other present value is its dispatch, an AttributeError from it becoming the null marker |
| RenderFacts.RegisteredFieldIsPointer | obj2xml.py:100-107 | a field holding an already registered plain object is the pointer to that object's index, with the registry unchanged |
| RenderFacts.FieldsFollowHierarchy | obj2xml.py:85-110 | a fresh object whose descriptor is a class has three children, the middle one the `fields` block: one `field` per flattened name, in order, named by it, holding the null marker when the object lacks the name; the flattening succeeds |
| Render.AnnotationsFrom | obj2xml.py:114-121 | without a filter, one `annotation` per annotation; with `idx < 1`, at most annotation 0 (the contents are in the two lemmas below) |
| RenderContents.AnnotationsContent | obj2xml.py:114-121 | without a filter, annotation j holds the dispatch of annotation i+j from the registry the earlier dispatches leave |
| RenderContents.HeaderAnnotationContent | obj2xml.py:114-121 | with `idx < 1`, the block succeeds exactly when dispatching annotation 0 does, and is then one `annotation` holding that dispatch, with its registry |
| RenderFacts.HeaderObjectContent | obj2xml.py:82-123 | a fresh object under `idx < 1` is its descriptor children followed by an `annotations` block holding only the dispatch of annotation 0 |
| Marshalling.XmlMarshaller.DoObject | obj2xml.py:73-123 | result and new registry are those of `Render.DoObject` |
| Marshalling.XmlMarshaller.DescriptorChildren | obj2xml.py:85-112 | result and new registry are those of `Render.DescriptorPart` |
| Marshalling.XmlMarshaller.FieldElements | obj2xml.py:97-109 | the field loop: result and new registry are those of `Render.FieldsFrom` |
| Marshalling.XmlMarshaller.AnnotationElements | obj2xml.py:114-121 | result and new registry are those of `Render.AnnotationsFrom` |
| Render.DoClass | obj2xml.py:143-171 | a class descriptor renders as an element, and the registry only grows |
| Render.SuperclassPart | obj2xml.py:158-161 | exactly one child when the link is present and truthy, none otherwise; that child is the superclass's own `do_class` rendering renamed `superclass`, with the registry `do_class` leaves |
| Render.FieldDecls | obj2xml.py:163-169 | one declaration per pair of `zip(names, types)`, the shorter list deciding the count, each with that pair's name and type |
| RenderFacts.ClassIdentityStable | obj2xml.py:143-152 | a first rendering registers the class at the registry's length; later encounters point to that index |
| RenderFacts.ClassElementShape | obj2xml.py:149-169 | a fresh class carries its index, its name, and its handle, serial and flags in hex; it has a `superclass` child exactly when the link is truthy, and ends with its own field declarations only |
| RenderFacts.NonClassDescriptorRegistersThenFails | obj2xml.py:149-153 | a descriptor that is not a class is registered, then raises AttributeError |
| RenderFacts.SharedSuperclassIsRenamedPointer | obj2xml.py:158-161 | an already registered superclass appears as a pointer renamed `superclass` |
| Marshalling.FieldDeclarations | obj2xml.py:164-168 | the loop returns `Render.FieldDecls` |
| Marshalling.XmlMarshaller.DoClass | obj2xml.py:143-171 | result and new registry are those of `Render.DoClass` |
| RenderFacts.ProxyIdentityStable | obj2xml.py:174-181 | a first rendering registers the proxy class at the registry's length and carries that index; later encounters point to that index |
| Render.DoProxyClass | obj2xml.py:174-199 | a proxy class descriptor renders as an element, and the registry only grows |
| Render.InterfaceNames | obj2xml.py:192-197 | one `proxyInterfaceName` element per interface name, in order, holding the name |
| RenderFacts.ProxyElementShape | obj2xml.py:180-197 | a fresh proxy class carries its index, plus `handle` exactly when the handle is nonzero; its last child lists the interface names in order |
| Marshalling.InterfaceNameElements | obj2xml.py:193-196 | the loop returns `Render.InterfaceNames` |
| Marshalling.XmlMarshaller.DoProxyClass | obj2xml.py:174-199 | result and new registry are those of `Render.DoProxyClass` |
| Render.DoString | obj2xml.py:128-141 | dispatching a string only appends to the registry |
| RenderFacts.StringIdentityStable | obj2xml.py:128-141 | a first rendering is a `string` element with its index and text, and registers it; later encounters point to that index, with the text as a comment |
| Marshalling.XmlMarshaller.DoString | obj2xml.py:128-141 | result and new registry are those of `Render.DoString` |
| Leaves.DoBlockData | obj2xml.py:202-211 | `do_blockdata`; no contract of its own, specified by `Leaves.BlockDataLossless`, `Leaves.NulMeansBase64`, `Leaves.InvalidUtf8MeansBase64` and `Leaves.AsciiIsLiteral` |
| Leaves.BlockDataLossless | obj2xml.py:202-211 | block data reads back to the same bytes, whether emitted as text or as base64 |
| Leaves.NulMeansBase64 | obj2xml.py:204-205 | a block holding a NUL byte is base64 |
| Leaves.InvalidUtf8MeansBase64 | obj2xml.py:206-211 | a block that is not valid UTF-8 is base64 |
| Leaves.AsciiIsLiteral | obj2xml.py:206-207 | 7-bit text without NUL is emitted literally |
| Base64.Encode | obj2xml.py:210 | the encoding's length is a multiple of four |
| Base64.DecodeEncode | obj2xml.py:210 | decoding the encoding gives the bytes back |
| Utf8.EncodedIsValid | obj2xml.py:206 | every UTF-8 encoding of code points is accepted by the decoder |
| Utf8.AsciiIsValid | obj2xml.py:206 | 7-bit ASCII is accepted by the decoder |
| JavaObj.BytesAsChars | obj2xml.py:207 | a literal block keeps each byte's code, in order |
| Render.DoArray | obj2xml.py:213-231 | dispatching an array only appends to the registry |
| Render.ArrayItemsFrom | obj2xml.py:217-225 | one `item` per element, in order, each with one child (the contents are in `RenderContents.ArrayItemsContent`) |
| RenderContents.ArrayItemsContent | obj2xml.py:217-225 | item j holds the rendering of element i+j by the array's element mode, from the registry the earlier elements leave |
| Leaves.ElementModeOf | obj2xml.py:221-224 | the `classdesc.name[1] in ('L', '[')` test; no contract of its own, used by `RenderFacts.HexElement`, `RenderFacts.IntegerElementsAsHex` and `RenderFacts.SelfArrayElementIsDispatched` |
| Render.ArrayElement | obj2xml.py:221-224 | an element only appends to the registry |
| RenderFacts.RepeatedArrayRendersItemsAgain | obj2xml.py:213-231 | a registered array is the pointer to its index renamed `array`, holding the `items` block that the element loop renders from the unchanged registry, one item per element |
| RenderFacts.ArrayUnfold | obj2xml.py:213-231 | a fresh array is its full `do_object` rendering, renamed `array`, with the `items` block of the element loop appended |
| RenderFacts.IntegerElementsAsHex | obj2xml.py:268-282 | int, long, short and byte elements become hex text, in order, registering nothing |
| RenderFacts.HexElement | obj2xml.py:268-282 | one int, long, short or byte element of a primitive array is its hex text, registering nothing |
| RenderFacts.UnknownElementTypeFails | obj2xml.py:268-284 | an unknown primitive type code fails the array as soon as it has an element |
| RenderFacts.SelfArrayExists | obj2xml.py:213-224 | a graph with an object array containing itself exists |
| RenderFacts.SelfArrayElementIsDispatched | obj2xml.py:221-222 | that array's element is dispatched back to the array renderer |
| RenderFacts.SelfObjectPartFailsOnlyOnDepth | obj2xml.py:214 | its object part can fail only by exhausting the stack |
| RenderFacts.RegisteredSelfArrayExhaustsStack | obj2xml.py:213-231 | once registered, it exhausts the stack at every depth |
| RenderFacts.FreshSelfArrayExhaustsStack | obj2xml.py:213-231 | a first encounter exhausts the stack as well |
| RenderFacts.SelfArrayExhaustsStack | obj2xml.py:213-231 | a self-containing array yields no document at any depth |
| Leaves.DoScalar | obj2xml.py:268-284 | `_do_value`; no contract of its own, specified by `Leaves.HexElementsReadBack`, `Leaves.BooleanElements` and `Leaves.UnknownTagYieldsNothing` |
| Leaves.HexElementsReadBack | obj2xml.py:269-282 | hex element text reads back as the element's value |
| Leaves.BooleanElements | obj2xml.py:283-284 | boolean elements are `True` or `False` |
| Leaves.UnknownTagYieldsNothing | obj2xml.py:268-284 | a type code outside the eight yields no node |
| Numerals.HexRoundTrip | obj2xml.py:154-156 | `hex(i)` reads back as `i` |
| Numerals.DecimalRoundTrip | obj2xml.py:83 | `str(i)` reads back as `i` |
| Numerals.DecimalInjective | obj2xml.py:76 | distinct indices have distinct texts |
| Marshalling.XmlMarshaller.DoArray | obj2xml.py:213-231 | result and new registry are those of `Render.DoArray` |
| Marshalling.XmlMarshaller.ArrayItems | obj2xml.py:217-225 | result and new registry are those of `Render.ArrayItemsFrom` |
| Render.DoMap | obj2xml.py:233-249 | dispatching a map only appends to the registry |
| Render.MapItemsFrom | obj2xml.py:238-243 | one item per (key, value) pair, named by the key's `str()`; an odd number of annotations left from the start position (an even total, for a loop from annotation 1) raises IndexError |
| RenderContents.MapItemsContent | obj2xml.py:238-243 | a successful loop covers the annotations exactly in pairs; item j is named by the `str()` of key i+2j and holds the dispatch of value i+2j+1, from the registry the earlier values leave |
| RenderFacts.MapShape | obj2xml.py:233-249 | a rendered map's `annotations` block has one child when there are annotations and none otherwise (that it is annotation 0's dispatch is `RenderFacts.MapHeader`), and it has `(n-1)/2` items, item j named by annotation 1+2j |
| RenderFacts.MapUnfold | obj2xml.py:233-249 | a fresh map is its `do_object` rendering under `idx < 1`, renamed `map`, with the `items` block of the pair loop appended |
| RenderFacts.MapHeader | obj2xml.py:233-249 | a fresh map with annotations is: its index, its descriptor children, an `annotations` block holding only the dispatch of annotation 0, then the `items` block of the pair loop from annotation 1 |
| RenderFacts.EvenMapAnnotationsFail | obj2xml.py:239-242 | an even annotation count of at least two aborts the call |
| Marshalling.XmlMarshaller.DoMap | obj2xml.py:233-249 | result and new registry are those of `Render.DoMap` |
| Marshalling.XmlMarshaller.MapItems | obj2xml.py:238-243 | result and new registry are those of `Render.MapItemsFrom` |
| Render.DoList | obj2xml.py:251-263 | dispatching a list only appends to the registry |
| Render.ListItemsFrom | obj2xml.py:255-259 | one `item` per annotation after the first, in order |
| RenderContents.ListItemsContent | obj2xml.py:255-259 | item j holds the dispatch of annotation i+j from the registry the earlier dispatches leave |
| RenderFacts.ListShape | obj2xml.py:251-263 | a rendered list has `n-1` items |
| RenderFacts.ListUnfold | obj2xml.py:251-263 | a fresh list is its `do_object` rendering under `idx < 1`, renamed `list`, with the `items` block of the item loop appended |
| RenderFacts.ListHeader | obj2xml.py:251-263 | a fresh list with annotations is: its index, its descriptor children, an `annotations` block holding only the dispatch of annotation 0, then the `items` block from annotation 1 |
| Marshalling.XmlMarshaller.DoList | obj2xml.py:251-263 | result and new registry are those of `Render.DoList` |
| Marshalling.XmlMarshaller.ListItems | obj2xml.py:255-259 | result and new registry are those of `Render.ListItemsFrom` |
| RenderFacts.SelfReferenceRendersOnce | obj2xml.py:73-123 | an object whose field holds itself renders once in full, with its class, and the field is a pointer to index 0 |
| RenderFacts.SelfObjectField | obj2xml.py:97-109 | the field of an object that holds itself renders as a pointer to index 0 |

## Left out

- The DOM is left out. `xml.dom.minidom` and `toprettyxml` are replaced by the `Xml` tree; the text layout and escaping are not modelled.
- Logging is left out; it has no effect on the result.
- The command-line entry point (obj2xml.py:296-312) is left out: it only does file and stream I/O and printing.
- The stream parser that builds the graph (`javaobj`) is outside the core. The graph is an input, `Heap`; javaobj.py is not part of this model.
- `__remove_childs` (287-291) is left out: nothing calls it and it does nothing.
- `marshall`'s `list(obj)` coercion of a non-list iterable is left out: the model takes a sequence of top-level values.
- Python's `in` and `index` on `_references` compare with `==`, and the model compares node identity. What `==` means for the parser's node classes (some may derive from `str`, `list` or `dict` and compare by content) depends on javaobj.py, which is not part of this model.
- `str()` of a float is left opaque: a float value carries the text `str()` gives it. A char array element is whatever value the parser stores, rendered by `PyStr`.
- The `L` suffix Python 2's `hex()` gives a `long` is not modelled; `Numerals.Hex` is `0x` followed by lower-case digits, with a leading `-` for negatives.
- `str()` on non-ASCII unicode text can raise UnicodeEncodeError in Python 2. The model takes it as total.
- A Python 2 `long` field value is not an `int` instance, so `do_value` (63-71) sends it to the dispatcher, which finds no handler and raises RuntimeError. The model's `Int` stands for both and is always rendered as text.
- A repeated string's pointer holds its text as a comment (131). minidom refuses a comment containing `--` and raises ValueError when `toprettyxml` writes it. The model, which has no serialisation step, emits the comment whatever its text.
- `depth` counts renderer frames only, not the exact Python frames, so the recursion limit sits at a different nesting level than in the source.
- Marshalling.CollectFieldNames: where the source's `while tmpcls` loop never ends on a cyclic superclass chain, the model stops with `Diverges`.
- The `field_types` accumulation and the `lookup` dict (89, 92, 95) are left out: nothing reads them.
- Truthiness is approximated. `Truthy` treats a string or array node as false when empty and every other node as true, whereas a Python map or list node with no entries may be false. This only matters where such a node is a superclass link or a boolean array element.
- `getattr(obj, field)` can also find Python attributes of the object itself (`classdesc`, `annotations`) when a field has such a name. The model looks up the field map only.
- tests.py is not modelled: it exercises the parser, not the marshaller.
