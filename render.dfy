/** What `XmlMarshaller` produces, as functions of the decoded graph and of
    the reference registry (`_references`) before the call.

    Every renderer returns a `Step`: the element it builds, or the exception
    it raises, together with the registry as it stands afterwards (on an
    exception, as it stood at the raise: the source never undoes a
    registration).

    `depth` is the number of renderer frames the Python stack still allows.
    Each renderer that can recurse (`_lookup_and_exec`, `do_value`,
    `do_object`, `do_class`, `do_proxyclass`, `do_array`, `do_map`,
    `do_list`) uses one and raises RecursionLimit when none is left. */
module Render {
  import opened Basics
  import opened JavaObj
  import opened Xml
  import Numerals
  import TypeTable
  import Leaves
  import Hierarchy

  /** `_references`: every registered node, in registration order. The
      position of a node is the index its first rendering carries. */
  type Refs = seq<NodeId>

  datatype Step<+T> = Step(result: Result<T>, refs: Refs)

  predicate NoDup(s: Refs)
  {
    forall i, j :: 0 <= i < j < |s| ==> s[i] != s[j]
  }

  /** The registry only grows at its end, and never registers a node twice. */
  predicate Extends(before: Refs, after: Refs)
  {
    |before| <= |after| &&
    (forall k :: 0 <= k < |before| ==> before[k] == after[k]) &&
    (NoDup(before) ==> NoDup(after))
  }

  /** `list.index`: the first position holding `id`. */
  function IndexOf(s: Refs, id: NodeId): (k: nat)
    requires id in s
    ensures k < |s| && s[k] == id
    ensures forall j :: 0 <= j < k ==> s[j] != id
  {
    if s[0] == id then 0 else 1 + IndexOf(s[1..], id)
  }

  /** What is left of a list-building loop after `acc` has been built:
      `acc` in front of the rest on success, the rest's failure otherwise. */
  function Prepend<T>(acc: seq<T>, s: Step<seq<T>>): Step<seq<T>>
  {
    if s.result.Ok? then Step(Ok(acc + s.result.value), s.refs) else s
  }

  lemma PrependNothing<T>(s: Step<seq<T>>)
    ensures Prepend([], s) == s
  {
    if s.result.Ok? {
      assert [] + s.result.value == s.result.value;
    }
  }

  /** One more element built: the loop's accumulator grows by it. */
  lemma PrependOne<T>(acc: seq<T>, x: T, s: Step<seq<T>>)
    ensures Prepend(acc, Prepend([x], s)) == Prepend(acc + [x], s)
  {
    if s.result.Ok? {
      assert acc + ([x] + s.result.value) == (acc + [x]) + s.result.value;
    }
  }

  /** The `annot_filter` argument of `do_object`: none, or `idx < 1`. */
  datatype AnnotationFilter = KeepAll | KeepHeader

  predicate Keeps(filter: AnnotationFilter, idx: nat)
  {
    filter.KeepAll? || idx < 1
  }

  /** `_lookup_and_exec`: the first renderer of the table whose class `v` is
      an instance of; RuntimeError (NoHandler) when there is none. */
  function LookupAndExec(h: Heap, refs: Refs, v: Value, depth: nat): (r: Step<Xml>)
    ensures Extends(refs, r.refs)
    decreases depth, 0, 0
  {
    if depth == 0 then Step(Err(RecursionLimit), refs)
    else match TypeTable.Lookup(h, v)
      case None => Step(Err(NoHandler), refs)
      case Some(t) =>
        (match t
         case JavaArray => DoArray(h, refs, v.id, depth - 1)
         case JavaMap => DoMap(h, refs, v.id, depth - 1)
         case JavaList => DoList(h, refs, v.id, depth - 1)
         case JavaEnum => Step(Ok(EnumMarker), refs)
         case JavaString => DoString(h, refs, v.id)
         case JavaObject => DoObject(h, refs, v.id, KeepAll, depth - 1)
         case JavaClass => DoClass(h, refs, v.id, depth - 1)
         case JavaProxyClass => DoProxyClass(h, refs, v.id, depth - 1)
         case ByteString => Step(Ok(Leaves.DoBlockData(v.bytes)), refs)
         case NoneType => Step(Ok(NullMarker), refs))
  }

  /** `do_value`: a bool, int or float becomes its `str()` text; anything
      else goes to the dispatcher. */
  function DoValue(h: Heap, refs: Refs, v: Value, depth: nat): (r: Step<Xml>)
    ensures Extends(refs, r.refs)
    decreases depth, 0, 0
  {
    if depth == 0 then Step(Err(RecursionLimit), refs)
    else if v.Bool? || v.Int? || v.Float? then Step(Ok(Text(PyStr(h, v))), refs)
    else LookupAndExec(h, refs, v, depth - 1)
  }

  /** `do_object`: a pointer on a repeat encounter; otherwise the node is
      registered first and then rendered in full. */
  function DoObject(h: Heap, refs: Refs, id: NodeId, filter: AnnotationFilter, depth: nat): (r: Step<Xml>)
    requires id in h && h[id].IsObject()
    ensures Extends(refs, r.refs)
    ensures r.result.Ok? ==> r.result.value.Element?
    decreases depth, 0, 0
  {
    if depth == 0 then Step(Err(RecursionLimit), refs)
    else if id in refs then Step(Ok(Reference(IndexOf(refs, id))), refs)
    else FreshObject(h, refs + [id], |refs|, h[id].obj, filter, depth - 1)
  }

  /** The full rendering of a just-registered object with index `ref`: its
      descriptor part, then its annotations. */
  function FreshObject(h: Heap, refs: Refs, ref: nat, obj: ObjectData,
                       filter: AnnotationFilter, depth: nat): (r: Step<Xml>)
    ensures Extends(refs, r.refs)
    ensures r.result.Ok? ==>
      r.result.value.Element? && r.result.value.tag == "object" &&
      r.result.value.attrs == [RefAttr(ref)] && |r.result.value.children| >= 1 &&
      r.result.value.children[|r.result.value.children| - 1].Element? &&
      r.result.value.children[|r.result.value.children| - 1].tag == "annotations"
    decreases depth, 3, 0
  {
    var p := DescriptorPart(h, refs, obj, depth);
    if p.result.Err? then Step(Err(p.result.failure), p.refs)
    else
      var a := AnnotationsFrom(h, p.refs, obj.annotations, filter, 0, depth);
      if a.result.Err? then Step(Err(a.result.failure), a.refs)
      else Step(Ok(Element("object", [RefAttr(ref)],
                           p.result.value + [Element("annotations", [], a.result.value)])),
                a.refs)
  }

  /** The children `do_object` derives from the class descriptor: for a class,
      its rendering and the `fields` block over the flattened field names;
      for a proxy class, its rendering; otherwise nothing. */
  function DescriptorPart(h: Heap, refs: Refs, obj: ObjectData, depth: nat): (r: Step<seq<Xml>>)
    ensures Extends(refs, r.refs)
    decreases depth, 2, 0
  {
    match obj.classdesc
    case None => Step(Ok([]), refs)
    case Some(c) =>
      if c in h && h[c].ClassNode? then
        var k := DoClass(h, refs, c, depth);
        if k.result.Err? then Step(Err(k.result.failure), k.refs)
        else match Hierarchy.FieldNames(h, obj.classdesc, {})
          case Err(f) => Step(Err(f), k.refs)
          case Ok(names) =>
            var fs := FieldsFrom(h, k.refs, obj, names, 0, depth);
            if fs.result.Err? then Step(Err(fs.result.failure), fs.refs)
            else Step(Ok([k.result.value, Element("fields", [], fs.result.value)]), fs.refs)
      else if c in h && h[c].ProxyClassNode? then
        var k := DoProxyClass(h, refs, c, depth);
        if k.result.Err? then Step(Err(k.result.failure), k.refs)
        else Step(Ok([k.result.value]), k.refs)
      else Step(Ok([]), refs)
  }

  /** The `field` elements for `names[i..]`, in order. */
  function FieldsFrom(h: Heap, refs: Refs, obj: ObjectData, names: seq<string>, i: nat, depth: nat)
    : (r: Step<seq<Xml>>)
    requires i <= |names|
    ensures Extends(refs, r.refs)
    ensures r.result.Ok? ==> |r.result.value| == |names| - i
    ensures r.result.Ok? ==> forall j :: 0 <= j < |r.result.value| ==>
      r.result.value[j].Element? && r.result.value[j].tag == "field" &&
      r.result.value[j].attrs == [Attr("name", names[i + j])] &&
      |r.result.value[j].children| == 1 &&
      (names[i + j] !in obj.fields ==> r.result.value[j].children[0] == NullMarker)
    decreases depth, 1, |names| - i
  {
    if i == |names| then Step(Ok([]), refs)
    else
      var s := FieldValue(h, refs, obj, names[i], depth);
      if s.result.Err? then Step(Err(s.result.failure), s.refs)
      else
        var rest := FieldsFrom(h, s.refs, obj, names, i + 1, depth);
        if rest.result.Err? then Step(Err(rest.result.failure), rest.refs)
        else Step(Ok([Wrap("field", [Attr("name", names[i])], s.result.value)] + rest.result.value),
                  rest.refs)
  }

  /** The `try` around `getattr(obj, field)` and `do_value`: a missing
      attribute, and any AttributeError raised while rendering the value,
      gives the null marker; the registrations made before the raise stay. */
  function FieldValue(h: Heap, refs: Refs, obj: ObjectData, name: string, depth: nat): (r: Step<Xml>)
    ensures Extends(refs, r.refs)
    ensures r.result != Err(AttributeError)
    ensures name !in obj.fields ==> r == Step(Ok(NullMarker), refs)
    ensures name in obj.fields ==>
      var s := DoValue(h, refs, obj.fields[name], depth);
      r == if s.result == Err(AttributeError) then Step(Ok(NullMarker), s.refs) else s
    decreases depth, 1, 0
  {
    if name !in obj.fields then Step(Ok(NullMarker), refs)
    else
      var s := DoValue(h, refs, obj.fields[name], depth);
      if s.result == Err(AttributeError) then Step(Ok(NullMarker), s.refs) else s
  }

  /** The `annotation` elements for `anns[i..]` that the filter keeps. */
  function AnnotationsFrom(h: Heap, refs: Refs, anns: seq<Value>, filter: AnnotationFilter,
                           i: nat, depth: nat): (r: Step<seq<Xml>>)
    requires i <= |anns|
    ensures Extends(refs, r.refs)
    ensures filter.KeepAll? && r.result.Ok? ==> |r.result.value| == |anns| - i
    ensures filter.KeepHeader? && i >= 1 ==> r == Step(Ok([]), refs)
    ensures filter.KeepHeader? && r.result.Ok? ==>
      |r.result.value| == (if i == 0 && |anns| > 0 then 1 else 0)
    ensures r.result.Ok? ==> forall j :: 0 <= j < |r.result.value| ==>
      r.result.value[j].Element? && r.result.value[j].tag == "annotation" &&
      |r.result.value[j].children| == 1
    decreases depth, 1, |anns| - i
  {
    if i == |anns| then Step(Ok([]), refs)
    else if !Keeps(filter, i) then AnnotationsFrom(h, refs, anns, filter, i + 1, depth)
    else
      var s := LookupAndExec(h, refs, anns[i], depth);
      if s.result.Err? then Step(Err(s.result.failure), s.refs)
      else
        var rest := AnnotationsFrom(h, s.refs, anns, filter, i + 1, depth);
        if rest.result.Err? then Step(Err(rest.result.failure), rest.refs)
        else Step(Ok([Wrap("annotation", [], s.result.value)] + rest.result.value), rest.refs)
  }

  /** `do_class`. The node is registered before anything can fail: a
      descriptor that is not a class still takes an index and then raises
      AttributeError when its `name` is read. */
  function DoClass(h: Heap, refs: Refs, id: NodeId, depth: nat): (r: Step<Xml>)
    ensures Extends(refs, r.refs)
    ensures r.result.Ok? ==> r.result.value.Element?
    decreases depth, 0, 0
  {
    if depth == 0 then Step(Err(RecursionLimit), refs)
    else if id in refs then Step(Ok(Reference(IndexOf(refs, id))), refs)
    else if id !in h || !h[id].ClassNode? then Step(Err(AttributeError), refs + [id])
    else
      var c := h[id];
      var sup := SuperclassPart(h, refs + [id], c.superclass, depth - 1);
      if sup.result.Err? then Step(Err(sup.result.failure), sup.refs)
      else Step(Ok(Element("class", ClassAttrs(|refs|, c),
                           sup.result.value + [Element("fields", [], FieldDecls(c.fieldNames, c.fieldTypes))])),
                sup.refs)
  }

  /** The attributes of a `class` element, in the order they are set. */
  function ClassAttrs(ref: nat, c: Node): seq<Attr>
    requires c.ClassNode?
  {
    [RefAttr(ref), Attr("name", c.name), Attr("handle", Numerals.Hex(c.handle)),
     Attr("serial", Numerals.Hex(c.serial)), Attr("flags", Numerals.Hex(c.flags))]
  }

  /** `if cls.superclass:` — the superclass rendering, renamed `superclass`,
      when the link is present and truthy. */
  function SuperclassPart(h: Heap, refs: Refs, s: Option<NodeId>, depth: nat): (r: Step<seq<Xml>>)
    ensures Extends(refs, r.refs)
    ensures r.result.Ok? ==> |r.result.value| <= 1
    ensures r.result.Ok? ==>
      |r.result.value| == if s.Some? && Truthy(h, Instance(s.value)) then 1 else 0
    ensures r.result.Ok? && |r.result.value| == 1 ==>
      r.result.value[0].Element? && r.result.value[0].tag == "superclass"
    ensures r.result.Ok? && |r.result.value| == 1 ==>
      var k := DoClass(h, refs, s.value, depth);
      k.result.Ok? && r == Step(Ok([Retag(k.result.value, "superclass")]), k.refs)
    decreases depth, 1, 0
  {
    if s.None? || !Truthy(h, Instance(s.value)) then Step(Ok([]), refs)
    else
      var k := DoClass(h, refs, s.value, depth);
      if k.result.Err? then Step(Err(k.result.failure), k.refs)
      else Step(Ok([Retag(k.result.value, "superclass")]), k.refs)
  }

  /** One `field` declaration per pair of `zip(fields_names, fields_types)`:
      the shorter list decides how many. */
  function FieldDecls(names: seq<string>, types: seq<string>): (r: seq<Xml>)
    ensures |r| == if |names| <= |types| then |names| else |types|
    ensures forall k :: 0 <= k < |r| ==>
      r[k] == Element("field", [Attr("name", names[k]), Attr("type", types[k])], [])
  {
    if names == [] || types == [] then []
    else [Element("field", [Attr("name", names[0]), Attr("type", types[0])], [])]
         + FieldDecls(names[1..], types[1..])
  }

  /** `do_proxyclass`. The handle attribute is set only when the handle is
      nonzero. */
  function DoProxyClass(h: Heap, refs: Refs, id: NodeId, depth: nat): (r: Step<Xml>)
    requires id in h && h[id].ProxyClassNode?
    ensures Extends(refs, r.refs)
    ensures r.result.Ok? ==> r.result.value.Element?
    decreases depth, 0, 0
  {
    if depth == 0 then Step(Err(RecursionLimit), refs)
    else if id in refs then Step(Ok(Reference(IndexOf(refs, id))), refs)
    else
      var p := h[id];
      var sup := SuperclassPart(h, refs + [id], p.superclass, depth - 1);
      if sup.result.Err? then Step(Err(sup.result.failure), sup.refs)
      else Step(Ok(Element("proxyclass", ProxyAttrs(|refs|, p.handle),
                           sup.result.value + [Element("proxyInterfaceNames", [], InterfaceNames(p.interfaceNames))])),
                sup.refs)
  }

  function ProxyAttrs(ref: nat, handle: int): seq<Attr>
  {
    [RefAttr(ref)] + (if handle != 0 then [Attr("handle", Numerals.Hex(handle))] else [])
  }

  /** One `proxyInterfaceName` element holding each name, in order. */
  function InterfaceNames(names: seq<string>): (r: seq<Xml>)
    ensures |r| == |names|
    ensures forall k :: 0 <= k < |r| ==> r[k] == Element("proxyInterfaceName", [], [Text(names[k])])
  {
    if names == [] then []
    else [Element("proxyInterfaceName", [], [Text(names[0])])] + InterfaceNames(names[1..])
  }

  /** `do_string`: a pointer holding the text as a comment on a repeat
      encounter; otherwise a registered `string` element. Uses no frame
      beyond the dispatcher's. */
  function DoString(h: Heap, refs: Refs, id: NodeId): (r: Step<Xml>)
    requires id in h && h[id].StringNode?
    ensures Extends(refs, r.refs)
  {
    if id in refs then
      Step(Ok(Element("reference", [IdxAttr(IndexOf(refs, id))], [Comment(h[id].text)])), refs)
    else Step(Ok(Element("string", [RefAttr(|refs|)], [Text(h[id].text)])), refs + [id])
  }

  /** `do_array`: the object rendering (even a pointer) renamed `array`,
      followed by an `items` block over the elements. */
  function DoArray(h: Heap, refs: Refs, id: NodeId, depth: nat): (r: Step<Xml>)
    requires id in h && h[id].ArrayNode?
    ensures Extends(refs, r.refs)
    decreases depth, 0, 0
  {
    if depth == 0 then Step(Err(RecursionLimit), refs)
    else
      var o := DoObject(h, refs, id, KeepAll, depth - 1);
      if o.result.Err? then Step(Err(o.result.failure), o.refs)
      else
        var items := ArrayItemsFrom(h, o.refs, h[id].obj.classdesc, h[id].elements, 0, depth - 1);
        if items.result.Err? then Step(Err(items.result.failure), items.refs)
        else Step(Ok(AppendChild(Retag(o.result.value, "array"), Element("items", [], items.result.value))),
                  items.refs)
  }

  /** The `item` elements for `elems[i..]`, in order. */
  function ArrayItemsFrom(h: Heap, refs: Refs, cls: Option<NodeId>, elems: seq<Value>, i: nat, depth: nat)
    : (r: Step<seq<Xml>>)
    requires i <= |elems|
    ensures Extends(refs, r.refs)
    ensures r.result.Ok? ==> |r.result.value| == |elems| - i
    ensures r.result.Ok? ==> forall j :: 0 <= j < |r.result.value| ==>
      r.result.value[j].Element? && r.result.value[j].tag == "item" &&
      r.result.value[j].attrs == [] && |r.result.value[j].children| == 1
    decreases depth, 1, |elems| - i
  {
    if i == |elems| then Step(Ok([]), refs)
    else
      var e := ArrayElement(h, refs, cls, elems[i], depth);
      if e.result.Err? then Step(Err(e.result.failure), e.refs)
      else
        var rest := ArrayItemsFrom(h, e.refs, cls, elems, i + 1, depth);
        if rest.result.Err? then Step(Err(rest.result.failure), rest.refs)
        else Step(Ok([Wrap("item", [], e.result.value)] + rest.result.value), rest.refs)
  }

  /** One array element: dispatched when the element type is a class or an
      array, formatted by `_do_value` otherwise. A type code `_do_value`
      does not know makes it return None, and appending None raises
      AttributeError. */
  function ArrayElement(h: Heap, refs: Refs, cls: Option<NodeId>, v: Value, depth: nat): (r: Step<Xml>)
    ensures Extends(refs, r.refs)
    decreases depth, 1, 0
  {
    match Leaves.ElementModeOf(h, cls)
    case Err(f) => Step(Err(f), refs)
    case Ok(ByDispatch) => LookupAndExec(h, refs, v, depth)
    case Ok(ByTag(t)) =>
      (match Leaves.DoScalar(h, t, v)
       case Err(f) => Step(Err(f), refs)
       case Ok(None) => Step(Err(AttributeError), refs)
       case Ok(Some(s)) => Step(Ok(Text(s)), refs))
  }

  /** `do_map`: the object rendering with only annotation 0 kept, renamed
      `map`, followed by one `item` per key/value pair of annotations 1, 2,
      3, … */
  function DoMap(h: Heap, refs: Refs, id: NodeId, depth: nat): (r: Step<Xml>)
    requires id in h && h[id].MapNode?
    ensures Extends(refs, r.refs)
    decreases depth, 0, 0
  {
    if depth == 0 then Step(Err(RecursionLimit), refs)
    else
      var o := DoObject(h, refs, id, KeepHeader, depth - 1);
      if o.result.Err? then Step(Err(o.result.failure), o.refs)
      else
        var items := MapItemsFrom(h, o.refs, h[id].obj.annotations, 1, depth - 1);
        if items.result.Err? then Step(Err(items.result.failure), items.refs)
        else Step(Ok(AppendChild(Retag(o.result.value, "map"), Element("items", [], items.result.value))),
                  items.refs)
  }

  /** The items for `range(i, len(anns), 2)`: the key `anns[k]` as text in
      the `name` attribute, the value `anns[k + 1]` dispatched. A key with
      no value after it raises IndexError. */
  function MapItemsFrom(h: Heap, refs: Refs, anns: seq<Value>, i: nat, depth: nat): (r: Step<seq<Xml>>)
    requires i <= |anns| + 1
    ensures Extends(refs, r.refs)
    ensures r.result.Ok? ==> i >= |anns| || (|anns| - i) % 2 == 0
    ensures i < |anns| && (|anns| - i) % 2 == 1 ==> r.result.Err?
    ensures r.result.Ok? ==> |r.result.value| == (if i >= |anns| then 0 else (|anns| - i) / 2)
    ensures r.result.Ok? ==> forall j :: 0 <= j < |r.result.value| ==>
      i + 2 * j + 1 < |anns| &&
      r.result.value[j].Element? && r.result.value[j].tag == "item" &&
      r.result.value[j].attrs == [Attr("name", PyStr(h, anns[i + 2 * j]))] &&
      |r.result.value[j].children| == 1
    decreases depth, 1, |anns| + 1 - i
  {
    if i >= |anns| then Step(Ok([]), refs)
    else if i + 1 >= |anns| then Step(Err(IndexError), refs)
    else
      var s := LookupAndExec(h, refs, anns[i + 1], depth);
      if s.result.Err? then Step(Err(s.result.failure), s.refs)
      else
        var rest := MapItemsFrom(h, s.refs, anns, i + 2, depth);
        PairsLeft(|anns|, i);
        if rest.result.Err? then Step(Err(rest.result.failure), rest.refs)
        else Step(Ok([Wrap("item", [Attr("name", PyStr(h, anns[i]))], s.result.value)] + rest.result.value),
                  rest.refs)
  }

  /** Taking one key/value pair off the annotations left after `i`. */
  lemma PairsLeft(n: nat, i: nat)
    requires i + 2 <= n
    ensures (n - i) % 2 == (n - (i + 2)) % 2
    ensures (n - i) / 2 == (if i + 2 >= n then 0 else (n - (i + 2)) / 2) + 1
  {
  }

  /** `do_list`: like `do_map`, with one `item` per annotation after the
      first. */
  function DoList(h: Heap, refs: Refs, id: NodeId, depth: nat): (r: Step<Xml>)
    requires id in h && h[id].ListNode?
    ensures Extends(refs, r.refs)
    decreases depth, 0, 0
  {
    if depth == 0 then Step(Err(RecursionLimit), refs)
    else
      var o := DoObject(h, refs, id, KeepHeader, depth - 1);
      if o.result.Err? then Step(Err(o.result.failure), o.refs)
      else
        var items := ListItemsFrom(h, o.refs, h[id].obj.annotations, 1, depth - 1);
        if items.result.Err? then Step(Err(items.result.failure), items.refs)
        else Step(Ok(AppendChild(Retag(o.result.value, "list"), Element("items", [], items.result.value))),
                  items.refs)
  }

  /** The items for `range(i, len(anns))`, each annotation dispatched. */
  function ListItemsFrom(h: Heap, refs: Refs, anns: seq<Value>, i: nat, depth: nat): (r: Step<seq<Xml>>)
    requires i <= |anns| + 1
    ensures Extends(refs, r.refs)
    ensures r.result.Ok? ==> |r.result.value| == (if i >= |anns| then 0 else |anns| - i)
    ensures r.result.Ok? ==> forall j :: 0 <= j < |r.result.value| ==>
      r.result.value[j].Element? && r.result.value[j].tag == "item" &&
      r.result.value[j].attrs == [] && |r.result.value[j].children| == 1
    decreases depth, 1, |anns| + 1 - i
  {
    if i >= |anns| then Step(Ok([]), refs)
    else
      var s := LookupAndExec(h, refs, anns[i], depth);
      if s.result.Err? then Step(Err(s.result.failure), s.refs)
      else
        var rest := ListItemsFrom(h, s.refs, anns, i + 1, depth);
        if rest.result.Err? then Step(Err(rest.result.failure), rest.refs)
        else Step(Ok([Wrap("item", [], s.result.value)] + rest.result.value), rest.refs)
  }

  /** `marshall`: a `root` element holding the dispatch of every top-level
      value, in order. The registry is the marshaller's: it is passed in
      and handed back, never reset. */
  function Marshall(h: Heap, refs: Refs, top: seq<Value>, depth: nat): (r: Step<Xml>)
    ensures Extends(refs, r.refs)
    ensures r.result.Ok? ==>
      r.result.value.Element? && r.result.value.tag == "root" &&
      r.result.value.attrs == [] && |r.result.value.children| == |top|
  {
    var s := TopLevelFrom(h, refs, top, 0, depth);
    if s.result.Err? then Step(Err(s.result.failure), s.refs)
    else Step(Ok(Element("root", [], s.result.value)), s.refs)
  }

  /** The dispatch of `top[i..]`, in order; the first failure aborts. */
  function TopLevelFrom(h: Heap, refs: Refs, top: seq<Value>, i: nat, depth: nat): (r: Step<seq<Xml>>)
    requires i <= |top|
    ensures Extends(refs, r.refs)
    ensures r.result.Ok? ==> |r.result.value| == |top| - i
    decreases |top| - i
  {
    if i == |top| then Step(Ok([]), refs)
    else
      var s := LookupAndExec(h, refs, top[i], depth);
      if s.result.Err? then Step(Err(s.result.failure), s.refs)
      else
        var rest := TopLevelFrom(h, s.refs, top, i + 1, depth);
        if rest.result.Err? then Step(Err(rest.result.failure), rest.refs)
        else Step(Ok([s.result.value] + rest.result.value), rest.refs)
  }
}
