/** Properties of the renderers: identity tracking, dispatch, the shape of
    collections, and two behaviours of the code that identity tracking
    does not suggest (the registry outlives a call; a collection
    re-renders its items on a repeat encounter). */
module RenderFacts {
  import opened Basics
  import opened JavaObj
  import opened Xml
  import Numerals
  import TypeTable
  import Leaves
  import Hierarchy
  import opened Render
  import RenderContents

  /** In a registry without duplicates, `index` finds a node where it was
      put, however much was registered after it. */
  lemma IndexOfStable(s: Refs, k: nat, id: NodeId)
    requires NoDup(s) && k < |s| && s[k] == id
    ensures id in s && IndexOf(s, id) == k
  {
    var j := IndexOf(s, id);
    if j < k {
      assert s[j] == s[k];
    }
  }

  /** Identity stability for objects: the first rendering of a node carries
      index |refs| and registers the node there; every later encounter, from
      any registry that grew from that one, is a pointer to that same index. */
  lemma ObjectIdentityStable(h: Heap, refs: Refs, id: NodeId, filter: AnnotationFilter, depth: nat,
                             later: Refs, filter': AnnotationFilter, depth': nat)
    requires id in h && h[id].IsObject() && id !in refs && NoDup(refs) && depth > 0
    requires Extends(DoObject(h, refs, id, filter, depth).refs, later)
    requires depth' > 0
    ensures var first := DoObject(h, refs, id, filter, depth);
      |first.refs| > |refs| && first.refs[|refs|] == id &&
      (first.result.Ok? ==> first.result.value.attrs == [RefAttr(|refs|)])
    ensures DoObject(h, later, id, filter', depth') == Step(Ok(Reference(|refs|)), later)
  {
    var first := DoObject(h, refs, id, filter, depth);
    assert first == FreshObject(h, refs + [id], |refs|, h[id].obj, filter, depth - 1);
    assert (refs + [id])[|refs|] == id;
    assert NoDup(refs + [id]);
    IndexOfStable(later, |refs|, id);
  }

  /** The same for class descriptors. */
  lemma ClassIdentityStable(h: Heap, refs: Refs, id: NodeId, depth: nat, later: Refs, depth': nat)
    requires id !in refs && NoDup(refs) && depth > 0
    requires Extends(DoClass(h, refs, id, depth).refs, later)
    requires depth' > 0
    ensures var first := DoClass(h, refs, id, depth);
      |first.refs| > |refs| && first.refs[|refs|] == id &&
      (first.result.Ok? ==> first.result.value.attrs[0] == RefAttr(|refs|))
    ensures DoClass(h, later, id, depth') == Step(Ok(Reference(|refs|)), later)
  {
    assert (refs + [id])[|refs|] == id;
    assert NoDup(refs + [id]);
    IndexOfStable(later, |refs|, id);
  }

  /** The same for proxy class descriptors. */
  lemma ProxyIdentityStable(h: Heap, refs: Refs, id: NodeId, depth: nat, later: Refs, depth': nat)
    requires id in h && h[id].ProxyClassNode? && id !in refs && NoDup(refs) && depth > 0
    requires Extends(DoProxyClass(h, refs, id, depth).refs, later)
    requires depth' > 0
    ensures var first := DoProxyClass(h, refs, id, depth);
      |first.refs| > |refs| && first.refs[|refs|] == id &&
      (first.result.Ok? ==> first.result.value.attrs[0] == RefAttr(|refs|))
    ensures DoProxyClass(h, later, id, depth') == Step(Ok(Reference(|refs|)), later)
  {
    assert (refs + [id])[|refs|] == id;
    assert NoDup(refs + [id]);
    IndexOfStable(later, |refs|, id);
  }

  /** Dispatching a plain object that is already registered gives the
      pointer to its index and registers nothing. */
  lemma RegisteredObjectIsPointer(h: Heap, refs: Refs, o: NodeId, depth: nat)
    requires o in refs && o in h && h[o].ObjectNode? && depth >= 2
    ensures LookupAndExec(h, refs, Instance(o), depth) == Step(Ok(Reference(IndexOf(refs, o))), refs)
  {
    TypeTable.LookupByKind(h, Instance(o));
  }

  /** A field that holds an already registered plain object is a pointer to
      that object's index; the registry is unchanged. */
  lemma RegisteredFieldIsPointer(h: Heap, refs: Refs, obj: ObjectData, name: string, o: NodeId, depth: nat)
    requires o in refs && o in h && h[o].ObjectNode?
    requires name in obj.fields && obj.fields[name] == Instance(o) && depth >= 3
    ensures FieldValue(h, refs, obj, name, depth) == Step(Ok(Reference(IndexOf(refs, o))), refs)
  {
    RegisteredObjectIsPointer(h, refs, o, depth - 1);
  }

  /** The same for strings; their pointer also repeats the text. */
  lemma StringIdentityStable(h: Heap, refs: Refs, id: NodeId, later: Refs)
    requires id in h && h[id].StringNode? && id !in refs && NoDup(refs)
    requires Extends(refs + [id], later)
    ensures DoString(h, refs, id) ==
      Step(Ok(Element("string", [RefAttr(|refs|)], [Text(h[id].text)])), refs + [id])
    ensures DoString(h, later, id) ==
      Step(Ok(Element("reference", [IdxAttr(|refs|)], [Comment(h[id].text)])), later)
  {
    assert (refs + [id])[|refs|] == id;
    assert NoDup(refs + [id]);
    IndexOfStable(later, |refs|, id);
  }

  /** An object is registered before its class descriptor is rendered: the
      descriptor takes the next index. */
  lemma RegisterBeforeDescend(h: Heap, refs: Refs, id: NodeId, filter: AnnotationFilter, depth: nat)
    requires id in h && h[id].IsObject() && id !in refs
    requires h[id].obj.classdesc.Some?
    requires var c := h[id].obj.classdesc.value;
      c in h && h[c].ClassNode? && c !in refs
    requires depth >= 2
    ensures var r := DoObject(h, refs, id, filter, depth);
      |r.refs| >= |refs| + 2 && r.refs[|refs|] == id && r.refs[|refs| + 1] == h[id].obj.classdesc.value
  {
    var c := h[id].obj.classdesc.value;
    var refs1 := refs + [id];
    var k := DoClass(h, refs1, c, depth - 1);
    assert (refs1 + [c])[|refs1|] == c;
    assert Extends(refs1 + [c], k.refs);
    var p := DescriptorPart(h, refs1, h[id].obj, depth - 1);
    assert Extends(k.refs, p.refs);
  }

  /** Dispatch never lets an unknown kind through: a Python bool, int or
      float, or an object of no listed class, aborts the call. */
  lemma UnknownValueAborts(h: Heap, refs: Refs, v: Value, depth: nat)
    requires depth > 0 && TypeTable.Expected(h, v).None?
    ensures LookupAndExec(h, refs, v, depth) == Step(Err(NoHandler), refs)
  {
    TypeTable.LookupByKind(h, v);
  }

  /** An array, map or list reaches its own renderer and keeps its kind,
      although it is a JavaObject as well. */
  lemma CollectionsKeepTheirKind(h: Heap, refs: Refs, v: Value, depth: nat)
    requires depth > 0 && v.Instance? && v.id in h
    requires h[v.id].ArrayNode? || h[v.id].MapNode? || h[v.id].ListNode?
    ensures var r := LookupAndExec(h, refs, v, depth);
      r.result.Ok? ==> (r.result.value.Element? &&
                        r.result.value.tag == (if h[v.id].ArrayNode? then "array"
                                               else if h[v.id].MapNode? then "map" else "list"))
  {
    TypeTable.LookupByKind(h, v);
  }

  /** An enum constant is an opaque marker, and it is not registered. */
  lemma EnumIsOpaque(h: Heap, refs: Refs, v: Value, depth: nat)
    requires depth > 0 && v.Instance? && v.id in h && h[v.id].EnumNode?
    ensures LookupAndExec(h, refs, v, depth) == Step(Ok(EnumMarker), refs)
  {
    TypeTable.LookupByKind(h, v);
  }

  /** The `fields` block of an object lists the flattened names, own fields
      first, each with its value or the null marker. */
  lemma FieldsFollowHierarchy(h: Heap, refs: Refs, id: NodeId, filter: AnnotationFilter, depth: nat)
    requires id in h && h[id].IsObject() && id !in refs && depth > 0
    requires h[id].obj.classdesc.Some?
    requires var c := h[id].obj.classdesc.value; c in h && h[c].ClassNode?
    ensures var r := DoObject(h, refs, id, filter, depth);
      r.result.Ok? ==>
        var names := Hierarchy.FieldNames(h, h[id].obj.classdesc, {});
        names.Ok? && |r.result.value.children| == 3 &&
        var fields := r.result.value.children[1];
        fields.Element? && fields.tag == "fields" && |fields.children| == |names.value| &&
        forall j :: 0 <= j < |names.value| ==>
          fields.children[j].Element? && fields.children[j].tag == "field" &&
          fields.children[j].attrs == [Attr("name", names.value[j])] &&
          (names.value[j] !in h[id].obj.fields ==> fields.children[j].children == [NullMarker])
  {
    var obj := h[id].obj;
    var refs1 := refs + [id];
    var p := DescriptorPart(h, refs1, obj, depth - 1);
    var r := DoObject(h, refs, id, filter, depth);
    if r.result.Ok? {
      assert r == FreshObject(h, refs1, |refs|, obj, filter, depth - 1);
      assert p.result.Ok?;
      var k := DoClass(h, refs1, obj.classdesc.value, depth - 1);
      var names := Hierarchy.FieldNames(h, obj.classdesc, {});
      assert names.Ok?;
      var fs := FieldsFrom(h, k.refs, obj, names.value, 0, depth - 1);
      assert p.result.value == [k.result.value, Element("fields", [], fs.result.value)];
    }
  }

  /** A class whose superclass is already registered still shows it, as a
      pointer renamed `superclass`. */
  lemma SharedSuperclassIsRenamedPointer(h: Heap, refs: Refs, id: NodeId, depth: nat)
    requires id in h && h[id].ClassNode? && id !in refs && depth >= 2
    requires h[id].superclass.Some? && h[id].superclass.value in refs
    requires Truthy(h, Instance(h[id].superclass.value))
    ensures DoClass(h, refs, id, depth).result.Ok?
    ensures DoClass(h, refs, id, depth).result.value.children[0] ==
      Element("superclass", [IdxAttr(IndexOf(refs, h[id].superclass.value))], [])
  {
    var s := h[id].superclass.value;
    var refs1 := refs + [id];
    assert IndexOf(refs1, s) == IndexOf(refs, s) by {
      IndexOfPrefix(refs, [id], s);
    }
    assert DoClass(h, refs1, s, depth - 1) == Step(Ok(Reference(IndexOf(refs, s))), refs1);
    assert SuperclassPart(h, refs1, h[id].superclass, depth - 1) ==
      Step(Ok([Element("superclass", [IdxAttr(IndexOf(refs, s))], [])]), refs1);
  }

  /** `index` in a registry that grew at its end finds an earlier node where
      it found it before. */
  lemma {:induction false} IndexOfPrefix(s: Refs, t: Refs, id: NodeId)
    requires id in s
    ensures id in s + t && IndexOf(s + t, id) == IndexOf(s, id)
  {
    if s[0] != id {
      assert (s + t)[1..] == s[1..] + t;
      IndexOfPrefix(s[1..], t, id);
    }
  }

  /** A map whose annotation list has an even length of at least two never
      renders: its last key has no value. */
  lemma EvenMapAnnotationsFail(h: Heap, refs: Refs, id: NodeId, depth: nat)
    requires id in h && h[id].MapNode?
    requires |h[id].obj.annotations| >= 2 && |h[id].obj.annotations| % 2 == 0
    ensures DoMap(h, refs, id, depth).result.Err?
  {
    if depth > 0 {
      var o := DoObject(h, refs, id, KeepHeader, depth - 1);
      if o.result.Ok? {
        var anns := h[id].obj.annotations;
        assert (|anns| - 1) % 2 == 1;
        assert MapItemsFrom(h, o.refs, anns, 1, depth - 1).result.Err?;
      }
    }
  }

  /** A rendered map holds annotation 0 alone in `annotations`, and one item
      per key/value pair after it, named by the key. */
  lemma MapShape(h: Heap, refs: Refs, id: NodeId, depth: nat)
    requires id in h && h[id].MapNode? && id !in refs
    ensures var r := DoMap(h, refs, id, depth);
      var anns := h[id].obj.annotations;
      r.result.Ok? ==>
        r.result.value.tag == "map" && |r.result.value.children| >= 2 &&
        var annotations := r.result.value.children[|r.result.value.children| - 2];
        var items := r.result.value.children[|r.result.value.children| - 1];
        annotations.Element? && annotations.tag == "annotations" &&
        |annotations.children| == (if |anns| > 0 then 1 else 0) &&
        items == Element("items", [], items.children) &&
        |items.children| == (if |anns| <= 1 then 0 else (|anns| - 1) / 2) &&
        forall j :: 0 <= j < |items.children| ==>
          items.children[j].attrs == [Attr("name", PyStr(h, anns[1 + 2 * j]))]
  {
    var r := DoMap(h, refs, id, depth);
    if r.result.Ok? {
      var obj := h[id].obj;
      var o := DoObject(h, refs, id, KeepHeader, depth - 1);
      var full := FreshObject(h, refs + [id], |refs|, obj, KeepHeader, depth - 2);
      assert o == full;
      var p := DescriptorPart(h, refs + [id], obj, depth - 2);
      var a := AnnotationsFrom(h, p.refs, obj.annotations, KeepHeader, 0, depth - 2);
      assert full.result.value.children ==
        p.result.value + [Element("annotations", [], a.result.value)];
    }
  }

  /** A rendered list holds one item per annotation after the first. */
  lemma ListShape(h: Heap, refs: Refs, id: NodeId, depth: nat)
    requires id in h && h[id].ListNode?
    ensures var r := DoList(h, refs, id, depth);
      var anns := h[id].obj.annotations;
      r.result.Ok? ==>
        r.result.value.tag == "list" && |r.result.value.children| >= 1 &&
        var items := r.result.value.children[|r.result.value.children| - 1];
        items.tag == "items" &&
        |items.children| == (if |anns| <= 1 then 0 else |anns| - 1)
  {
  }

  /** A just-registered object rendered with only annotation 0 kept (the
      `idx < 1` filter of maps and lists): its descriptor part, then one
      annotation holding the dispatch of annotation 0. */
  lemma HeaderObjectContent(h: Heap, refs: Refs, ref: nat, obj: ObjectData, depth: nat)
    requires |obj.annotations| > 0
    ensures var o := FreshObject(h, refs, ref, obj, KeepHeader, depth);
      var p := DescriptorPart(h, refs, obj, depth);
      var s := LookupAndExec(h, p.refs, obj.annotations[0], depth);
      o.result.Ok? ==>
        p.result.Ok? && s.result.Ok? &&
        o == Step(Ok(Element("object", [RefAttr(ref)],
                             p.result.value + [Element("annotations", [], [Wrap("annotation", [], s.result.value)])])),
                  s.refs)
  {
    var p := DescriptorPart(h, refs, obj, depth);
    if p.result.Ok? {
      RenderContents.HeaderAnnotationContent(h, p.refs, obj.annotations, depth);
    }
  }

  /** `do_map` on a node met for the first time: the fresh object
      rendering with annotation 0 kept, renamed, and the items after it. */
  lemma MapUnfold(h: Heap, refs: Refs, id: NodeId, depth: nat)
    requires id in h && h[id].MapNode? && id !in refs
    ensures var r := DoMap(h, refs, id, depth);
      r.result.Ok? ==>
        depth >= 2 &&
        var o := FreshObject(h, refs + [id], |refs|, h[id].obj, KeepHeader, depth - 2);
        var items := MapItemsFrom(h, o.refs, h[id].obj.annotations, 1, depth - 1);
        o.result.Ok? && items.result.Ok? &&
        r == Step(Ok(Element("map", o.result.value.attrs, o.result.value.children + [Element("items", [], items.result.value)])),
                  items.refs)
  {
  }

  /** `do_list` on a node met for the first time: the fresh object
      rendering with annotation 0 kept, renamed, and the items after it. */
  lemma ListUnfold(h: Heap, refs: Refs, id: NodeId, depth: nat)
    requires id in h && h[id].ListNode? && id !in refs
    ensures var r := DoList(h, refs, id, depth);
      r.result.Ok? ==>
        depth >= 2 &&
        var o := FreshObject(h, refs + [id], |refs|, h[id].obj, KeepHeader, depth - 2);
        var items := ListItemsFrom(h, o.refs, h[id].obj.annotations, 1, depth - 1);
        o.result.Ok? && items.result.Ok? &&
        r == Step(Ok(Element("list", o.result.value.attrs, o.result.value.children + [Element("items", [], items.result.value)])),
                  items.refs)
  {
  }

  /** Appending the `items` block to an object element whose last child is
      `a`. */
  lemma AppendItems(r: Step<Xml>, tag: string, o: Xml, attrs: seq<Attr>, children: seq<Xml>, a: Xml,
                    items: Step<seq<Xml>>)
    requires o == Element("object", attrs, children + [a]) && items.result.Ok?
    requires r == Step(Ok(Element(tag, o.attrs, o.children + [Element("items", [], items.result.value)])), items.refs)
    ensures r == Step(Ok(Element(tag, attrs, children + [a, Element("items", [], items.result.value)])), items.refs)
  {
    assert children + [a] + [Element("items", [], items.result.value)] ==
      children + [a, Element("items", [], items.result.value)];
  }

  /** A map met for the first time: after its descriptor part come the
      annotation 0 it keeps and the items of the pairs after it, rendered
      from the registry annotation 0 left. */
  lemma MapHeader(h: Heap, refs: Refs, id: NodeId, depth: nat)
    requires id in h && h[id].MapNode? && id !in refs && |h[id].obj.annotations| > 0
    ensures var r := DoMap(h, refs, id, depth);
      var anns := h[id].obj.annotations;
      r.result.Ok? ==>
        depth >= 2 &&
        var p := DescriptorPart(h, refs + [id], h[id].obj, depth - 2);
        var s := LookupAndExec(h, p.refs, anns[0], depth - 2);
        var items := MapItemsFrom(h, s.refs, anns, 1, depth - 1);
        p.result.Ok? && s.result.Ok? && items.result.Ok? &&
        r == Step(Ok(Element("map", [RefAttr(|refs|)],
                             p.result.value + [Element("annotations", [], [Wrap("annotation", [], s.result.value)]),
                                               Element("items", [], items.result.value)])),
                  items.refs)
  {
    var r := DoMap(h, refs, id, depth);
    if r.result.Ok? {
      var obj := h[id].obj;
      MapUnfold(h, refs, id, depth);
      HeaderObjectContent(h, refs + [id], |refs|, obj, depth - 2);
      var p := DescriptorPart(h, refs + [id], obj, depth - 2);
      var s := LookupAndExec(h, p.refs, obj.annotations[0], depth - 2);
      var a := Element("annotations", [], [Wrap("annotation", [], s.result.value)]);
      var items := MapItemsFrom(h, s.refs, obj.annotations, 1, depth - 1);
      AppendItems(r, "map", FreshObject(h, refs + [id], |refs|, obj, KeepHeader, depth - 2).result.value,
                  [RefAttr(|refs|)], p.result.value, a, items);
    }
  }

  /** A list met for the first time: after its descriptor part come the
      annotation 0 it keeps and an item for each annotation after it. */
  lemma ListHeader(h: Heap, refs: Refs, id: NodeId, depth: nat)
    requires id in h && h[id].ListNode? && id !in refs && |h[id].obj.annotations| > 0
    ensures var r := DoList(h, refs, id, depth);
      var anns := h[id].obj.annotations;
      r.result.Ok? ==>
        depth >= 2 &&
        var p := DescriptorPart(h, refs + [id], h[id].obj, depth - 2);
        var s := LookupAndExec(h, p.refs, anns[0], depth - 2);
        var items := ListItemsFrom(h, s.refs, anns, 1, depth - 1);
        p.result.Ok? && s.result.Ok? && items.result.Ok? &&
        r == Step(Ok(Element("list", [RefAttr(|refs|)],
                             p.result.value + [Element("annotations", [], [Wrap("annotation", [], s.result.value)]),
                                               Element("items", [], items.result.value)])),
                  items.refs)
  {
    var r := DoList(h, refs, id, depth);
    if r.result.Ok? {
      var obj := h[id].obj;
      ListUnfold(h, refs, id, depth);
      HeaderObjectContent(h, refs + [id], |refs|, obj, depth - 2);
      var p := DescriptorPart(h, refs + [id], obj, depth - 2);
      var s := LookupAndExec(h, p.refs, obj.annotations[0], depth - 2);
      var a := Element("annotations", [], [Wrap("annotation", [], s.result.value)]);
      var items := ListItemsFrom(h, s.refs, obj.annotations, 1, depth - 1);
      AppendItems(r, "list", FreshObject(h, refs + [id], |refs|, obj, KeepHeader, depth - 2).result.value,
                  [RefAttr(|refs|)], p.result.value, a, items);
    }
  }

  /** On a repeat encounter an array is a pointer renamed `array` that still
      carries an item per element: the items are rendered again, from the
      unchanged registry. */
  lemma RepeatedArrayRendersItemsAgain(h: Heap, refs: Refs, id: NodeId, depth: nat)
    requires id in h && h[id].ArrayNode? && id in refs && depth >= 2
    ensures var r := DoArray(h, refs, id, depth);
      var items := ArrayItemsFrom(h, refs, h[id].obj.classdesc, h[id].elements, 0, depth - 1);
      r.result.Ok? ==>
        items.result.Ok? &&
        r == Step(Ok(Element("array", [IdxAttr(IndexOf(refs, id))], [Element("items", [], items.result.value)])),
                  items.refs)
    ensures var r := DoArray(h, refs, id, depth);
      r.result.Ok? ==> |r.result.value.children[0].children| == |h[id].elements|
  {
    assert DoObject(h, refs, id, KeepAll, depth - 1) == Step(Ok(Reference(IndexOf(refs, id))), refs);
    var items := ArrayItemsFrom(h, refs, h[id].obj.classdesc, h[id].elements, 0, depth - 1);
    if items.result.Ok? {
      assert AppendChild(Retag(Reference(IndexOf(refs, id)), "array"), Element("items", [], items.result.value)) ==
        Element("array", [IdxAttr(IndexOf(refs, id))], [Element("items", [], items.result.value)]);
    }
  }

  /** An array met for the first time: its full `do_object` rendering,
      renamed `array`, with the `items` block appended. */
  lemma ArrayUnfold(h: Heap, refs: Refs, id: NodeId, depth: nat)
    requires id in h && h[id].ArrayNode? && id !in refs
    ensures var r := DoArray(h, refs, id, depth);
      r.result.Ok? ==>
        depth >= 2 &&
        var o := FreshObject(h, refs + [id], |refs|, h[id].obj, KeepAll, depth - 2);
        var items := ArrayItemsFrom(h, o.refs, h[id].obj.classdesc, h[id].elements, 0, depth - 1);
        o.result.Ok? && items.result.Ok? &&
        r == Step(Ok(Element("array", o.result.value.attrs, o.result.value.children + [Element("items", [], items.result.value)])),
                  items.refs)
  {
  }

  /** A field the object has holds what `do_value` gives for its value, or
      the null marker when that raised AttributeError; a bool, int or float
      is its `str()` text and registers nothing. */
  lemma PresentFieldCases(h: Heap, refs: Refs, obj: ObjectData, name: string, depth: nat)
    requires name in obj.fields && depth > 0
    ensures var v := obj.fields[name];
      v.Int? ==> FieldValue(h, refs, obj, name, depth) == Step(Ok(Text(Numerals.Decimal(v.i))), refs)
    ensures var v := obj.fields[name];
      v.Bool? ==> FieldValue(h, refs, obj, name, depth) == Step(Ok(Text(if v.b then "True" else "False")), refs)
    ensures var v := obj.fields[name];
      v.Float? ==> FieldValue(h, refs, obj, name, depth) == Step(Ok(Text(v.text)), refs)
    ensures var v := obj.fields[name];
      var s := LookupAndExec(h, refs, v, depth - 1);
      !v.Int? && !v.Bool? && !v.Float? ==>
        FieldValue(h, refs, obj, name, depth) ==
          if s.result == Err(AttributeError) then Step(Ok(NullMarker), s.refs) else s
  {
    FieldValueCases(h, refs, obj.fields[name], depth);
  }

  /** One int, long, short or byte element of a primitive array is hex text. */
  lemma HexElement(h: Heap, refs: Refs, cls: Option<NodeId>, tag: string, v: Value, depth: nat)
    requires Leaves.ElementModeOf(h, cls) == Ok(Leaves.ByTag(tag)) && Leaves.IsHexTag(tag) && v.Int?
    ensures ArrayElement(h, refs, cls, v, depth) == Step(Ok(Text(Numerals.Hex(v.i))), refs)
  {
  }

  /** An element rendered without touching the registry goes in front of
      the items that follow it. */
  lemma ItemsFront(h: Heap, refs: Refs, cls: Option<NodeId>, elems: seq<Value>, i: nat, depth: nat, x: Xml)
    requires i < |elems| && ArrayElement(h, refs, cls, elems[i], depth) == Step(Ok(x), refs)
    requires ArrayItemsFrom(h, refs, cls, elems, i + 1, depth).result.Ok?
    ensures var rest := ArrayItemsFrom(h, refs, cls, elems, i + 1, depth);
      ArrayItemsFrom(h, refs, cls, elems, i, depth) ==
        Step(Ok([Wrap("item", [], x)] + rest.result.value), rest.refs)
  {
  }

  /** The elements of a primitive int, long, short or byte array are
      rendered as hexadecimal text, in order, registering nothing. */
  lemma {:induction false} IntegerElementsAsHex(h: Heap, refs: Refs, cls: Option<NodeId>, tag: string,
                                                elems: seq<Value>, i: nat, depth: nat)
    requires Leaves.ElementModeOf(h, cls) == Ok(Leaves.ByTag(tag)) && Leaves.IsHexTag(tag)
    requires forall k :: 0 <= k < |elems| ==> elems[k].Int?
    requires i <= |elems|
    ensures var r := ArrayItemsFrom(h, refs, cls, elems, i, depth);
      r.refs == refs && r.result.Ok? &&
      forall j :: 0 <= j < |r.result.value| ==>
        r.result.value[j] == Wrap("item", [], Text(Numerals.Hex(elems[i + j].i)))
    decreases |elems| - i
  {
    if i < |elems| {
      IntegerElementsAsHex(h, refs, cls, tag, elems, i + 1, depth);
      HexElement(h, refs, cls, tag, elems[i], depth);
      var x := Text(Numerals.Hex(elems[i].i));
      ItemsFront(h, refs, cls, elems, i, depth, x);
      var rest := ArrayItemsFrom(h, refs, cls, elems, i + 1, depth).result.value;
      var items := [Wrap("item", [], x)] + rest;
      forall j | 0 <= j < |items|
        ensures items[j] == Wrap("item", [], Text(Numerals.Hex(elems[i + j].i)))
      {
        if j > 0 {
          assert items[j] == rest[j - 1];
        }
      }
    }
  }

  /** A primitive array whose type code `_do_value` does not know fails as
      soon as it has an element. */
  lemma UnknownElementTypeFails(h: Heap, refs: Refs, cls: Option<NodeId>, tag: string,
                                elems: seq<Value>, depth: nat)
    requires Leaves.ElementModeOf(h, cls) == Ok(Leaves.ByTag(tag))
    requires !Leaves.IsHexTag(tag) && !Leaves.IsStrTag(tag) && tag != Leaves.TypeBoolean
    requires |elems| > 0
    ensures ArrayItemsFrom(h, refs, cls, elems, 0, depth) == Step(Err(AttributeError), refs)
  {
  }

  /** An object array `a` that contains itself and nothing else: its class
      `c` is an object-array descriptor with no fields and no superclass. */
  predicate SelfArray(h: Heap, a: NodeId, c: NodeId)
  {
    a in h && h[a].ArrayNode? && h[a].elements == [Instance(a)] &&
    h[a].obj.classdesc == Some(c) && h[a].obj.annotations == [] &&
    c in h && h[c].ClassNode? && |h[c].name| >= 2 && h[c].name[1] == 'L' &&
    h[c].superclass.None? && h[c].fieldNames == []
  }

  /** Such a graph exists: `new Object[1]` holding itself. */
  lemma SelfArrayExists()
    ensures SelfArray(map[0 := ArrayNode(ObjectData(Some(1), map[], [], "[Ljava.lang.Object;@0"), [Instance(0)]),
                          1 := ClassNode("[Ljava.lang.Object;", 1, 0, 2, [], [], None, "[Ljava.lang.Object;")],
                      0, 1)
  {
  }

  /** Its element is dispatched back to the array renderer. */
  lemma SelfArrayElementIsDispatched(h: Heap, a: NodeId, c: NodeId, refs: Refs, depth: nat)
    requires SelfArray(h, a, c) && depth > 0
    ensures ArrayElement(h, refs, Some(c), Instance(a), depth) == DoArray(h, refs, a, depth - 1)
  {
    assert Leaves.ElementModeOf(h, Some(c)) == Ok(Leaves.ByDispatch);
    TypeTable.LookupByKind(h, Instance(a));
  }

  /** Once the array is registered, rendering it never finishes: its items
      are rendered again on every encounter, whatever depth the stack has. */
  lemma {:induction false} RegisteredSelfArrayExhaustsStack(h: Heap, a: NodeId, c: NodeId, refs: Refs, depth: nat)
    requires SelfArray(h, a, c) && a in refs
    ensures DoArray(h, refs, a, depth).result == Err(RecursionLimit)
  {
    if depth >= 2 {
      var o := DoObject(h, refs, a, KeepAll, depth - 1);
      assert o == Step(Ok(Reference(IndexOf(refs, a))), refs);
      RegisteredSelfArrayExhaustsStack(h, a, c, refs, depth - 2);
      SelfArrayElementIsDispatched(h, a, c, refs, depth - 1);
    }
  }

  /** The object part of the self-containing array fails only when the
      stack runs out. */
  lemma SelfObjectPartFailsOnlyOnDepth(h: Heap, a: NodeId, c: NodeId, refs: Refs, depth: nat)
    requires SelfArray(h, a, c)
    ensures var o := DoObject(h, refs, a, KeepAll, depth);
      o.result.Err? ==> o.result.failure == RecursionLimit
  {
    if depth > 0 && a !in refs {
      var obj := h[a].obj;
      var refs1 := refs + [a];
      var k := DoClass(h, refs1, c, depth - 1);
      if c !in refs1 && depth - 1 > 0 {
        assert SuperclassPart(h, refs1 + [c], None, depth - 2) == Step(Ok([]), refs1 + [c]);
      }
      assert k.result.Err? ==> k.result.failure == RecursionLimit;
      assert Hierarchy.FieldNames(h, None, {c}) == Ok([]);
      assert h[c].fieldNames + [] == [];
      assert Hierarchy.FieldNames(h, Some(c), {}) == Ok([]);
      var p := DescriptorPart(h, refs1, obj, depth - 1);
      if k.result.Ok? {
        assert FieldsFrom(h, k.refs, obj, [], 0, depth - 1) == Step(Ok([]), k.refs);
        assert p.result.Ok?;
        assert AnnotationsFrom(h, p.refs, [], KeepAll, 0, depth - 1) == Step(Ok([]), p.refs);
      }
      assert DoObject(h, refs, a, KeepAll, depth) == FreshObject(h, refs1, |refs|, obj, KeepAll, depth - 1);
    }
  }

  /** A first encounter leaves the object in the registry. */
  lemma FirstEncounterRegisters(h: Heap, refs: Refs, id: NodeId, filter: AnnotationFilter, depth: nat)
    requires id in h && h[id].IsObject() && id !in refs && depth > 0
    ensures id in DoObject(h, refs, id, filter, depth).refs
  {
    var r := DoObject(h, refs, id, filter, depth);
    assert r == FreshObject(h, refs + [id], |refs|, h[id].obj, filter, depth - 1);
    assert (refs + [id])[|refs|] == id;
  }

  /** The items of the array, once it is registered, fail with it. */
  lemma SelfArrayItemsFail(h: Heap, a: NodeId, c: NodeId, refs: Refs, depth: nat)
    requires SelfArray(h, a, c) && a in refs && depth >= 1
    ensures ArrayItemsFrom(h, refs, Some(c), [Instance(a)], 0, depth).result == Err(RecursionLimit)
  {
    SelfArrayElementIsDispatched(h, a, c, refs, depth);
    RegisteredSelfArrayExhaustsStack(h, a, c, refs, depth - 1);
  }

  /** An array fails with `f` when its object part does, or else when its
      items do. */
  lemma ArrayFailsWith(h: Heap, refs: Refs, id: NodeId, depth: nat, f: Failure)
    requires id in h && h[id].ArrayNode? && depth > 0
    requires var o := DoObject(h, refs, id, KeepAll, depth - 1);
      o.result == Err(f) ||
      (o.result.Ok? && ArrayItemsFrom(h, o.refs, h[id].obj.classdesc, h[id].elements, 0, depth - 1).result == Err(f))
    ensures DoArray(h, refs, id, depth).result == Err(f)
  {
  }

  /** A first encounter registers the array and then meets it again. */
  lemma FreshSelfArrayExhaustsStack(h: Heap, a: NodeId, c: NodeId, refs: Refs, depth: nat)
    requires SelfArray(h, a, c) && a !in refs && depth >= 1
    ensures DoArray(h, refs, a, depth).result == Err(RecursionLimit)
  {
    FreshSelfArrayParts(h, a, c, refs, depth - 1);
    ArrayFailsWith(h, refs, a, depth, RecursionLimit);
  }

  /** Either the object part of the array runs out of stack, or its items do. */
  lemma FreshSelfArrayParts(h: Heap, a: NodeId, c: NodeId, refs: Refs, depth: nat)
    requires SelfArray(h, a, c) && a !in refs
    ensures var o := DoObject(h, refs, a, KeepAll, depth);
      o.result == Err(RecursionLimit) ||
      (o.result.Ok? && ArrayItemsFrom(h, o.refs, h[a].obj.classdesc, h[a].elements, 0, depth).result
                       == Err(RecursionLimit))
  {
    SelfObjectPartFailsOnlyOnDepth(h, a, c, refs, depth);
    if depth > 0 && DoObject(h, refs, a, KeepAll, depth).result.Ok? {
      FreshSelfArrayItemsFail(h, a, c, refs, depth);
    }
  }

  /** After its first registration, the array's items fail. */
  lemma FreshSelfArrayItemsFail(h: Heap, a: NodeId, c: NodeId, refs: Refs, depth: nat)
    requires SelfArray(h, a, c) && a !in refs && depth >= 1
    ensures var o := DoObject(h, refs, a, KeepAll, depth);
      ArrayItemsFrom(h, o.refs, h[a].obj.classdesc, h[a].elements, 0, depth).result == Err(RecursionLimit)
  {
    FirstEncounterRegisters(h, refs, a, KeepAll, depth);
    SelfArrayItemsFail(h, a, c, DoObject(h, refs, a, KeepAll, depth).refs, depth);
  }

  /** A self-containing array gives no document at any depth: instead of
      one rendering and one pointer, the code recurses until the Python
      stack is exhausted. */
  lemma SelfArrayExhaustsStack(h: Heap, a: NodeId, c: NodeId, refs: Refs, depth: nat)
    requires SelfArray(h, a, c)
    ensures DoArray(h, refs, a, depth).result == Err(RecursionLimit)
  {
    if a in refs {
      RegisteredSelfArrayExhaustsStack(h, a, c, refs, depth);
    } else if depth >= 1 {
      FreshSelfArrayExhaustsStack(h, a, c, refs, depth);
    }
  }

  /** An object `o` whose only field `next` holds the object itself; its
      class `c` declares that one field and has no superclass. */
  predicate SelfObject(h: Heap, o: NodeId, c: NodeId)
  {
    o in h && h[o].ObjectNode? && h[o].obj.classdesc == Some(c) &&
    h[o].obj.fields == map["next" := Instance(o)] && h[o].obj.annotations == [] &&
    c in h && h[c].ClassNode? && h[c].fieldNames == ["next"] && h[c].superclass.None?
  }

  /** The class of the self-referencing object, met second. */
  lemma SelfObjectClass(h: Heap, o: NodeId, c: NodeId, depth: nat)
    requires SelfObject(h, o, c) && depth >= 3
    ensures DoClass(h, [o], c, depth) ==
      Step(Ok(Element("class", ClassAttrs(1, h[c]),
                      [Element("fields", [], FieldDecls(["next"], h[c].fieldTypes))])), [o, c])
  {
    assert c !in [o] && [o] + [c] == [o, c];
    var decls := Element("fields", [], FieldDecls(h[c].fieldNames, h[c].fieldTypes));
    assert SuperclassPart(h, [o, c], None, depth - 1) == Step(Ok([]), [o, c]);
    assert [] + [decls] == [decls];
  }

  /** The field of the self-referencing object is a pointer back to it. */
  lemma SelfObjectField(h: Heap, o: NodeId, c: NodeId, depth: nat)
    requires SelfObject(h, o, c) && depth >= 3
    ensures FieldsFrom(h, [o, c], h[o].obj, ["next"], 0, depth) ==
      Step(Ok([Element("field", [Attr("name", "next")], [Reference(0)])]), [o, c])
  {
    var obj := h[o].obj;
    assert DoValue(h, [o, c], Instance(o), depth) == Step(Ok(Reference(0)), [o, c]) by {
      TypeTable.LookupByKind(h, Instance(o));
      assert IndexOf([o, c], o) == 0;
      assert DoObject(h, [o, c], o, KeepAll, depth - 2) == Step(Ok(Reference(0)), [o, c]);
    }
    assert FieldValue(h, [o, c], obj, "next", depth) == Step(Ok(Reference(0)), [o, c]);
    assert FieldsFrom(h, [o, c], obj, ["next"], 1, depth) == Step(Ok([]), [o, c]);
    var field := Element("field", [Attr("name", "next")], [Reference(0)]);
    assert [field] + [] == [field];
  }

  /** Cycle termination: the self-referencing object renders in full once,
      with its class, and its field holds a pointer back to index 0. */
  lemma SelfReferenceRendersOnce(h: Heap, o: NodeId, c: NodeId, depth: nat)
    requires SelfObject(h, o, c) && depth >= 4
    ensures DoObject(h, [], o, KeepAll, depth) ==
      Step(Ok(Element("object", [RefAttr(0)],
                      [Element("class", ClassAttrs(1, h[c]),
                               [Element("fields", [], FieldDecls(["next"], h[c].fieldTypes))]),
                       Element("fields", [], [Element("field", [Attr("name", "next")], [Reference(0)])]),
                       Element("annotations", [], [])])),
           [o, c])
  {
    var obj := h[o].obj;
    SelfObjectClass(h, o, c, depth - 1);
    SelfObjectField(h, o, c, depth - 1);
    assert Hierarchy.FieldNames(h, Some(c), {}) == Ok(["next"]) by {
      assert Hierarchy.FieldNames(h, None, {c}) == Ok([]);
      assert ["next"] + [] == ["next"];
    }
    var field := Element("field", [Attr("name", "next")], [Reference(0)]);
    var klass := Element("class", ClassAttrs(1, h[c]),
                         [Element("fields", [], FieldDecls(["next"], h[c].fieldTypes))]);
    var fieldsEl := Element("fields", [], [field]);
    assert DescriptorPart(h, [o], obj, depth - 1) == Step(Ok([klass, fieldsEl]), [o, c]);
    assert AnnotationsFrom(h, [o, c], [], KeepAll, 0, depth - 1) == Step(Ok([]), [o, c]);
    var annsEl := Element("annotations", [], []);
    assert [klass, fieldsEl] + [annsEl] == [klass, fieldsEl, annsEl];
    assert FreshObject(h, [o], 0, obj, KeepAll, depth - 1) ==
      Step(Ok(Element("object", [RefAttr(0)], [klass, fieldsEl, annsEl])), [o, c]);
    assert [] + [o] == [o];
  }

  /** The registry is not reset between two `marshall` calls on one
      marshaller: a string rendered by the first call is only a pointer in
      the second, so the two calls are not independent. */
  lemma SecondMarshallSeesFirst(h: Heap, s: NodeId, depth: nat)
    requires s in h && h[s].StringNode? && depth >= 1
    ensures Marshall(h, [], [Instance(s)], depth) ==
      Step(Ok(Element("root", [], [Element("string", [RefAttr(0)], [Text(h[s].text)])])), [s])
    ensures Marshall(h, [s], [Instance(s)], depth) ==
      Step(Ok(Element("root", [], [Element("reference", [IdxAttr(0)], [Comment(h[s].text)])])), [s])
  {
    TypeTable.LookupByKind(h, Instance(s));
    assert [] + [s] == [s];
    var first := Element("string", [RefAttr(0)], [Text(h[s].text)]);
    var second := Element("reference", [IdxAttr(0)], [Comment(h[s].text)]);
    assert LookupAndExec(h, [], Instance(s), depth) == Step(Ok(first), [s]);
    assert LookupAndExec(h, [s], Instance(s), depth) == Step(Ok(second), [s]);
    assert TopLevelFrom(h, [s], [Instance(s)], 1, depth) == Step(Ok([]), [s]);
    assert [first] + [] == [first] && [second] + [] == [second];
    assert TopLevelFrom(h, [], [Instance(s)], 0, depth) == Step(Ok([first]), [s]);
    assert TopLevelFrom(h, [s], [Instance(s)], 0, depth) == Step(Ok([second]), [s]);
  }

  /** More generally, a plain object that an earlier call registered is
      only a pointer in a later call on the same marshaller. */
  lemma LaterMarshallPointsBack(h: Heap, refs: Refs, o: NodeId, depth: nat)
    requires o in refs && o in h && h[o].ObjectNode? && depth >= 2
    ensures Marshall(h, refs, [Instance(o)], depth) ==
      Step(Ok(Element("root", [], [Reference(IndexOf(refs, o))])), refs)
  {
    RegisteredObjectIsPointer(h, refs, o, depth);
    assert TopLevelFrom(h, refs, [Instance(o)], 1, depth) == Step(Ok([]), refs);
    assert [Reference(IndexOf(refs, o))] + [] == [Reference(IndexOf(refs, o))];
  }

  /** A whole call registers every node at most once, so the indices it
      hands out are 0, 1, 2, … in registration order. */
  lemma MarshallRegistersOnce(h: Heap, top: seq<Value>, depth: nat)
    ensures NoDup(Marshall(h, [], top, depth).refs)
  {
  }

  /** bool, int and float field values are their `str()` text; everything
      else is dispatched. */
  lemma FieldValueCases(h: Heap, refs: Refs, v: Value, depth: nat)
    requires depth > 0
    ensures v.Int? ==> DoValue(h, refs, v, depth) == Step(Ok(Text(Numerals.Decimal(v.i))), refs)
    ensures v.Bool? ==> DoValue(h, refs, v, depth) == Step(Ok(Text(if v.b then "True" else "False")), refs)
    ensures v.Float? ==> DoValue(h, refs, v, depth) == Step(Ok(Text(v.text)), refs)
    ensures !v.Int? && !v.Bool? && !v.Float? ==> DoValue(h, refs, v, depth) == LookupAndExec(h, refs, v, depth - 1)
  {
  }

  /** A first rendering of a class: its name, and its handle, serial and
      flags in hexadecimal; then its superclass, if any; then its own
      (name, type) pairs only, never its superclass's. */
  lemma ClassElementShape(h: Heap, refs: Refs, id: NodeId, depth: nat)
    requires id in h && h[id].ClassNode? && id !in refs && depth > 0
    ensures var r := DoClass(h, refs, id, depth);
      r.result.Ok? ==>
        var c := h[id];
        var x := r.result.value;
        x.tag == "class" &&
        x.attrs == [RefAttr(|refs|), Attr("name", c.name), Attr("handle", Numerals.Hex(c.handle)),
                    Attr("serial", Numerals.Hex(c.serial)), Attr("flags", Numerals.Hex(c.flags))] &&
        |x.children| == (if c.superclass.Some? && Truthy(h, Instance(c.superclass.value)) then 2 else 1) &&
        x.children[|x.children| - 1] == Element("fields", [], FieldDecls(c.fieldNames, c.fieldTypes))
  {
    var c := h[id];
    var sup := SuperclassPart(h, refs + [id], c.superclass, depth - 1);
    if sup.result.Ok? {
      assert |sup.result.value| == (if c.superclass.Some? && Truthy(h, Instance(c.superclass.value)) then 1 else 0);
    }
  }

  /** A descriptor that is not a class takes an index and then raises. */
  lemma NonClassDescriptorRegistersThenFails(h: Heap, refs: Refs, id: NodeId, depth: nat)
    requires (id !in h || !h[id].ClassNode?) && id !in refs && depth > 0
    ensures DoClass(h, refs, id, depth) == Step(Err(AttributeError), refs + [id])
  {
  }

  /** A first rendering of a proxy class: a `handle` attribute only when the
      handle is nonzero, and its interface names in order. */
  lemma ProxyElementShape(h: Heap, refs: Refs, id: NodeId, depth: nat)
    requires id in h && h[id].ProxyClassNode? && id !in refs && depth > 0
    ensures var r := DoProxyClass(h, refs, id, depth);
      r.result.Ok? ==>
        var p := h[id];
        var x := r.result.value;
        x.tag == "proxyclass" &&
        x.attrs == (if p.handle != 0 then [RefAttr(|refs|), Attr("handle", Numerals.Hex(p.handle))]
                    else [RefAttr(|refs|)]) &&
        |x.children| >= 1 &&
        var names := x.children[|x.children| - 1];
        names.tag == "proxyInterfaceNames" && |names.children| == |p.interfaceNames| &&
        forall k :: 0 <= k < |p.interfaceNames| ==>
          names.children[k] == Element("proxyInterfaceName", [], [Text(p.interfaceNames[k])])
  {
  }
}
