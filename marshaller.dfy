/** `XmlMarshaller` as the object it is: one registry (`_references`) that
    every renderer appends to in place, and the renderers as methods with
    the loops of the source. Each method is proved to compute what the
    corresponding function of `Render` specifies, from the registry it
    starts with. */
module Marshalling {
  import opened Basics
  import opened JavaObj
  import opened Xml
  import Numerals
  import TypeTable
  import Leaves
  import Hierarchy
  import Render

  /** The first table entry `v` is an instance of (the `for typ, func in
      self.TYPE_MAP` loop of `_lookup_and_exec`). */
  method FindHandler(h: Heap, v: Value) returns (t: Option<TypeTable.TypeTag>)
    ensures t == TypeTable.Lookup(h, v)
    ensures t.Some? ==> TypeTable.IsInstance(h, v, t.value)
  {
    for k := 0 to |TypeTable.Table|
      invariant forall j :: 0 <= j < k ==> !TypeTable.IsInstance(h, v, TypeTable.Table[j])
    {
      if TypeTable.IsInstance(h, v, TypeTable.Table[k]) {
        TypeTable.FirstMatchIs(h, v, 0, k);
        return Some(TypeTable.Table[k]);
      }
    }
    return None;
  }

  /** The `while tmpcls` loop of `do_object`. The source keeps no record of
      the classes it has walked; this loop does, to stop with Diverges where
      the source would never stop. */
  method CollectFieldNames(h: Heap, start: Option<NodeId>) returns (r: Result<seq<string>>)
    ensures r == Hierarchy.FieldNames(h, start, {})
  {
    var names: seq<string> := [];
    var visited: set<NodeId> := {};
    var tmpcls := start;
    Hierarchy.PrependNamesAgain([], [], Hierarchy.FieldNames(h, start, {}));
    while tmpcls.Some? && Truthy(h, Instance(tmpcls.value))
      invariant visited <= h.Keys
      invariant Hierarchy.FieldNames(h, start, {}) ==
                Hierarchy.PrependNames(names, Hierarchy.FieldNames(h, tmpcls, visited))
      decreases h.Keys - visited
    {
      var id := tmpcls.value;
      if id !in h || !h[id].ClassNode? {
        return Err(AttributeError);
      }
      if id in visited {
        return Err(Diverges);
      }
      Hierarchy.PrependNamesAgain(names, h[id].fieldNames, Hierarchy.FieldNames(h, h[id].superclass, visited + {id}));
      names := names + h[id].fieldNames;
      visited := visited + {id};
      tmpcls := h[id].superclass;
    }
    assert names + [] == names;
    return Ok(names);
  }

  /** The `for name, typ in zip(...)` loop of `do_class`. */
  method FieldDeclarations(names: seq<string>, types: seq<string>) returns (decls: seq<Xml>)
    ensures decls == Render.FieldDecls(names, types)
  {
    var n := if |names| <= |types| then |names| else |types|;
    decls := [];
    for k := 0 to n
      invariant |decls| == k
      invariant forall j :: 0 <= j < k ==>
        decls[j] == Element("field", [Attr("name", names[j]), Attr("type", types[j])], [])
    {
      decls := decls + [Element("field", [Attr("name", names[k]), Attr("type", types[k])], [])];
    }
  }

  /** The `for name in prxcls.interface_names` loop of `do_proxyclass`. */
  method InterfaceNameElements(names: seq<string>) returns (els: seq<Xml>)
    ensures els == Render.InterfaceNames(names)
  {
    els := [];
    for k := 0 to |names|
      invariant |els| == k
      invariant forall j :: 0 <= j < k ==> els[j] == Element("proxyInterfaceName", [], [Text(names[j])])
    {
      els := els + [Element("proxyInterfaceName", [], [Text(names[k])])];
    }
  }

  class XmlMarshaller {
    /** `_references`: every node registered so far, in registration order. */
    var references: seq<NodeId>

    constructor ()
      ensures references == []
    {
      references := [];
    }

    /** `marshall`. The registry is not reset: it carries over from any
        earlier call on the same marshaller. */
    method Marshall(h: Heap, top: seq<Value>, depth: nat) returns (r: Result<Xml>)
      modifies this
      ensures Render.Step(r, references) == Render.Marshall(h, old(references), top, depth)
    {
      var items: seq<Xml> := [];
      Render.PrependNothing(Render.TopLevelFrom(h, references, top, 0, depth));
      for i := 0 to |top|
        invariant Render.TopLevelFrom(h, old(references), top, 0, depth) ==
                  Render.Prepend(items, Render.TopLevelFrom(h, references, top, i, depth))
      {
        var x := LookupAndExec(h, top[i], depth);
        if x.Err? {
          return Err(x.failure);
        }
        Render.PrependOne(items, x.value, Render.TopLevelFrom(h, references, top, i + 1, depth));
        items := items + [x.value];
      }
      assert items + [] == items;
      return Ok(Element("root", [], items));
    }

    /** `_lookup_and_exec`. */
    method LookupAndExec(h: Heap, v: Value, depth: nat) returns (r: Result<Xml>)
      modifies this
      ensures Render.Step(r, references) == Render.LookupAndExec(h, old(references), v, depth)
      decreases depth, 0
    {
      if depth == 0 {
        return Err(RecursionLimit);
      }
      var t := FindHandler(h, v);
      match t {
        case None => r := Err(NoHandler);
        case Some(JavaArray) => r := ExecCollection(h, v, TypeTable.JavaArray, depth);
        case Some(JavaMap) => r := ExecCollection(h, v, TypeTable.JavaMap, depth);
        case Some(JavaList) => r := ExecCollection(h, v, TypeTable.JavaList, depth);
        case Some(JavaEnum) => r := Ok(EnumMarker);
        case Some(JavaString) =>
          assert Render.LookupAndExec(h, references, v, depth) == Render.DoString(h, references, v.id);
          r := DoString(h, v.id);
        case Some(JavaObject) =>
          assert Render.LookupAndExec(h, references, v, depth) ==
                 Render.DoObject(h, references, v.id, Render.KeepAll, depth - 1);
          r := DoObject(h, v.id, Render.KeepAll, depth - 1);
        case Some(JavaClass) =>
          assert Render.LookupAndExec(h, references, v, depth) == Render.DoClass(h, references, v.id, depth - 1);
          r := DoClass(h, v.id, depth - 1);
        case Some(JavaProxyClass) =>
          assert Render.LookupAndExec(h, references, v, depth) ==
                 Render.DoProxyClass(h, references, v.id, depth - 1);
          r := DoProxyClass(h, v.id, depth - 1);
        case Some(ByteString) => r := Ok(Leaves.DoBlockData(v.bytes));
        case Some(NoneType) => r := Ok(NullMarker);
      }
    }

    /** The three collection entries of the table, which come first. */
    method ExecCollection(h: Heap, v: Value, t: TypeTable.TypeTag, depth: nat) returns (r: Result<Xml>)
      requires depth > 0 && t in {TypeTable.JavaArray, TypeTable.JavaMap, TypeTable.JavaList} && TypeTable.Lookup(h, v) == Some(t)
      requires TypeTable.IsInstance(h, v, t)
      modifies this
      ensures Render.Step(r, references) == Render.LookupAndExec(h, old(references), v, depth)
      decreases depth - 1, 1
    {
      if t == TypeTable.JavaArray {
        assert Render.LookupAndExec(h, references, v, depth) == Render.DoArray(h, references, v.id, depth - 1);
        r := DoArray(h, v.id, depth - 1);
      } else if t == TypeTable.JavaMap {
        assert Render.LookupAndExec(h, references, v, depth) == Render.DoMap(h, references, v.id, depth - 1);
        r := DoMap(h, v.id, depth - 1);
      } else {
        assert Render.LookupAndExec(h, references, v, depth) == Render.DoList(h, references, v.id, depth - 1);
        r := DoList(h, v.id, depth - 1);
      }
    }

    /** `do_value`. */
    method DoValue(h: Heap, v: Value, depth: nat) returns (r: Result<Xml>)
      modifies this
      ensures Render.Step(r, references) == Render.DoValue(h, old(references), v, depth)
      decreases depth, 0
    {
      if depth == 0 {
        return Err(RecursionLimit);
      }
      if v.Bool? || v.Int? || v.Float? {
        return Ok(Text(PyStr(h, v)));
      }
      r := LookupAndExec(h, v, depth - 1);
    }

    /** `do_object`: the reference check, the registration, the descriptor,
        the field loop (with its `try`) and the annotation loop. */
    method DoObject(h: Heap, id: NodeId, filter: Render.AnnotationFilter, depth: nat) returns (r: Result<Xml>)
      requires id in h && h[id].IsObject()
      modifies this
      ensures Render.Step(r, references) == Render.DoObject(h, old(references), id, filter, depth)
      decreases depth, 0
    {
      if depth == 0 {
        return Err(RecursionLimit);
      }
      if id in references {
        return Ok(Reference(Render.IndexOf(references, id)));
      }
      var ref := |references|;
      references := references + [id];
      var obj := h[id].obj;
      ghost var registered := references;
      assert Render.DoObject(h, old(references), id, filter, depth) ==
             Render.FreshObject(h, registered, ref, obj, filter, depth - 1);

      var children := DescriptorChildren(h, obj, depth - 1);
      if children.Err? {
        return Err(children.failure);
      }
      var anns := AnnotationElements(h, obj.annotations, filter, depth - 1);
      if anns.Err? {
        return Err(anns.failure);
      }
      return Ok(Element("object", [RefAttr(ref)], children.value + [Element("annotations", [], anns.value)]));
    }

    /** The annotation loop of `do_object`: the annotations the filter
        keeps, each dispatched and wrapped in `annotation`. */
    method AnnotationElements(h: Heap, anns: seq<Value>, filter: Render.AnnotationFilter, depth: nat)
      returns (r: Result<seq<Xml>>)
      modifies this
      ensures Render.Step(r, references) == Render.AnnotationsFrom(h, old(references), anns, filter, 0, depth)
      decreases depth, 1
    {
      var els: seq<Xml> := [];
      Render.PrependNothing(Render.AnnotationsFrom(h, references, anns, filter, 0, depth));
      for k := 0 to |anns|
        invariant Render.AnnotationsFrom(h, old(references), anns, filter, 0, depth) ==
                  Render.Prepend(els, Render.AnnotationsFrom(h, references, anns, filter, k, depth))
      {
        if Render.Keeps(filter, k) {
          var a := LookupAndExec(h, anns[k], depth);
          if a.Err? {
            return Err(a.failure);
          }
          Render.PrependOne(els, Wrap("annotation", [], a.value), Render.AnnotationsFrom(h, references, anns, filter, k + 1, depth));
          els := els + [Wrap("annotation", [], a.value)];
        }
      }
      assert els + [] == els;
      return Ok(els);
    }

    /** The part of `do_object` between the registration and the
        annotations: `do_class` and the field loop for a class, or
        `do_proxyclass` for a proxy class. */
    method DescriptorChildren(h: Heap, obj: ObjectData, depth: nat) returns (r: Result<seq<Xml>>)
      modifies this
      ensures Render.Step(r, references) == Render.DescriptorPart(h, old(references), obj, depth)
      decreases depth, 2
    {
      var tmpcls := obj.classdesc;
      if tmpcls.Some? && tmpcls.value in h && h[tmpcls.value].ClassNode? {
        var cls := DoClass(h, tmpcls.value, depth);
        if cls.Err? {
          return Err(cls.failure);
        }
        var names := CollectFieldNames(h, tmpcls);
        if names.Err? {
          return Err(names.failure);
        }
        var fields := FieldElements(h, obj, names.value, depth);
        if fields.Err? {
          return Err(fields.failure);
        }
        return Ok([cls.value, Element("fields", [], fields.value)]);
      } else if tmpcls.Some? && tmpcls.value in h && h[tmpcls.value].ProxyClassNode? {
        var p := DoProxyClass(h, tmpcls.value, depth);
        if p.Err? {
          return Err(p.failure);
        }
        return Ok([p.value]);
      }
      return Ok([]);
    }

    /** The `for field in field_names` loop of `do_object`, with its `try`:
        an AttributeError, from `getattr` or from rendering the value, gives
        the null marker. */
    method FieldElements(h: Heap, obj: ObjectData, names: seq<string>, depth: nat) returns (r: Result<seq<Xml>>)
      modifies this
      ensures Render.Step(r, references) == Render.FieldsFrom(h, old(references), obj, names, 0, depth)
      decreases depth, 1
    {
      var fields: seq<Xml> := [];
      Render.PrependNothing(Render.FieldsFrom(h, references, obj, names, 0, depth));
      for i := 0 to |names|
        invariant Render.FieldsFrom(h, old(references), obj, names, 0, depth) ==
                  Render.Prepend(fields, Render.FieldsFrom(h, references, obj, names, i, depth))
      {
        var name := names[i];
        var sub: Result<Xml>;
        if name !in obj.fields {
          sub := Ok(NullMarker);
        } else {
          sub := DoValue(h, obj.fields[name], depth);
          if sub == Err(AttributeError) {
            sub := Ok(NullMarker);
          }
        }
        if sub.Err? {
          return Err(sub.failure);
        }
        Render.PrependOne(fields, Wrap("field", [Attr("name", name)], sub.value),
                          Render.FieldsFrom(h, references, obj, names, i + 1, depth));
        fields := fields + [Wrap("field", [Attr("name", name)], sub.value)];
      }
      assert fields + [] == fields;
      return Ok(fields);
    }

    /** `do_string`. */
    method DoString(h: Heap, id: NodeId) returns (r: Result<Xml>)
      requires id in h && h[id].StringNode?
      modifies this
      ensures Render.Step(r, references) == Render.DoString(h, old(references), id)
    {
      if id in references {
        return Ok(Element("reference", [IdxAttr(Render.IndexOf(references, id))], [Comment(h[id].text)]));
      }
      var ref := |references|;
      references := references + [id];
      return Ok(Element("string", [RefAttr(ref)], [Text(h[id].text)]));
    }

    /** `do_class`. */
    method DoClass(h: Heap, id: NodeId, depth: nat) returns (r: Result<Xml>)
      modifies this
      ensures Render.Step(r, references) == Render.DoClass(h, old(references), id, depth)
      decreases depth, 0
    {
      if depth == 0 {
        return Err(RecursionLimit);
      }
      if id in references {
        return Ok(Reference(Render.IndexOf(references, id)));
      }
      var ref := |references|;
      references := references + [id];
      if id !in h || !h[id].ClassNode? {
        return Err(AttributeError);
      }
      var cls := h[id];
      var children: seq<Xml> := [];
      if cls.superclass.Some? && Truthy(h, Instance(cls.superclass.value)) {
        var scls := DoClass(h, cls.superclass.value, depth - 1);
        if scls.Err? {
          return Err(scls.failure);
        }
        children := [Retag(scls.value, "superclass")];
      }
      var decls := FieldDeclarations(cls.fieldNames, cls.fieldTypes);
      return Ok(Element("class", Render.ClassAttrs(ref, cls), children + [Element("fields", [], decls)]));
    }

    /** `do_proxyclass`. */
    method DoProxyClass(h: Heap, id: NodeId, depth: nat) returns (r: Result<Xml>)
      requires id in h && h[id].ProxyClassNode?
      modifies this
      ensures Render.Step(r, references) == Render.DoProxyClass(h, old(references), id, depth)
      decreases depth, 0
    {
      if depth == 0 {
        return Err(RecursionLimit);
      }
      if id in references {
        return Ok(Reference(Render.IndexOf(references, id)));
      }
      var ref := |references|;
      references := references + [id];
      var prxcls := h[id];
      var attrs := [RefAttr(ref)];
      if prxcls.handle != 0 {
        attrs := attrs + [Attr("handle", Numerals.Hex(prxcls.handle))];
      }
      var children: seq<Xml> := [];
      if prxcls.superclass.Some? && Truthy(h, Instance(prxcls.superclass.value)) {
        var scls := DoClass(h, prxcls.superclass.value, depth - 1);
        if scls.Err? {
          return Err(scls.failure);
        }
        children := [Retag(scls.value, "superclass")];
      }
      assert attrs == Render.ProxyAttrs(ref, prxcls.handle);
      var names := InterfaceNameElements(prxcls.interfaceNames);
      return Ok(Element("proxyclass", attrs, children + [Element("proxyInterfaceNames", [], names)]));
    }

    /** `do_array`. */
    method DoArray(h: Heap, id: NodeId, depth: nat) returns (r: Result<Xml>)
      requires id in h && h[id].ArrayNode?
      modifies this
      ensures Render.Step(r, references) == Render.DoArray(h, old(references), id, depth)
      decreases depth, 0
    {
      if depth == 0 {
        return Err(RecursionLimit);
      }
      var arr := DoObject(h, id, Render.KeepAll, depth - 1);
      if arr.Err? {
        return Err(arr.failure);
      }
      var arrEl := Retag(arr.value, "array");
      var items := ArrayItems(h, h[id].obj.classdesc, h[id].elements, depth - 1);
      if items.Err? {
        return Err(items.failure);
      }
      return Ok(AppendChild(arrEl, Element("items", [], items.value)));
    }

    /** The item loop of `do_array`. The element type is looked up in the
        class name anew for every element, as the source does. */
    method ArrayItems(h: Heap, cls: Option<NodeId>, elems: seq<Value>, depth: nat) returns (r: Result<seq<Xml>>)
      modifies this
      ensures Render.Step(r, references) == Render.ArrayItemsFrom(h, old(references), cls, elems, 0, depth)
      decreases depth, 1
    {
      var items: seq<Xml> := [];
      Render.PrependNothing(Render.ArrayItemsFrom(h, references, cls, elems, 0, depth));
      for i := 0 to |elems|
        invariant Render.ArrayItemsFrom(h, old(references), cls, elems, 0, depth) ==
                  Render.Prepend(items, Render.ArrayItemsFrom(h, references, cls, elems, i, depth))
      {
        var x: Result<Xml>;
        match Leaves.ElementModeOf(h, cls) {
          case Err(f) =>
            return Err(f);
          case Ok(ByDispatch) =>
            x := LookupAndExec(h, elems[i], depth);
          case Ok(ByTag(t)) =>
            match Leaves.DoScalar(h, t, elems[i]) {
              case Err(f) => x := Err(f);
              case Ok(None) => x := Err(AttributeError);
              case Ok(Some(s)) => x := Ok(Text(s));
            }
        }
        if x.Err? {
          return Err(x.failure);
        }
        Render.PrependOne(items, Wrap("item", [], x.value), Render.ArrayItemsFrom(h, references, cls, elems, i + 1, depth));
        items := items + [Wrap("item", [], x.value)];
      }
      assert items + [] == items;
      return Ok(items);
    }

    /** `do_map`. */
    method DoMap(h: Heap, id: NodeId, depth: nat) returns (r: Result<Xml>)
      requires id in h && h[id].MapNode?
      modifies this
      ensures Render.Step(r, references) == Render.DoMap(h, old(references), id, depth)
      decreases depth, 0
    {
      if depth == 0 {
        return Err(RecursionLimit);
      }
      var m := DoObject(h, id, Render.KeepHeader, depth - 1);
      if m.Err? {
        return Err(m.failure);
      }
      var mapEl := Retag(m.value, "map");
      var items := MapItems(h, h[id].obj.annotations, depth - 1);
      if items.Err? {
        return Err(items.failure);
      }
      return Ok(AppendChild(mapEl, Element("items", [], items.value)));
    }

    /** The `range(1, len(obj.annotations), 2)` loop of `do_map`. */
    method MapItems(h: Heap, anns: seq<Value>, depth: nat) returns (r: Result<seq<Xml>>)
      modifies this
      ensures Render.Step(r, references) == Render.MapItemsFrom(h, old(references), anns, 1, depth)
      decreases depth, 1
    {
      var items: seq<Xml> := [];
      Render.PrependNothing(Render.MapItemsFrom(h, references, anns, 1, depth));
      var i := 1;
      while i < |anns|
        invariant 1 <= i <= |anns| + 1
        invariant Render.MapItemsFrom(h, old(references), anns, 1, depth) ==
                  Render.Prepend(items, Render.MapItemsFrom(h, references, anns, i, depth))
        decreases |anns| + 1 - i
      {
        var name := PyStr(h, anns[i]);
        if i + 1 >= |anns| {
          return Err(IndexError);
        }
        var x := LookupAndExec(h, anns[i + 1], depth);
        if x.Err? {
          return Err(x.failure);
        }
        Render.PrependOne(items, Wrap("item", [Attr("name", name)], x.value), Render.MapItemsFrom(h, references, anns, i + 2, depth));
        items := items + [Wrap("item", [Attr("name", name)], x.value)];
        i := i + 2;
      }
      assert items + [] == items;
      return Ok(items);
    }

    /** `do_list`. */
    method DoList(h: Heap, id: NodeId, depth: nat) returns (r: Result<Xml>)
      requires id in h && h[id].ListNode?
      modifies this
      ensures Render.Step(r, references) == Render.DoList(h, old(references), id, depth)
      decreases depth, 0
    {
      if depth == 0 {
        return Err(RecursionLimit);
      }
      var l := DoObject(h, id, Render.KeepHeader, depth - 1);
      if l.Err? {
        return Err(l.failure);
      }
      var listEl := Retag(l.value, "list");
      var items := ListItems(h, h[id].obj.annotations, depth - 1);
      if items.Err? {
        return Err(items.failure);
      }
      return Ok(AppendChild(listEl, Element("items", [], items.value)));
    }

    /** The `range(1, len(obj.annotations))` loop of `do_list`. */
    method ListItems(h: Heap, anns: seq<Value>, depth: nat) returns (r: Result<seq<Xml>>)
      modifies this
      ensures Render.Step(r, references) == Render.ListItemsFrom(h, old(references), anns, 1, depth)
      decreases depth, 1
    {
      var items: seq<Xml> := [];
      Render.PrependNothing(Render.ListItemsFrom(h, references, anns, 1, depth));
      var i := 1;
      while i < |anns|
        invariant 1 <= i <= |anns| + 1
        invariant Render.ListItemsFrom(h, old(references), anns, 1, depth) ==
                  Render.Prepend(items, Render.ListItemsFrom(h, references, anns, i, depth))
        decreases |anns| + 1 - i
      {
        var x := LookupAndExec(h, anns[i], depth);
        if x.Err? {
          return Err(x.failure);
        }
        Render.PrependOne(items, Wrap("item", [], x.value), Render.ListItemsFrom(h, references, anns, i + 1, depth));
        items := items + [Wrap("item", [], x.value)];
        i := i + 1;
      }
      assert items + [] == items;
      return Ok(items);
    }
  }
}
