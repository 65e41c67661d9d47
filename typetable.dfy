/** The dispatcher's table (`TYPE_MAP`): an ordered list of classes, each with
    its renderer, tried in order with `isinstance`; the first match wins
    and no match is an error. */
module TypeTable {
  import opened Basics
  import opened JavaObj

  /** The classes the table lists, by the renderer each selects. */
  datatype TypeTag =
    | JavaArray       // do_array
    | JavaMap         // do_map
    | JavaList        // do_list
    | JavaEnum        // do_enum
    | JavaString      // do_string
    | JavaObject      // do_object
    | JavaClass       // do_class
    | JavaProxyClass  // do_proxyclass
    | ByteString      // `str`: do_blockdata
    | NoneType        // `type(None)`: do_null

  /** The table in the order it is tried. */
  const Table: seq<TypeTag> := [JavaArray, JavaMap, JavaList, JavaEnum, JavaString,
                                JavaObject, JavaClass, JavaProxyClass, ByteString, NoneType]

  /** `isinstance(v, t)`. An array, map, list or enum is also a JavaObject. */
  predicate IsInstance(h: Heap, v: Value, t: TypeTag)
  {
    match t
    case JavaArray => v.Instance? && v.id in h && h[v.id].ArrayNode?
    case JavaMap => v.Instance? && v.id in h && h[v.id].MapNode?
    case JavaList => v.Instance? && v.id in h && h[v.id].ListNode?
    case JavaEnum => v.Instance? && v.id in h && h[v.id].EnumNode?
    case JavaString => v.Instance? && v.id in h && h[v.id].StringNode?
    case JavaObject => v.Instance? && v.id in h && h[v.id].IsObject()
    case JavaClass => v.Instance? && v.id in h && h[v.id].ClassNode?
    case JavaProxyClass => v.Instance? && v.id in h && h[v.id].ProxyClassNode?
    case ByteString => v.BlockData?
    case NoneType => v.Null?
  }

  /** The position of the first entry at or after `from` that `v` is an
      instance of; |Table| when there is none. */
  function FirstMatch(h: Heap, v: Value, from: nat): (k: nat)
    requires from <= |Table|
    ensures from <= k <= |Table|
    ensures k < |Table| ==> IsInstance(h, v, Table[k])
    decreases |Table| - from
  {
    if from == |Table| || IsInstance(h, v, Table[from]) then from
    else FirstMatch(h, v, from + 1)
  }

  /** No entry the scan passes over matches `v`. */
  lemma {:induction false} FirstMatchSkips(h: Heap, v: Value, from: nat)
    requires from <= |Table|
    ensures forall j :: from <= j < FirstMatch(h, v, from) ==> !IsInstance(h, v, Table[j])
    decreases |Table| - from
  {
    if from < |Table| && !IsInstance(h, v, Table[from]) {
      FirstMatchSkips(h, v, from + 1);
    }
  }

  /** The first match is the entry found by scanning from `from`: one `v` is
      an instance of, with none before it. */
  lemma {:induction false} FirstMatchIs(h: Heap, v: Value, from: nat, k: nat)
    requires from <= k < |Table| && IsInstance(h, v, Table[k])
    requires forall j :: from <= j < k ==> !IsInstance(h, v, Table[j])
    ensures FirstMatch(h, v, from) == k
    decreases k - from
  {
    if from < k {
      FirstMatchIs(h, v, from + 1, k);
    }
  }

  /** The renderer `_lookup_and_exec` selects for `v`; None raises RuntimeError. */
  function Lookup(h: Heap, v: Value): Option<TypeTag>
  {
    var k := FirstMatch(h, v, 0);
    if k < |Table| then Some(Table[k]) else None
  }

  /** The position of every class in the table. */
  function Position(t: TypeTag): (k: nat)
    ensures k < |Table| && Table[k] == t
  {
    match t
    case JavaArray => 0
    case JavaMap => 1
    case JavaList => 2
    case JavaEnum => 3
    case JavaString => 4
    case JavaObject => 5
    case JavaClass => 6
    case JavaProxyClass => 7
    case ByteString => 8
    case NoneType => 9
  }

  /** What `Lookup` selects, stated entry by entry: the selected class is one
      `v` is an instance of and every class listed before it is not; no class
      at all is selected exactly when `v` is an instance of none. */
  lemma LookupIsFirstMatch(h: Heap, v: Value)
    ensures Lookup(h, v).Some? ==>
      IsInstance(h, v, Lookup(h, v).value) &&
      forall j :: 0 <= j < Position(Lookup(h, v).value) ==> !IsInstance(h, v, Table[j])
    ensures Lookup(h, v).None? <==> forall t :: !IsInstance(h, v, t)
  {
    var k := FirstMatch(h, v, 0);
    FirstMatchSkips(h, v, 0);
    if k < |Table| {
      var t := Table[k];
      assert Position(t) == k by {
        forall j | 0 <= j < |Table| && j != k
          ensures Table[j] != Table[k]
        {
        }
      }
    } else {
      forall t
        ensures !IsInstance(h, v, t)
      {
        assert Table[Position(t)] == t;
      }
    }
  }

  /** The renderer each kind of value reaches, written out directly: a
      reference definition of the table's outcome. */
  function Expected(h: Heap, v: Value): Option<TypeTag>
  {
    match v
    case Instance(id) =>
      if id !in h then None
      else (match h[id]
        case ArrayNode(_, _) => Some(JavaArray)
        case MapNode(_) => Some(JavaMap)
        case ListNode(_) => Some(JavaList)
        case EnumNode(_) => Some(JavaEnum)
        case ObjectNode(_) => Some(JavaObject)
        case StringNode(_) => Some(JavaString)
        case ClassNode(_, _, _, _, _, _, _, _) => Some(JavaClass)
        case ProxyClassNode(_, _, _, _) => Some(JavaProxyClass))
    case BlockData(_) => Some(ByteString)
    case Null => Some(NoneType)
    case _ => None
  }

  /** The ordered table sends every kind of value where `Expected` says: an
      array, map, list or enum reaches its own renderer although it is a
      JavaObject too, and a Python bool, int or float (or an id the heap does
      not hold) reaches none. */
  lemma LookupByKind(h: Heap, v: Value)
    ensures Lookup(h, v) == Expected(h, v)
  {
    LookupIsFirstMatch(h, v);
    FirstMatchSkips(h, v, 0);
    match Expected(h, v)
    case None =>
      assert forall t :: !IsInstance(h, v, t);
    case Some(t) =>
      assert IsInstance(h, v, t);
      var k := FirstMatch(h, v, 0);
      assert k <= Position(t);
      assert k < |Table|;
      assert Table[k] == t by {
        assert IsInstance(h, v, Table[k]);
      }
  }

  /** Array, map, list and enum nodes are JavaObject instances, yet the
      JavaObject entry is reached only by plain objects: the more specific
      entries come first. */
  lemma ObjectEntryOnlyForPlainObjects(h: Heap, v: Value)
    requires IsInstance(h, v, JavaObject)
    ensures Lookup(h, v) == Some(JavaObject) <==> h[v.id].ObjectNode?
  {
    LookupByKind(h, v);
  }
}
