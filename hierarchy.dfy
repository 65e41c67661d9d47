/** Field flattening: the `while tmpcls` walk of `do_object` up the
    superclass chain, collecting each descriptor's own field names. */
module Hierarchy {
  import opened Basics
  import opened JavaObj

  /** The names the walk collects from `c` upwards: each class's own names,
      then its superclass's, and so on; duplicates are kept. The walk stops
      at a missing or falsy link (`while tmpcls`). Reaching a
      node that is not a class descriptor raises AttributeError; coming back
      to a class already walked means the source's loop never ends.
      `visited` is the set of classes walked so far. */
  function FieldNames(h: Heap, c: Option<NodeId>, visited: set<NodeId>): Result<seq<string>>
    decreases h.Keys - visited
  {
    match c
    case None => Ok([])
    case Some(id) =>
      if !Truthy(h, Instance(id)) then Ok([])
      else if id !in h || !h[id].ClassNode? then Err(AttributeError)
      else if id in visited then Err(Diverges)
      else match FieldNames(h, h[id].superclass, visited + {id})
        case Ok(rest) => Ok(h[id].fieldNames + rest)
        case Err(f) => Err(f)
  }

  /** `acc` in front of the names of a walk that succeeds. */
  function PrependNames(acc: seq<string>, r: Result<seq<string>>): Result<seq<string>>
  {
    if r.Ok? then Ok(acc + r.value) else r
  }

  lemma PrependNamesAgain(acc: seq<string>, more: seq<string>, r: Result<seq<string>>)
    ensures PrependNames(acc, PrependNames(more, r)) == PrependNames(acc + more, r)
    ensures PrependNames([], r) == r
  {
    if r.Ok? {
      assert acc + (more + r.value) == (acc + more) + r.value;
      assert [] + r.value == r.value;
    }
  }

  /** The classes the walk passes, in order. */
  function Chain(h: Heap, c: Option<NodeId>, visited: set<NodeId>): Result<seq<NodeId>>
    decreases h.Keys - visited
  {
    match c
    case None => Ok([])
    case Some(id) =>
      if !Truthy(h, Instance(id)) then Ok([])
      else if id !in h || !h[id].ClassNode? then Err(AttributeError)
      else if id in visited then Err(Diverges)
      else match Chain(h, h[id].superclass, visited + {id})
        case Ok(rest) => Ok([id] + rest)
        case Err(f) => Err(f)
  }

  predicate AllClasses(h: Heap, ids: seq<NodeId>)
  {
    forall k :: 0 <= k < |ids| ==> ids[k] in h && h[ids[k]].ClassNode?
  }

  /** The own field names of a run of classes, one after the other. */
  function Concat(h: Heap, ids: seq<NodeId>): seq<string>
    requires AllClasses(h, ids)
  {
    if ids == [] then [] else h[ids[0]].fieldNames + Concat(h, ids[1..])
  }

  /** Flattening is the concatenation of the own field lists along the
      chain, in chain order, and it fails exactly when the chain does. */
  lemma {:induction false} FieldNamesAlongChain(h: Heap, c: Option<NodeId>, visited: set<NodeId>)
    ensures Chain(h, c, visited).Ok? <==> FieldNames(h, c, visited).Ok?
    ensures Chain(h, c, visited).Err? ==> FieldNames(h, c, visited) == Err(Chain(h, c, visited).failure)
    ensures Chain(h, c, visited).Ok? ==>
      AllClasses(h, Chain(h, c, visited).value) &&
      FieldNames(h, c, visited) == Ok(Concat(h, Chain(h, c, visited).value))
    decreases h.Keys - visited
  {
    match c
    case None =>
    case Some(id) =>
      if Truthy(h, Instance(id)) && id in h && h[id].ClassNode? && id !in visited {
        FieldNamesAlongChain(h, h[id].superclass, visited + {id});
        var ch := Chain(h, c, visited);
        if ch.Ok? {
          assert ch.value[1..] == Chain(h, h[id].superclass, visited + {id}).value;
        }
      }
  }

  /** A walk that succeeds visits no class twice and starts at `c`. */
  lemma {:induction false} ChainDistinct(h: Heap, c: Option<NodeId>, visited: set<NodeId>)
    requires Chain(h, c, visited).Ok?
    ensures var ids := Chain(h, c, visited).value;
      (forall k :: 0 <= k < |ids| ==> ids[k] !in visited) &&
      (forall i, j :: 0 <= i < j < |ids| ==> ids[i] != ids[j]) &&
      (ids != [] ==> c.Some? && ids[0] == c.value)
    decreases h.Keys - visited
  {
    match c
    case None =>
    case Some(id) =>
      if Truthy(h, Instance(id)) {
        ChainDistinct(h, h[id].superclass, visited + {id});
      }
  }

  /** A larger visited set can only turn a success into a failure: a walk
      that succeeds from a smaller set gives the same names. */
  lemma {:induction false} FewerVisitedSameNames(h: Heap, c: Option<NodeId>, small: set<NodeId>, large: set<NodeId>)
    requires small <= large
    requires FieldNames(h, c, large).Ok?
    ensures FieldNames(h, c, small) == FieldNames(h, c, large)
    decreases h.Keys - small
  {
    match c
    case None =>
    case Some(id) =>
      if Truthy(h, Instance(id)) {
        FewerVisitedSameNames(h, h[id].superclass, small + {id}, large + {id});
      }
  }

  /** The flattened list of a class is its own names followed by the
      flattened list of its superclass, computed as if the walk began there. */
  lemma OwnNamesFirst(h: Heap, id: NodeId)
    requires id in h && h[id].ClassNode? && FieldNames(h, Some(id), {}).Ok?
    ensures FieldNames(h, h[id].superclass, {}).Ok?
    ensures FieldNames(h, Some(id), {}).value ==
            h[id].fieldNames + FieldNames(h, h[id].superclass, {}).value
  {
    assert {} + {id} == {id};
    assert FieldNames(h, h[id].superclass, {id}).Ok?;
    FewerVisitedSameNames(h, h[id].superclass, {}, {id});
  }

  /** Two levels: a class's names, then its superclass's, duplicates kept. */
  lemma TwoLevelNames(h: Heap, b: NodeId, a: NodeId)
    requires b in h && h[b].ClassNode? && h[b].superclass == Some(a)
    requires a in h && h[a].ClassNode? && h[a].superclass.None? && a != b
    ensures FieldNames(h, Some(b), {}) == Ok(h[b].fieldNames + h[a].fieldNames)
  {
    assert FieldNames(h, None, {b, a}) == Ok([]);
    assert {} + {b} + {a} == {b, a};
    assert h[a].fieldNames + [] == h[a].fieldNames;
  }

  /** A class that is its own superclass: the source's loop never ends. */
  lemma SelfSuperclassDiverges(h: Heap, c: NodeId)
    requires c in h && h[c].ClassNode? && h[c].superclass == Some(c)
    ensures FieldNames(h, Some(c), {}) == Err(Diverges)
  {
    assert {} + {c} == {c};
  }
}
