/** What each rendering loop puts in its items: item `j` holds the rendering
    of element `j` (of annotation `j`, of the `j`-th key/value pair, of the
    `j`-th field), made from the registry the items before it left behind.

    Every loop of the marshaller has one shape: render position `k` from the
    registry so far, wrap the result, go on with the registry it left, stop
    at the first failure. `Chain` is that shape over positions `i`, `i + 1`,
    ... and `PairChain` over `i`, `i + 2`, ... (the key/value loop of maps);
    what a position renders and how it is wrapped are named by a `Stepper`
    and a `Wrapper`. Their facts are proved once, and each loop is then
    shown to be a chain. */
module RenderContents {
  import opened Basics
  import opened JavaObj
  import opened Xml
  import opened Render

  /** What a loop renders at position `k`. */
  datatype Stepper =
    | Dispatches(h: Heap, vs: seq<Value>, depth: nat)
    | PairValues(h: Heap, anns: seq<Value>, depth: nat)
    | ArrayElements(h: Heap, cls: Option<NodeId>, elems: seq<Value>, depth: nat)
    | ObjectFields(h: Heap, obj: ObjectData, names: seq<string>, depth: nat)

  /** Position `k` rendered from the registry `rs`: the dispatch of `vs[k]`,
      of the value `anns[k + 1]` of the pair keyed by `anns[k]`, of element
      `k`, of field `names[k]`. A position past the end raises IndexError
      (for a map, a key with no value after it). */
  function Run(f: Stepper, rs: Refs, k: nat): Step<Xml>
  {
    match f
    case Dispatches(h, vs, depth) =>
      if k < |vs| then LookupAndExec(h, rs, vs[k], depth) else Step(Err(IndexError), rs)
    case PairValues(h, anns, depth) =>
      if k + 1 < |anns| then LookupAndExec(h, rs, anns[k + 1], depth) else Step(Err(IndexError), rs)
    case ArrayElements(h, cls, elems, depth) =>
      if k < |elems| then ArrayElement(h, rs, cls, elems[k], depth) else Step(Err(IndexError), rs)
    case ObjectFields(h, obj, names, depth) =>
      if k < |names| then FieldValue(h, rs, obj, names[k], depth) else Step(Err(IndexError), rs)
  }

  /** The element a loop puts the rendering of position `k` in. */
  datatype Wrapper =
    | Tagged(tag: string)                  // `item` or `annotation`, no attributes
    | Bare                                 // the top-level renderings as they are
    | KeyNamed(h: Heap, anns: seq<Value>)  // a map `item` named by the key `anns[k]`
    | FieldNamed(names: seq<string>)       // a `field` named `names[k]`

  function Put(w: Wrapper, k: nat, x: Xml): Xml
  {
    match w
    case Tagged(tag) => Wrap(tag, [], x)
    case Bare => x
    case KeyNamed(h, anns) => Wrap("item", [Attr("name", if k < |anns| then PyStr(h, anns[k]) else "")], x)
    case FieldNamed(names) => Wrap("field", [Attr("name", if k < |names| then names[k] else "")], x)
  }

  /** Positions `i` up to `n`, in order; the first failure aborts. */
  function Chain(f: Stepper, w: Wrapper, refs: Refs, i: nat, n: nat): (r: Step<seq<Xml>>)
    ensures r.result.Ok? ==> |r.result.value| == (if i >= n then 0 else n - i)
    decreases n - i
  {
    if i >= n then Step(Ok([]), refs)
    else
      var s := Run(f, refs, i);
      if s.result.Err? then Step(Err(s.result.failure), s.refs)
      else
        var rest := Chain(f, w, s.refs, i + 1, n);
        if rest.result.Err? then Step(Err(rest.result.failure), rest.refs)
        else Step(Ok([Put(w, i, s.result.value)] + rest.result.value), rest.refs)
  }

  /** The registry before the `j`-th step from position `i` on. */
  function Trace(f: Stepper, refs: Refs, i: nat, j: nat): Refs
    decreases j
  {
    if j == 0 then refs else Trace(f, Run(f, refs, i).refs, i + 1, j - 1)
  }

  /** Item `j` of a chain that succeeds is the wrapped result of step
      `i + j`, taken from the registry the steps before it left. */
  lemma {:induction false} ChainItem(f: Stepper, w: Wrapper, refs: Refs, i: nat, n: nat, j: nat)
    requires i + j < n && Chain(f, w, refs, i, n).result.Ok?
    ensures var s := Run(f, Trace(f, refs, i, j), i + j);
      s.result.Ok? && Chain(f, w, refs, i, n).result.value[j] == Put(w, i + j, s.result.value)
    decreases j
  {
    if j > 0 {
      ChainItem(f, w, Run(f, refs, i).refs, i + 1, n, j - 1);
      assert (i + 1) + (j - 1) == i + j;
    }
  }

  /** A chain that succeeds leaves the registry all of its steps leave. */
  lemma {:induction false} ChainTrace(f: Stepper, w: Wrapper, refs: Refs, i: nat, n: nat)
    requires i <= n && Chain(f, w, refs, i, n).result.Ok?
    ensures Chain(f, w, refs, i, n).refs == Trace(f, refs, i, n - i)
    decreases n - i
  {
    if i < n {
      ChainTrace(f, w, Run(f, refs, i).refs, i + 1, n);
    }
  }

  /** The stride-two chain of the key/value loop: positions `i`, `i + 2`, ...
      below `n`, in order; the first failure aborts. */
  function PairChain(f: Stepper, w: Wrapper, refs: Refs, i: nat, n: nat): Step<seq<Xml>>
    decreases n - i
  {
    if i >= n then Step(Ok([]), refs)
    else
      var s := Run(f, refs, i);
      if s.result.Err? then Step(Err(s.result.failure), s.refs)
      else
        var rest := PairChain(f, w, s.refs, i + 2, n);
        if rest.result.Err? then Step(Err(rest.result.failure), rest.refs)
        else Step(Ok([Put(w, i, s.result.value)] + rest.result.value), rest.refs)
  }

  /** The registry before the `j`-th step of a stride-two chain. */
  function PairTrace(f: Stepper, refs: Refs, i: nat, j: nat): Refs
    decreases j
  {
    if j == 0 then refs else PairTrace(f, Run(f, refs, i).refs, i + 2, j - 1)
  }

  /** Item `j` of a stride-two chain that succeeds is the wrapped result of
      step `i + 2j`. */
  lemma {:induction false} PairChainItem(f: Stepper, w: Wrapper, refs: Refs, i: nat, n: nat, j: nat)
    requires PairChain(f, w, refs, i, n).result.Ok? && j < |PairChain(f, w, refs, i, n).result.value|
    ensures var s := Run(f, PairTrace(f, refs, i, j), i + 2 * j);
      s.result.Ok? && PairChain(f, w, refs, i, n).result.value[j] == Put(w, i + 2 * j, s.result.value)
    decreases j
  {
    if j > 0 {
      PairChainItem(f, w, Run(f, refs, i).refs, i + 2, n, j - 1);
      assert (i + 2) + 2 * (j - 1) == i + 2 * j;
    }
  }

  /** A stride-two chain that succeeds leaves the registry all of its steps
      leave. */
  lemma {:induction false} PairChainTrace(f: Stepper, w: Wrapper, refs: Refs, i: nat, n: nat)
    requires PairChain(f, w, refs, i, n).result.Ok?
    ensures PairChain(f, w, refs, i, n).refs == PairTrace(f, refs, i, |PairChain(f, w, refs, i, n).result.value|)
    decreases n - i
  {
    if i < n {
      PairChainTrace(f, w, Run(f, refs, i).refs, i + 2, n);
    }
  }

  /** The registry before the `j`-th of the dispatches of `vs[i]`, `vs[i + 1]`,
      ... (the list items, the kept annotations, the top-level values). */
  function DispatchTrace(h: Heap, refs: Refs, vs: seq<Value>, i: nat, j: nat, depth: nat): Refs
  {
    Trace(Dispatches(h, vs, depth), refs, i, j)
  }

  /** The registry before the `j`-th key/value pair from `anns[i]` on. */
  function MapTrace(h: Heap, refs: Refs, anns: seq<Value>, i: nat, j: nat, depth: nat): Refs
  {
    PairTrace(PairValues(h, anns, depth), refs, i, j)
  }

  /** The registry before array element `i + j`. */
  function ArrayTrace(h: Heap, refs: Refs, cls: Option<NodeId>, elems: seq<Value>, i: nat, j: nat, depth: nat): Refs
  {
    Trace(ArrayElements(h, cls, elems, depth), refs, i, j)
  }

  /** The registry before field `names[i + j]`. */
  function FieldTrace(h: Heap, refs: Refs, obj: ObjectData, names: seq<string>, i: nat, j: nat, depth: nat): Refs
  {
    Trace(ObjectFields(h, obj, names, depth), refs, i, j)
  }

  // Each loop is a chain.

  lemma {:induction false} TopLevelChain(h: Heap, refs: Refs, top: seq<Value>, i: nat, depth: nat)
    requires i <= |top|
    ensures TopLevelFrom(h, refs, top, i, depth) == Chain(Dispatches(h, top, depth), Bare, refs, i, |top|)
    decreases |top| - i
  {
    if i < |top| {
      TopLevelChain(h, LookupAndExec(h, refs, top[i], depth).refs, top, i + 1, depth);
    }
  }

  lemma {:induction false} ListChain(h: Heap, refs: Refs, anns: seq<Value>, i: nat, depth: nat)
    requires i <= |anns| + 1
    ensures ListItemsFrom(h, refs, anns, i, depth) == Chain(Dispatches(h, anns, depth), Tagged("item"), refs, i, |anns|)
    decreases |anns| + 1 - i
  {
    if i < |anns| {
      ListChain(h, LookupAndExec(h, refs, anns[i], depth).refs, anns, i + 1, depth);
    }
  }

  lemma {:induction false} AnnotationsChain(h: Heap, refs: Refs, anns: seq<Value>, i: nat, depth: nat)
    requires i <= |anns|
    ensures AnnotationsFrom(h, refs, anns, KeepAll, i, depth) ==
            Chain(Dispatches(h, anns, depth), Tagged("annotation"), refs, i, |anns|)
    decreases |anns| - i
  {
    if i < |anns| {
      AnnotationsChain(h, LookupAndExec(h, refs, anns[i], depth).refs, anns, i + 1, depth);
    }
  }

  lemma {:induction false} MapChain(h: Heap, refs: Refs, anns: seq<Value>, i: nat, depth: nat)
    requires i <= |anns| + 1
    ensures MapItemsFrom(h, refs, anns, i, depth) ==
            PairChain(PairValues(h, anns, depth), KeyNamed(h, anns), refs, i, |anns|)
    decreases |anns| + 1 - i
  {
    if i + 1 < |anns| {
      MapChain(h, LookupAndExec(h, refs, anns[i + 1], depth).refs, anns, i + 2, depth);
    }
  }

  lemma {:induction false} ArrayChain(h: Heap, refs: Refs, cls: Option<NodeId>, elems: seq<Value>, i: nat, depth: nat)
    requires i <= |elems|
    ensures ArrayItemsFrom(h, refs, cls, elems, i, depth) ==
            Chain(ArrayElements(h, cls, elems, depth), Tagged("item"), refs, i, |elems|)
    decreases |elems| - i
  {
    if i < |elems| {
      ArrayChain(h, ArrayElement(h, refs, cls, elems[i], depth).refs, cls, elems, i + 1, depth);
    }
  }

  lemma {:induction false} FieldsChain(h: Heap, refs: Refs, obj: ObjectData, names: seq<string>, i: nat, depth: nat)
    requires i <= |names|
    ensures FieldsFrom(h, refs, obj, names, i, depth) ==
            Chain(ObjectFields(h, obj, names, depth), FieldNamed(names), refs, i, |names|)
    decreases |names| - i
  {
    if i < |names| {
      FieldsChain(h, FieldValue(h, refs, obj, names[i], depth).refs, obj, names, i + 1, depth);
    }
  }

  // What the items hold.

  /** List item `j` holds the dispatch of annotation `i + j`, and the loop
      leaves the registry all the dispatches leave. */
  lemma ListItemsContent(h: Heap, refs: Refs, anns: seq<Value>, i: nat, depth: nat)
    requires i <= |anns| + 1
    ensures var r := ListItemsFrom(h, refs, anns, i, depth);
      r.result.Ok? ==>
        (i <= |anns| ==> r.refs == DispatchTrace(h, refs, anns, i, |anns| - i, depth)) &&
        forall j :: 0 <= j < |r.result.value| ==>
          var s := LookupAndExec(h, DispatchTrace(h, refs, anns, i, j, depth), anns[i + j], depth);
          s.result.Ok? && r.result.value[j] == Wrap("item", [], s.result.value)
  {
    var r := ListItemsFrom(h, refs, anns, i, depth);
    if r.result.Ok? && i <= |anns| {
      var f, w := Dispatches(h, anns, depth), Tagged("item");
      var c := Chain(f, w, refs, i, |anns|);
      assert r == c by {
        ListChain(h, refs, anns, i, depth);
      }
      assert c.refs == Trace(f, refs, i, |anns| - i) by {
        ChainTrace(f, w, refs, i, |anns|);
      }
      forall j | 0 <= j < |r.result.value|
        ensures var s := LookupAndExec(h, DispatchTrace(h, refs, anns, i, j, depth), anns[i + j], depth);
          s.result.Ok? && r.result.value[j] == Wrap("item", [], s.result.value)
      {
        ChainItem(f, w, refs, i, |anns|, j);
      }
    }
  }

  /** With every annotation kept, annotation `j` holds the dispatch of
      `anns[i + j]`. */
  lemma AnnotationsContent(h: Heap, refs: Refs, anns: seq<Value>, i: nat, depth: nat)
    requires i <= |anns|
    ensures var r := AnnotationsFrom(h, refs, anns, KeepAll, i, depth);
      r.result.Ok? ==>
        r.refs == DispatchTrace(h, refs, anns, i, |anns| - i, depth) &&
        forall j :: 0 <= j < |r.result.value| ==>
          var s := LookupAndExec(h, DispatchTrace(h, refs, anns, i, j, depth), anns[i + j], depth);
          s.result.Ok? && r.result.value[j] == Wrap("annotation", [], s.result.value)
  {
    var r := AnnotationsFrom(h, refs, anns, KeepAll, i, depth);
    if r.result.Ok? {
      var f, w := Dispatches(h, anns, depth), Tagged("annotation");
      var c := Chain(f, w, refs, i, |anns|);
      assert r == c by {
        AnnotationsChain(h, refs, anns, i, depth);
      }
      assert c.refs == Trace(f, refs, i, |anns| - i) by {
        ChainTrace(f, w, refs, i, |anns|);
      }
      forall j | 0 <= j < |r.result.value|
        ensures var s := LookupAndExec(h, DispatchTrace(h, refs, anns, i, j, depth), anns[i + j], depth);
          s.result.Ok? && r.result.value[j] == Wrap("annotation", [], s.result.value)
      {
        ChainItem(f, w, refs, i, |anns|, j);
      }
    }
  }

  /** The `idx < 1` filter of maps and lists keeps annotation 0 and nothing
      else: its one annotation holds the dispatch of `anns[0]`. */
  lemma HeaderAnnotationContent(h: Heap, refs: Refs, anns: seq<Value>, depth: nat)
    requires |anns| > 0
    ensures var r := AnnotationsFrom(h, refs, anns, KeepHeader, 0, depth);
      var s := LookupAndExec(h, refs, anns[0], depth);
      r.result.Ok? <==> s.result.Ok?
    ensures var r := AnnotationsFrom(h, refs, anns, KeepHeader, 0, depth);
      var s := LookupAndExec(h, refs, anns[0], depth);
      r.result.Ok? ==> r == Step(Ok([Wrap("annotation", [], s.result.value)]), s.refs)
  {
    var s := LookupAndExec(h, refs, anns[0], depth);
    assert AnnotationsFrom(h, s.refs, anns, KeepHeader, 1, depth) == Step(Ok([]), s.refs);
    if s.result.Ok? {
      assert [Wrap("annotation", [], s.result.value)] + [] == [Wrap("annotation", [], s.result.value)];
    }
  }

  /** An even count halves exactly. */
  lemma Halves(m: nat)
    requires m % 2 == 0
    ensures 2 * (m / 2) == m
  {
  }

  /** Map item `j` is named by key `anns[i + 2j]` and holds the dispatch of
      its value `anns[i + 2j + 1]`. */
  lemma MapItemsContent(h: Heap, refs: Refs, anns: seq<Value>, i: nat, depth: nat)
    requires i <= |anns| + 1
    ensures var r := MapItemsFrom(h, refs, anns, i, depth);
      r.result.Ok? ==>
        (i <= |anns| ==> i + 2 * |r.result.value| == |anns|) &&
        r.refs == MapTrace(h, refs, anns, i, |r.result.value|, depth) &&
        forall j :: 0 <= j < |r.result.value| ==>
          i + 2 * j + 1 < |anns| &&
          var s := LookupAndExec(h, MapTrace(h, refs, anns, i, j, depth), anns[i + 2 * j + 1], depth);
          s.result.Ok? &&
          r.result.value[j] == Wrap("item", [Attr("name", PyStr(h, anns[i + 2 * j]))], s.result.value)
  {
    var r := MapItemsFrom(h, refs, anns, i, depth);
    if r.result.Ok? {
      if i <= |anns| {
        assert i + 2 * |r.result.value| == |anns| by {
          Halves(|anns| - i);
        }
      }
      var f, w := PairValues(h, anns, depth), KeyNamed(h, anns);
      var c := PairChain(f, w, refs, i, |anns|);
      assert r == c by {
        MapChain(h, refs, anns, i, depth);
      }
      assert c.refs == PairTrace(f, refs, i, |c.result.value|) by {
        PairChainTrace(f, w, refs, i, |anns|);
      }
      forall j | 0 <= j < |r.result.value|
        ensures i + 2 * j + 1 < |anns| &&
          var s := LookupAndExec(h, MapTrace(h, refs, anns, i, j, depth), anns[i + 2 * j + 1], depth);
          s.result.Ok? &&
          r.result.value[j] == Wrap("item", [Attr("name", PyStr(h, anns[i + 2 * j]))], s.result.value)
      {
        PairChainItem(f, w, refs, i, |anns|, j);
      }
    }
  }

  /** Array item `j` holds the rendering of element `i + j`. */
  lemma ArrayItemsContent(h: Heap, refs: Refs, cls: Option<NodeId>, elems: seq<Value>, i: nat, depth: nat)
    requires i <= |elems|
    ensures var r := ArrayItemsFrom(h, refs, cls, elems, i, depth);
      r.result.Ok? ==>
        r.refs == ArrayTrace(h, refs, cls, elems, i, |elems| - i, depth) &&
        forall j :: 0 <= j < |r.result.value| ==>
          var e := ArrayElement(h, ArrayTrace(h, refs, cls, elems, i, j, depth), cls, elems[i + j], depth);
          e.result.Ok? && r.result.value[j] == Wrap("item", [], e.result.value)
  {
    var r := ArrayItemsFrom(h, refs, cls, elems, i, depth);
    if r.result.Ok? {
      var f, w := ArrayElements(h, cls, elems, depth), Tagged("item");
      var c := Chain(f, w, refs, i, |elems|);
      assert r == c by {
        ArrayChain(h, refs, cls, elems, i, depth);
      }
      assert c.refs == Trace(f, refs, i, |elems| - i) by {
        ChainTrace(f, w, refs, i, |elems|);
      }
      forall j | 0 <= j < |r.result.value|
        ensures var e := ArrayElement(h, ArrayTrace(h, refs, cls, elems, i, j, depth), cls, elems[i + j], depth);
          e.result.Ok? && r.result.value[j] == Wrap("item", [], e.result.value)
      {
        ChainItem(f, w, refs, i, |elems|, j);
      }
    }
  }

  /** Field `j` is named `names[i + j]` and holds what the `try` around
      `getattr` and `do_value` gives for it: the value's rendering, or the
      null marker. */
  lemma FieldsContent(h: Heap, refs: Refs, obj: ObjectData, names: seq<string>, i: nat, depth: nat)
    requires i <= |names|
    ensures var r := FieldsFrom(h, refs, obj, names, i, depth);
      r.result.Ok? ==>
        r.refs == FieldTrace(h, refs, obj, names, i, |names| - i, depth) &&
        forall j :: 0 <= j < |r.result.value| ==>
          var v := FieldValue(h, FieldTrace(h, refs, obj, names, i, j, depth), obj, names[i + j], depth);
          v.result.Ok? && r.result.value[j] == Wrap("field", [Attr("name", names[i + j])], v.result.value)
  {
    var r := FieldsFrom(h, refs, obj, names, i, depth);
    if r.result.Ok? {
      var f, w := ObjectFields(h, obj, names, depth), FieldNamed(names);
      var c := Chain(f, w, refs, i, |names|);
      assert r == c by {
        FieldsChain(h, refs, obj, names, i, depth);
      }
      assert c.refs == Trace(f, refs, i, |names| - i) by {
        ChainTrace(f, w, refs, i, |names|);
      }
      forall j | 0 <= j < |r.result.value|
        ensures var v := FieldValue(h, FieldTrace(h, refs, obj, names, i, j, depth), obj, names[i + j], depth);
          v.result.Ok? && r.result.value[j] == Wrap("field", [Attr("name", names[i + j])], v.result.value)
      {
        ChainItem(f, w, refs, i, |names|, j);
      }
    }
  }

  /** Top-level rendering `j` is the dispatch of `top[i + j]`. */
  lemma TopLevelContent(h: Heap, refs: Refs, top: seq<Value>, i: nat, depth: nat)
    requires i <= |top|
    ensures var r := TopLevelFrom(h, refs, top, i, depth);
      r.result.Ok? ==>
        r.refs == DispatchTrace(h, refs, top, i, |top| - i, depth) &&
        forall j :: 0 <= j < |r.result.value| ==>
          var s := LookupAndExec(h, DispatchTrace(h, refs, top, i, j, depth), top[i + j], depth);
          s.result.Ok? && r.result.value[j] == s.result.value
  {
    var r := TopLevelFrom(h, refs, top, i, depth);
    if r.result.Ok? {
      var f, w := Dispatches(h, top, depth), Bare;
      var c := Chain(f, w, refs, i, |top|);
      assert r == c by {
        TopLevelChain(h, refs, top, i, depth);
      }
      assert c.refs == Trace(f, refs, i, |top| - i) by {
        ChainTrace(f, w, refs, i, |top|);
      }
      forall j | 0 <= j < |r.result.value|
        ensures var s := LookupAndExec(h, DispatchTrace(h, refs, top, i, j, depth), top[i + j], depth);
          s.result.Ok? && r.result.value[j] == s.result.value
      {
        ChainItem(f, w, refs, i, |top|, j);
      }
    }
  }

  /** `marshall`: child `j` of `root` is the dispatch of `top[j]`, in order. */
  lemma MarshallContent(h: Heap, refs: Refs, top: seq<Value>, depth: nat)
    ensures var r := Marshall(h, refs, top, depth);
      r.result.Ok? ==>
        r.refs == DispatchTrace(h, refs, top, 0, |top|, depth) &&
        forall j :: 0 <= j < |top| ==>
          var s := LookupAndExec(h, DispatchTrace(h, refs, top, 0, j, depth), top[j], depth);
          s.result.Ok? && r.result.value.children[j] == s.result.value
  {
    TopLevelContent(h, refs, top, 0, depth);
  }
}
