/** The nested-graph node record shared by both revisions of the graph
    module, and its hand-written serialisation: a struct of the three fields
    `graph`, `inlets` and `outlets`, decoded either from a map (keys in any
    order, each exactly once) or from a sequence (the three values in
    order). Values arrive already decoded; only the visitor's decisions are
    modelled. */
module GraphNodeSerde {
  import opened Results

  /** A graph used as a node: the inner graph plus the ordered inlet and
      outlet lists. */
  datatype GraphNode<G, I, O> = GraphNode(graph: G, inlets: seq<I>, outlets: seq<O>)

  /** The field identifiers, spelled in lower case on the wire. */
  datatype Field = GraphKey | InletsKey | OutletsKey

  function FieldName(f: Field): string {
    match f
    case GraphKey => "graph"
    case InletsKey => "inlets"
    case OutletsKey => "outlets"
  }

  /** One key/value pair of the map form, or one element of the sequence
      form, tagged with the field it decodes as. */
  datatype Entry<G, I, O> =
    | GraphEntry(graph: G)
    | InletsEntry(inlets: seq<I>)
    | OutletsEntry(outlets: seq<O>)

  function KeyOf<G, I, O>(e: Entry<G, I, O>): Field {
    match e
    case GraphEntry(_) => GraphKey
    case InletsEntry(_) => InletsKey
    case OutletsEntry(_) => OutletsKey
  }

  /** How many entries carry key `f`. */
  function CountKey<G, I, O>(es: seq<Entry<G, I, O>>, f: Field): nat {
    if |es| == 0 then 0
    else CountKey(es[..|es| - 1], f) + (if KeyOf(es[|es| - 1]) == f then 1 else 0)
  }

  /** No field occurs more than once. */
  predicate AtMostOnce<G, I, O>(es: seq<Entry<G, I, O>>) {
    CountKey(es, GraphKey) <= 1 && CountKey(es, InletsKey) <= 1 && CountKey(es, OutletsKey) <= 1
  }

  /** Every field occurs exactly once. */
  predicate ExactlyOnce<G, I, O>(es: seq<Entry<G, I, O>>) {
    CountKey(es, GraphKey) == 1 && CountKey(es, InletsKey) == 1 && CountKey(es, OutletsKey) == 1
  }

  /** `serialize`: the three fields in declaration order, lists untouched. */
  function Serialize<G, I, O>(gn: GraphNode<G, I, O>): (es: seq<Entry<G, I, O>>)
    ensures |es| == 3 && ExactlyOnce(es)
  {
    var es := [GraphEntry(gn.graph), InletsEntry(gn.inlets), OutletsEntry(gn.outlets)];
    assert es[..2][..1] == es[..1] && es[..1][..0] == [];
    assert CountKey(es[..1], GraphKey) == 1 && CountKey(es[..1], InletsKey) == 0 && CountKey(es[..1], OutletsKey) == 0;
    assert CountKey(es[..2], GraphKey) == 1 && CountKey(es[..2], InletsKey) == 1 && CountKey(es[..2], OutletsKey) == 0;
    assert es[..3] == es;
    es
  }

  /** The three optional slots of the map visitor. */
  datatype Partial<G, I, O> = Partial(graph: Option<G>, inlets: Option<seq<I>>, outlets: Option<seq<O>>)

  function Slot<G, I, O>(p: Partial<G, I, O>, f: Field): bool {
    match f
    case GraphKey => p.graph.Some?
    case InletsKey => p.inlets.Some?
    case OutletsKey => p.outlets.Some?
  }

  /** One iteration of the key loop: a key whose slot is already filled is
      a duplicate; otherwise its value fills the slot. */
  function VisitEntry<G, I, O>(p: Partial<G, I, O>, e: Entry<G, I, O>): (r: Result<Partial<G, I, O>, Fault>)
    ensures r.Ok? <==> !Slot(p, KeyOf(e))
    ensures r.Err? ==> r.error == DuplicateField(FieldName(KeyOf(e)))
    ensures r.Ok? ==> forall f :: Slot(r.value, f) <==> Slot(p, f) || f == KeyOf(e)
  {
    match e
    case GraphEntry(g) =>
      if p.graph.Some? then Err(DuplicateField("graph")) else Ok(p.(graph := Some(g)))
    case InletsEntry(i) =>
      if p.inlets.Some? then Err(DuplicateField("inlets")) else Ok(p.(inlets := Some(i)))
    case OutletsEntry(o) =>
      if p.outlets.Some? then Err(DuplicateField("outlets")) else Ok(p.(outlets := Some(o)))
  }

  /** The key loop over a whole map: succeeds iff no key repeats, and then
      exactly the keys present have their slot filled, with a value that
      came with that key. */
  function VisitEntries<G, I, O>(es: seq<Entry<G, I, O>>): (r: Result<Partial<G, I, O>, Fault>)
    ensures r.Ok? <==> AtMostOnce(es)
    ensures r.Ok? ==>
      && (r.value.graph.Some? <==> CountKey(es, GraphKey) == 1)
      && (r.value.inlets.Some? <==> CountKey(es, InletsKey) == 1)
      && (r.value.outlets.Some? <==> CountKey(es, OutletsKey) == 1)
    ensures r.Ok? && r.value.graph.Some? ==>
      exists i :: 0 <= i < |es| && es[i].GraphEntry? && es[i].graph == r.value.graph.value
    ensures r.Ok? && r.value.inlets.Some? ==>
      exists i :: 0 <= i < |es| && es[i].InletsEntry? && es[i].inlets == r.value.inlets.value
    ensures r.Ok? && r.value.outlets.Some? ==>
      exists i :: 0 <= i < |es| && es[i].OutletsEntry? && es[i].outlets == r.value.outlets.value
  {
    if |es| == 0 then Ok(Partial(None, None, None))
    else
      var init := es[..|es| - 1];
      var last := es[|es| - 1];
      var p :- VisitEntries(init);
      assert forall i :: 0 <= i < |init| ==> es[i] == init[i];
      assert Slot(p, GraphKey) == p.graph.Some? && Slot(p, InletsKey) == p.inlets.Some?;
      assert Slot(p, OutletsKey) == p.outlets.Some?;
      VisitEntry(p, last)
  }

  /** `visit_map`: the key loop, then each slot in the order graph,
      inlets, outlets must be filled. */
  function VisitMap<G, I, O>(es: seq<Entry<G, I, O>>): (r: Result<GraphNode<G, I, O>, Fault>)
    ensures r.Ok? <==> ExactlyOnce(es)
    ensures r.Ok? ==>
      && (exists i :: 0 <= i < |es| && es[i].GraphEntry? && es[i].graph == r.value.graph)
      && (exists i :: 0 <= i < |es| && es[i].InletsEntry? && es[i].inlets == r.value.inlets)
      && (exists i :: 0 <= i < |es| && es[i].OutletsEntry? && es[i].outlets == r.value.outlets)
    ensures AtMostOnce(es) && CountKey(es, GraphKey) == 0 ==> r == Err(MissingField("graph"))
    ensures AtMostOnce(es) && CountKey(es, GraphKey) == 1 && CountKey(es, InletsKey) == 0 ==>
      r == Err(MissingField("inlets"))
    ensures (AtMostOnce(es) && CountKey(es, GraphKey) == 1 && CountKey(es, InletsKey) == 1
             && CountKey(es, OutletsKey) == 0) ==> r == Err(MissingField("outlets"))
  {
    var p :- VisitEntries(es);
    if p.graph.None? then Err(MissingField("graph"))
    else if p.inlets.None? then Err(MissingField("inlets"))
    else if p.outlets.None? then Err(MissingField("outlets"))
    else Ok(GraphNode(p.graph.value, p.inlets.value, p.outlets.value))
  }

  /** A repeated key fails the map form with `duplicate_field`, naming the
      first key that is seen a second time. */
  lemma {:induction false} DuplicateRejected<G, I, O>(es: seq<Entry<G, I, O>>, j: nat)
    requires j < |es| && CountKey(es[..j], KeyOf(es[j])) == 1
    requires AtMostOnce(es[..j])
    ensures VisitMap(es) == Err(DuplicateField(FieldName(KeyOf(es[j]))))
    decreases |es|
  {
    if j < |es| - 1 {
      var init := es[..|es| - 1];
      assert init[..j] == es[..j] && init[j] == es[j];
      DuplicateRejected(init, j);
    } else {
      assert es[..|es| - 1] == es[..j];
      var p := VisitEntries(es[..j]).value;
      assert Slot(p, KeyOf(es[j]));
    }
  }

  /** `visit_seq`: the graph, the inlets and the outlets are read in that
      order; a missing element `i` fails with `invalid_length(i)` and an
      element of the wrong kind is rejected. Elements past the third are
      not read. */
  function VisitSeq<G, I, O>(es: seq<Entry<G, I, O>>): (r: Result<GraphNode<G, I, O>, Fault>)
    ensures r.Ok? <==> |es| >= 3 && es[0].GraphEntry? && es[1].InletsEntry? && es[2].OutletsEntry?
    ensures r.Ok? ==> r.value == GraphNode(es[0].graph, es[1].inlets, es[2].outlets)
    ensures |es| < 3 && (forall i :: 0 <= i < |es| ==> KeyOf(es[i]) == [GraphKey, InletsKey, OutletsKey][i]) ==>
      r == Err(InvalidLength(|es|))
  {
    if |es| < 1 then Err(InvalidLength(0))
    else if !es[0].GraphEntry? then Err(InvalidElement(0))
    else if |es| < 2 then Err(InvalidLength(1))
    else if !es[1].InletsEntry? then Err(InvalidElement(1))
    else if |es| < 3 then Err(InvalidLength(2))
    else if !es[2].OutletsEntry? then Err(InvalidElement(2))
    else Ok(GraphNode(es[0].graph, es[1].inlets, es[2].outlets))
  }

  /** Decoding the serialised sequence rebuilds the node, lists in the same
      positional order. */
  lemma SeqRoundTrip<G, I, O>(gn: GraphNode<G, I, O>)
    ensures VisitSeq(Serialize(gn)) == Ok(gn)
  {
  }

  /** Decoding the serialised fields as a map rebuilds the node. */
  lemma MapRoundTrip<G, I, O>(gn: GraphNode<G, I, O>)
    ensures VisitMap(Serialize(gn)) == Ok(gn)
  {
    MapAnyOrder(gn, Serialize(gn));
  }

  /** `CountKey` adds up over concatenation. */
  lemma {:induction false} CountKeyAppend<G, I, O>(a: seq<Entry<G, I, O>>, b: seq<Entry<G, I, O>>, f: Field)
    ensures CountKey(a + b, f) == CountKey(a, f) + CountKey(b, f)
    decreases |b|
  {
    if |b| > 0 {
      var ab := a + b;
      assert ab[..|ab| - 1] == a + b[..|b| - 1];
      assert ab[|ab| - 1] == b[|b| - 1];
      CountKeyAppend(a, b[..|b| - 1], f);
    } else {
      assert a + b == a;
    }
  }

  /** Taking out the entry at `k` removes one copy of it from the
      multiset and its key from the counts. */
  lemma RemoveAt<G, I, O>(b: seq<Entry<G, I, O>>, k: nat, f: Field)
    requires k < |b|
    ensures multiset(b) == multiset(b[..k] + b[k + 1..]) + multiset{b[k]}
    ensures CountKey(b, f) == CountKey(b[..k] + b[k + 1..], f) + CountKey([b[k]], f)
  {
    assert b == b[..k] + [b[k]] + b[k + 1..];
    CountKeyAppend(b[..k] + [b[k]], b[k + 1..], f);
    CountKeyAppend(b[..k], [b[k]], f);
    CountKeyAppend(b[..k], b[k + 1..], f);
  }

  /** Key counts depend only on the multiset of entries. */
  lemma {:induction false} CountKeyPermutation<G, I, O>(a: seq<Entry<G, I, O>>, b: seq<Entry<G, I, O>>, f: Field)
    requires multiset(a) == multiset(b)
    ensures CountKey(a, f) == CountKey(b, f)
    decreases |a|
  {
    if |a| == 0 {
      assert |b| == |multiset(b)| == 0;
    } else {
      var x := a[|a| - 1];
      var init := a[..|a| - 1];
      RemoveAt(a, |a| - 1, f);
      assert a[..|a| - 1] + a[|a|..] == init;
      assert x in multiset(b);
      var k :| 0 <= k < |b| && b[k] == x;
      RemoveAt(b, k, f);
      var rest := b[..k] + b[k + 1..];
      assert multiset(init) + multiset{x} == multiset(rest) + multiset{x};
      assert multiset(init) == multiset(init) + multiset{x} - multiset{x};
      assert multiset(rest) == multiset(rest) + multiset{x} - multiset{x};
      CountKeyPermutation(init, b[..k] + b[k + 1..], f);
    }
  }

  /** The map form accepts the serialised fields in any order and rebuilds
      the same node. */
  lemma MapAnyOrder<G, I, O>(gn: GraphNode<G, I, O>, es: seq<Entry<G, I, O>>)
    requires multiset(es) == multiset(Serialize(gn))
    ensures VisitMap(es) == Ok(gn)
  {
    CountKeyPermutation(es, Serialize(gn), GraphKey);
    CountKeyPermutation(es, Serialize(gn), InletsKey);
    CountKeyPermutation(es, Serialize(gn), OutletsKey);
    var r := VisitMap(es).value;
    var i1 :| 0 <= i1 < |es| && es[i1].GraphEntry? && es[i1].graph == r.graph;
    var i2 :| 0 <= i2 < |es| && es[i2].InletsEntry? && es[i2].inlets == r.inlets;
    var i3 :| 0 <= i3 < |es| && es[i3].OutletsEntry? && es[i3].outlets == r.outlets;
    assert es[i1] in multiset(Serialize(gn));
    assert es[i2] in multiset(Serialize(gn));
    assert es[i3] in multiset(Serialize(gn));
  }
}
