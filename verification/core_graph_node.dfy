/** The nested-graph adapter of the newer revision: a graph node whose
    inlets and outlets are ids of `Inlet` and `Outlet` nodes inside the
    inner graph, typed by those nodes' state types, and whose evaluator
    function takes a trailing `state` parameter while its body is
    generated and then drops it again. */
module CoreGraphNode {
  import opened Results
  import opened Syntax
  import opened Names
  import opened Nodes
  import opened Graphs
  import opened GraphNodeSerde
  import opened EvaluatorSig

  /** The nodes an inner graph can hold, as far as the adapter looks at
      them: the boundary nodes, nested graph nodes, and any other node
      with its optional state type. */
  datatype CoreNode =
    | Inlet(ty: Type)
    | Outlet(ty: Type)
    | Nested(node: GraphNode<InnerGraph, nat, nat>)
    | Other(state: Option<Type>)

  /** An inner graph: its nodes and edges, and the state type it exposes. */
  datatype InnerGraph = InnerGraph(graph: Graph<CoreNode>, stateTy: Type)

  /** `Node::state_type` of each kind of node. */
  function StateType(n: CoreNode): Option<Type> {
    match n
    case Inlet(ty) => Some(ty)
    case Outlet(ty) => Some(ty)
    case Nested(gn) => GraphNodeStateType(gn)
    case Other(s) => s
  }

  /** `expect_node_state_type`: the state type of the node at `id`; a
      missing node and a node without a state type are both fatal. */
  function ExpectNodeStateType(g: InnerGraph, id: nat): (r: Result<Type, Fault>)
    ensures r.Ok? <==> id < |g.graph.nodes| && StateType(g.graph.nodes[id]).Some?
    ensures r.Ok? ==> r.value == StateType(g.graph.nodes[id]).value
    ensures id >= |g.graph.nodes| ==> r == Err(NoNodeForId(id))
    ensures id < |g.graph.nodes| && StateType(g.graph.nodes[id]).None? ==> r == Err(NoStateType(id))
  {
    if id >= |g.graph.nodes| then Err(NoNodeForId(id))
    else match StateType(g.graph.nodes[id])
      case None => Err(NoStateType(id))
      case Some(ty) => Ok(ty)
  }

  /** The state types of the nodes `ids`, in order, or the first failure. */
  function StateTypes(g: InnerGraph, ids: seq<nat>): (r: Result<seq<Type>, Fault>)
    ensures r.Ok? <==> forall i :: 0 <= i < |ids| ==> ExpectNodeStateType(g, ids[i]).Ok?
    ensures r.Ok? ==> (|r.value| == |ids|
      && forall i :: 0 <= i < |ids| ==> r.value[i] == ExpectNodeStateType(g, ids[i]).value)
    ensures r.Err? ==> exists i :: (0 <= i < |ids| && ExpectNodeStateType(g, ids[i]).Err?
      && r.error == ExpectNodeStateType(g, ids[i]).error
      && forall j :: 0 <= j < i ==> ExpectNodeStateType(g, ids[j]).Ok?)
  {
    var rs := seq(|ids|, i requires 0 <= i < |ids| => ExpectNodeStateType(g, ids[i]));
    assert forall i :: 0 <= i < |ids| ==> rs[i] == ExpectNodeStateType(g, ids[i]);
    Collect(rs)
  }

  /** `graph_node_evaluator_fn_state_arg`. */
  function StateArg(ty: Type): FnArg {
    Arg("state", ty)
  }

  /** `graph_node_evaluator_fn_inputs`: parameter `inlet{i}` typed by the
      state type of inlet node `i`. */
  function FnInputs(g: InnerGraph, inlets: seq<nat>): (r: Result<seq<FnArg>, Fault>)
    ensures r.Ok? <==> forall i :: 0 <= i < |inlets| ==> ExpectNodeStateType(g, inlets[i]).Ok?
    ensures r.Ok? ==> (|r.value| == |inlets|
      && forall i :: 0 <= i < |inlets| ==>
           r.value[i] == Arg(InletName(i), ExpectNodeStateType(g, inlets[i]).value))
  {
    var tys :- StateTypes(g, inlets);
    InletParamNames(tys);
    Ok(InletParams(tys))
  }

  /** `graph_node_evaluator_fn_output`: unit for no outlet, the single
      outlet's state type, or the tuple of the outlets' state types. */
  function FnOutput(g: InnerGraph, outlets: seq<nat>): (r: Result<ReturnType, Fault>)
    ensures r.Ok? <==> forall i :: 0 <= i < |outlets| ==> ExpectNodeStateType(g, outlets[i]).Ok?
    ensures r.Ok? && |outlets| == 0 ==> r.value == DefaultReturn
    ensures r.Ok? && |outlets| == 1 ==> r.value == Returns(ExpectNodeStateType(g, outlets[0]).value)
    ensures r.Ok? && |outlets| > 1 ==> (r.value.Returns? && r.value.ty.TupleType?
      && |r.value.ty.elems| == |outlets|
      && forall i :: 0 <= i < |outlets| ==> r.value.ty.elems[i] == ExpectNodeStateType(g, outlets[i]).value)
  {
    match |outlets|
    case 0 => Ok(DefaultReturn)
    case 1 =>
      var ty :- ExpectNodeStateType(g, outlets[0]);
      Ok(Returns(ty))
    case _ =>
      var tys :- StateTypes(g, outlets);
      Ok(Returns(TupleType(tys)))
  }

  /** `graph_node_evaluator_signature`: the inlet parameters followed by a
      trailing `state` parameter of the graph's state type, and the outlet
      return shape. Inlet lookups fail before outlet lookups. */
  function EvaluatorSignature(gn: GraphNode<InnerGraph, nat, nat>): (r: Result<Signature, Fault>)
    ensures r.Ok? <==> FnInputs(gn.graph, gn.inlets).Ok? && FnOutput(gn.graph, gn.outlets).Ok?
    ensures r.Ok? ==> (r.value.name == EvaluatorFnName
      && r.value.decl.inputs == FnInputs(gn.graph, gn.inlets).value + [StateArg(gn.graph.stateTy)]
      && r.value.decl.output == FnOutput(gn.graph, gn.outlets).value)
    ensures FnInputs(gn.graph, gn.inlets).Err? ==> r == Err(FnInputs(gn.graph, gn.inlets).error)
  {
    var inputs :- FnInputs(gn.graph, gn.inlets);
    var output :- FnOutput(gn.graph, gn.outlets);
    Ok(Signature(EvaluatorFnName, FnDecl(inputs + [StateArg(gn.graph.stateTy)], output)))
  }

  /** `Node::evaluator` of a graph node: the body is produced by the inner
      graph's `evaluator_fn_block` against the full signature, then the
      trailing `state` parameter is removed; no attributes, inherited
      visibility. */
  function Evaluator(gn: GraphNode<InnerGraph, nat, nat>, fnBlock: (InnerGraph, seq<nat>, seq<nat>, Signature) -> Block)
    : (r: Result<Evaluator, Fault>)
    ensures r.Ok? <==> EvaluatorSignature(gn).Ok?
    ensures r.Ok? ==> (r.value.FnEval?
      && var sig := EvaluatorSignature(gn).value;
         var item := r.value.item;
         && |sig.decl.inputs| == |gn.inlets| + 1
         && sig.decl.inputs[|gn.inlets|] == Arg("state", gn.graph.stateTy)
         && item.block == fnBlock(gn.graph, gn.inlets, gn.outlets, sig)
         && |item.sig.decl.inputs| == |gn.inlets|
         && item.sig.decl.inputs == sig.decl.inputs[..|gn.inlets|]
         && item.sig.decl.output == sig.decl.output
         && item.sig.name == EvaluatorFnName
         && item.attrs == [] && item.vis == Inherited)
  {
    var sig :- EvaluatorSignature(gn);
    var block := fnBlock(gn.graph, gn.inlets, gn.outlets, sig);
    var inputs := sig.decl.inputs;
    var popped := Signature(sig.name, FnDecl(inputs[..|inputs| - 1], sig.decl.output));
    Ok(FnEval(ItemFn([], Inherited, popped, block)))
  }

  /** `Node::state_type` of a graph node: always the inner graph's state
      type. */
  function GraphNodeStateType(gn: GraphNode<InnerGraph, nat, nat>): (r: Option<Type>)
    ensures r == Some(gn.graph.stateTy)
  {
    Some(gn.graph.stateTy)
  }

  /** A graph node nested in an outer graph never fails the state-type
      lookup: used as an inlet or outlet, it contributes its inner graph's
      state type. */
  lemma NestedStateTypeFound(g: InnerGraph, id: nat, gn: GraphNode<InnerGraph, nat, nat>)
    requires id < |g.graph.nodes| && g.graph.nodes[id] == Nested(gn)
    ensures ExpectNodeStateType(g, id) == Ok(gn.graph.stateTy)
  {
  }

  /** The `Inlet` evaluator: no inputs, one output, `{ state.clone() }`. */
  function InletEvaluator(ty: Type): (r: Evaluator)
    ensures r.ExprEval? && r.nInputs == 0 && r.nOutputs == 1
    ensures forall args :: Generate(r.gen, r.nInputs, args).Ok? <==> |args| == 0
    ensures Generate(r.gen, r.nInputs, []) == Ok(StateClone)
  {
    ExprEval(0, 1, InletGen)
  }

  /** The `Outlet` evaluator: one input, no outputs, writes its argument
      into the state of type `ty`. */
  function OutletEvaluator(ty: Type): (r: Evaluator)
    ensures r.ExprEval? && r.nInputs == 1 && r.nOutputs == 0
    ensures forall args :: Generate(r.gen, r.nInputs, args).Ok? <==> |args| == 1
    ensures forall a :: Generate(r.gen, r.nInputs, [a]) == Ok(StoreState(ty, a))
  {
    ExprEval(1, 0, OutletGen(ty))
  }

  /** `add_inlet`: adds the node and appends its id to the inlets. */
  function AddInlet(gn: GraphNode<InnerGraph, nat, nat>, n: CoreNode): (r: (GraphNode<InnerGraph, nat, nat>, nat))
    ensures r.1 == |gn.graph.graph.nodes| && r.0.graph.graph.nodes == gn.graph.graph.nodes + [n]
    ensures r.0.graph.graph.edges == gn.graph.graph.edges && r.0.graph.stateTy == gn.graph.stateTy
    ensures r.0.inlets == gn.inlets + [r.1] && r.0.outlets == gn.outlets
  {
    var (g, id) := AddNode(gn.graph.graph, n);
    (GraphNode(InnerGraph(g, gn.graph.stateTy), gn.inlets + [id], gn.outlets), id)
  }

  /** `add_outlet`: adds the node and appends its id to the outlets. */
  function AddOutlet(gn: GraphNode<InnerGraph, nat, nat>, n: CoreNode): (r: (GraphNode<InnerGraph, nat, nat>, nat))
    ensures r.1 == |gn.graph.graph.nodes| && r.0.graph.graph.nodes == gn.graph.graph.nodes + [n]
    ensures r.0.graph.graph.edges == gn.graph.graph.edges && r.0.graph.stateTy == gn.graph.stateTy
    ensures r.0.outlets == gn.outlets + [r.1] && r.0.inlets == gn.inlets
  {
    var (g, id) := AddNode(gn.graph.graph, n);
    (GraphNode(InnerGraph(g, gn.graph.stateTy), gn.inlets, gn.outlets + [id]), id)
  }

  /** Adding an inlet node with a state type extends the evaluator's
      parameters by one `inlet{k}` parameter of that type, where `k` is the
      number of inlets before, and leaves the earlier parameters alone. */
  lemma AddInletExtendsInputs(gn: GraphNode<InnerGraph, nat, nat>, n: CoreNode)
    requires FnInputs(gn.graph, gn.inlets).Ok? && StateType(n).Some?
    ensures var gn' := AddInlet(gn, n).0;
      FnInputs(gn'.graph, gn'.inlets)
        == Ok(FnInputs(gn.graph, gn.inlets).value + [Arg(InletName(|gn.inlets|), StateType(n).value)])
  {
    var gn' := AddInlet(gn, n).0;
    var k := |gn.inlets|;
    forall i | 0 <= i < k
      ensures ExpectNodeStateType(gn'.graph, gn'.inlets[i]) == ExpectNodeStateType(gn.graph, gn.inlets[i])
    {
      assert gn'.inlets[i] == gn.inlets[i];
      assert gn'.graph.graph.nodes[gn.inlets[i]] == gn.graph.graph.nodes[gn.inlets[i]];
    }
    assert ExpectNodeStateType(gn'.graph, gn'.inlets[k]) == Ok(StateType(n).value);
    var old_ := FnInputs(gn.graph, gn.inlets).value;
    var new_ := FnInputs(gn'.graph, gn'.inlets).value;
    var expected := old_ + [Arg(InletName(k), StateType(n).value)];
    forall i | 0 <= i < k + 1 ensures new_[i] == expected[i] {
      if i < k {
        assert new_[i] == Arg(InletName(i), ExpectNodeStateType(gn.graph, gn.inlets[i]).value);
      }
    }
    assert new_ == expected;
  }

  /** The state types of a list of nodes depend only on what looking each
      of them up gives. */
  lemma StateTypesFrame(g1: InnerGraph, g2: InnerGraph, ids: seq<nat>)
    requires forall i :: 0 <= i < |ids| ==> ExpectNodeStateType(g1, ids[i]) == ExpectNodeStateType(g2, ids[i])
    ensures StateTypes(g1, ids) == StateTypes(g2, ids)
  {
    var rs1 := seq(|ids|, i requires 0 <= i < |ids| => ExpectNodeStateType(g1, ids[i]));
    var rs2 := seq(|ids|, i requires 0 <= i < |ids| => ExpectNodeStateType(g2, ids[i]));
    assert rs1 == rs2;
  }

  /** Adding an outlet leaves the evaluator's parameters unchanged, failure
      included, as long as every inlet names an existing node (a dangling
      inlet id would name the node just added). */
  lemma AddOutletKeepsInputs(gn: GraphNode<InnerGraph, nat, nat>, n: CoreNode)
    requires forall i :: 0 <= i < |gn.inlets| ==> gn.inlets[i] < |gn.graph.graph.nodes|
    ensures var gn' := AddOutlet(gn, n).0;
      FnInputs(gn'.graph, gn'.inlets) == FnInputs(gn.graph, gn.inlets)
  {
    var gn' := AddOutlet(gn, n).0;
    forall i | 0 <= i < |gn.inlets|
      ensures ExpectNodeStateType(gn'.graph, gn.inlets[i]) == ExpectNodeStateType(gn.graph, gn.inlets[i])
    {
      assert gn'.graph.graph.nodes[gn.inlets[i]] == gn.graph.graph.nodes[gn.inlets[i]];
    }
    StateTypesFrame(gn'.graph, gn.graph, gn.inlets);
  }
}
