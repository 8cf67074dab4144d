/** The nested-graph adapter of the older revision: inlets and outlets are
    records of a node id and a declared type, the evaluator declaration is
    built from those declared types alone (no lookups, no `state`
    parameter), and the boundary nodes simply forward their one argument. */
module LegacyGraphNode {
  import opened Results
  import opened Syntax
  import opened Names
  import opened Nodes
  import opened GraphNodeSerde
  import opened EvaluatorSig

  /** An inlet: the id of its node in the inner graph and its expected type. */
  datatype Inlet = Inlet(nodeId: nat, ty: Type)

  /** An outlet: the id of its node in the inner graph and its expected type. */
  datatype Outlet = Outlet(nodeId: nat, ty: Type)

  function InletTypes(inlets: seq<Inlet>): (tys: seq<Type>)
    ensures |tys| == |inlets| && forall i :: 0 <= i < |inlets| ==> tys[i] == inlets[i].ty
  {
    seq(|inlets|, i requires 0 <= i < |inlets| => inlets[i].ty)
  }

  function OutletTypes(outlets: seq<Outlet>): (tys: seq<Type>)
    ensures |tys| == |outlets| && forall i :: 0 <= i < |outlets| ==> tys[i] == outlets[i].ty
  {
    seq(|outlets|, i requires 0 <= i < |outlets| => outlets[i].ty)
  }

  /** `graph_node_evaluator_fn_inputs`: parameter `inlet{i}` of inlet `i`'s
      declared type. */
  function FnInputs(inlets: seq<Inlet>): (ps: seq<FnArg>)
    ensures |ps| == |inlets|
    ensures forall i :: 0 <= i < |inlets| ==> ps[i] == Arg(InletName(i), inlets[i].ty)
    ensures forall i, j :: 0 <= i < j < |ps| ==> ps[i].name != ps[j].name
  {
    InletParamNames(InletTypes(inlets));
    InletParams(InletTypes(inlets))
  }

  /** `graph_node_evaluator_fn_output`: unit, the single outlet's type, or
      the tuple of the outlets' types. */
  function FnOutput(outlets: seq<Outlet>): (r: ReturnType)
    ensures |outlets| == 0 ==> r == DefaultReturn
    ensures |outlets| == 1 ==> r == Returns(outlets[0].ty)
    ensures |outlets| > 1 ==> r == Returns(TupleType(OutletTypes(outlets)))
  {
    ReturnShape(OutletTypes(outlets))
  }

  /** `graph_node_evaluator_fn_decl`: one parameter per inlet and no
      `state` parameter. */
  function EvaluatorFnDecl(inlets: seq<Inlet>, outlets: seq<Outlet>): (d: FnDecl)
    ensures |d.inputs| == |inlets|
    ensures forall i :: 0 <= i < |d.inputs| ==> d.inputs[i].name == InletName(i)
    ensures forall i :: 0 <= i < |d.inputs| ==> d.inputs[i].name != "state"
    ensures ParamTypes(d.inputs) == InletTypes(inlets)
    ensures d.output == FnOutput(outlets)
  {
    InletParamNames(InletTypes(inlets));
    FnDecl(FnInputs(inlets), FnOutput(outlets))
  }

  /** `Node::evaluator` of a graph node: always a function item named
      `graph_node_evaluator_fn`, without attributes, of inherited
      visibility, whose body the inner graph's `evaluator_fn_block` builds
      from the declaration. */
  function Evaluator<G>(gn: GraphNode<G, Inlet, Outlet>, fnBlock: (G, FnDecl) -> Block): (r: Evaluator)
    ensures r.FnEval?
    ensures r.item.sig.name == EvaluatorFnName && r.item.attrs == [] && r.item.vis == Inherited
    ensures r.item.sig.decl == EvaluatorFnDecl(gn.inlets, gn.outlets)
    ensures r.item.block == fnBlock(gn.graph, r.item.sig.decl)
  {
    var decl := EvaluatorFnDecl(gn.inlets, gn.outlets);
    FnEval(ItemFn([], Inherited, Signature(EvaluatorFnName, decl), fnBlock(gn.graph, decl)))
  }

  /** The `InletNode` evaluator: one input from the calling function, one
      output, the argument passed through unchanged. */
  function InletNodeEvaluator(): (r: Evaluator)
    ensures r.ExprEval? && r.nInputs == 1 && r.nOutputs == 1
    ensures forall args :: Generate(r.gen, r.nInputs, args).Ok? <==> |args| == 1
    ensures forall a :: Generate(r.gen, r.nInputs, [a]) == Ok(a)
  {
    ExprEval(1, 1, ForwardGen)
  }

  /** The `OutletNode` evaluator: the same shape as the inlet node. */
  function OutletNodeEvaluator(): (r: Evaluator)
    ensures r.ExprEval? && r.nInputs == 1 && r.nOutputs == 1
    ensures forall args :: Generate(r.gen, r.nInputs, args).Ok? <==> |args| == 1
    ensures forall a :: Generate(r.gen, r.nInputs, [a]) == Ok(a)
  {
    ExprEval(1, 1, ForwardGen)
  }
}
