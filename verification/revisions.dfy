/** How the two revisions of the nested-graph adapter relate. */
module Revisions {
  import opened Syntax
  import opened GraphNodeSerde
  import Core = CoreGraphNode
  import Legacy = LegacyGraphNode

  /** Once the trailing `state` parameter is dropped, the newer revision's
      evaluator function has exactly the declaration the older revision
      builds from inlet and outlet records whose declared types are the
      boundary nodes' state types. */
  lemma PoppedSignatureMatchesLegacy(
    gn: GraphNode<Core.InnerGraph, nat, nat>,
    fnBlock: (Core.InnerGraph, seq<nat>, seq<nat>, Signature) -> Block,
    inlets: seq<Legacy.Inlet>,
    outlets: seq<Legacy.Outlet>)
    requires Core.Evaluator(gn, fnBlock).Ok?
    requires |inlets| == |gn.inlets| && |outlets| == |gn.outlets|
    requires forall i :: 0 <= i < |inlets| ==>
      inlets[i].ty == Core.ExpectNodeStateType(gn.graph, gn.inlets[i]).value
    requires forall i :: 0 <= i < |outlets| ==>
      outlets[i].ty == Core.ExpectNodeStateType(gn.graph, gn.outlets[i]).value
    ensures Core.Evaluator(gn, fnBlock).value.item.sig.decl == Legacy.EvaluatorFnDecl(inlets, outlets)
  {
    var sig := Core.EvaluatorSignature(gn).value;
    var inputs := Core.FnInputs(gn.graph, gn.inlets).value;
    assert sig.decl.inputs[..|gn.inlets|] == inputs;
    assert inputs == Legacy.FnInputs(inlets);
    if |outlets| > 1 {
      assert Core.FnOutput(gn.graph, gn.outlets).value.ty.elems == Legacy.OutletTypes(outlets);
    }
  }
}
