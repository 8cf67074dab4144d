/** Whole-graph code generation: find the push-evaluation entry nodes and
    generate one entry function per entry node. */
module Codegen {
  import opened Results
  import opened Syntax
  import opened Graphs
  import opened Nodes
  import opened Dfs
  import opened EvalSteps
  import opened Synth

  /** The entry nodes among the first `n` nodes, in node order. */
  function PushNodesUpTo(g: Graph<Node>, n: nat): (r: seq<(nat, PushEval)>)
    requires n <= |g.nodes|
    ensures forall k :: 0 <= k < |r| ==> r[k].0 < n && g.nodes[r[k].0].push == Some(r[k].1)
    ensures forall k1, k2 :: 0 <= k1 < k2 < |r| ==> r[k1].0 < r[k2].0
    ensures forall id :: 0 <= id < n && g.nodes[id].push.Some? ==> exists k :: 0 <= k < |r| && r[k].0 == id
  {
    if n == 0 then []
    else
      var prev := PushNodesUpTo(g, n - 1);
      match g.nodes[n - 1].push
      case None => prev
      case Some(eval) =>
        var r := prev + [(n - 1, eval)];
        assert forall k :: 0 <= k < |prev| ==> r[k] == prev[k];
        assert r[|prev|].0 == n - 1;
        r
  }

  /** `push_nodes`: exactly the nodes that declare a push entry, paired
      with that entry, in node order. */
  function PushNodes(g: Graph<Node>): (r: seq<(nat, PushEval)>)
    ensures forall k :: 0 <= k < |r| ==> r[k].0 < |g.nodes| && g.nodes[r[k].0].push == Some(r[k].1)
    ensures forall k1, k2 :: 0 <= k1 < k2 < |r| ==> r[k1].0 < r[k2].0
    ensures forall id :: 0 <= id < |g.nodes| && g.nodes[id].push.Some? ==> exists k :: 0 <= k < |r| && r[k].0 == id
  {
    PushNodesUpTo(g, |g.nodes|)
  }

  /** `push_eval_fns`: one function per `(node, entry, steps)` triple, in
      order, failing with the first failure. */
  function PushEvalFns(g: Graph<Node>, entries: seq<(nat, PushEval, seq<EvalStep>)>): (r: Result<seq<ItemFn>, Fault>)
    ensures r.Ok? <==> forall k :: 0 <= k < |entries| ==> SynthSteps(g, entries[k].2).Ok?
    ensures r.Ok? ==> |r.value| == |entries|
    ensures r.Ok? ==> forall k :: 0 <= k < |entries| ==>
      && r.value[k].sig == Signature(entries[k].1.fnName, entries[k].1.fnDecl)
      && r.value[k].attrs == entries[k].1.fnAttrs
      && r.value[k].vis == Public
      && |r.value[k].block.stmts| == |entries[k].2|
      && r.value[k] == PushEvalFn(g, entries[k].1, entries[k].2).value
  {
    var fns := seq(|entries|, k requires 0 <= k < |entries| => PushEvalFn(g, entries[k].1, entries[k].2));
    assert forall k :: 0 <= k < |entries| ==> fns[k] == PushEvalFn(g, entries[k].1, entries[k].2);
    Collect(fns)
  }

  /** The entry function of one entry node: walk from it, then synthesise. */
  function EntryFn(g: Graph<Node>, n: nat, push: PushEval): (r: Result<ItemFn, Fault>)
    requires Valid(g) && n < |g.nodes|
    ensures r.Ok? <==> PushEvalSteps(g, n).Ok? && SynthSteps(g, PushEvalSteps(g, n).value).Ok?
    ensures r.Ok? ==>
      && r.value.sig == Signature(push.fnName, push.fnDecl)
      && r.value.attrs == push.fnAttrs
      && r.value.vis == Public
      && |r.value.block.stmts| == |DfsOrder(g, n)|
  {
    var steps :- PushEvalSteps(g, n);
    PushEvalFn(g, push, steps)
  }

  function EntryFns(g: Graph<Node>, entries: seq<(nat, PushEval)>): (r: Result<seq<ItemFn>, Fault>)
    requires Valid(g)
    requires forall k :: 0 <= k < |entries| ==> entries[k].0 < |g.nodes|
    ensures r.Ok? <==> forall k :: 0 <= k < |entries| ==> EntryFn(g, entries[k].0, entries[k].1).Ok?
    ensures r.Ok? ==> |r.value| == |entries|
    ensures r.Ok? ==> forall k :: 0 <= k < |entries| ==> r.value[k] == EntryFn(g, entries[k].0, entries[k].1).value
  {
    Collect(EntryResults(g, entries))
  }

  /** The entry function of every entry, before collecting. */
  function EntryResults(g: Graph<Node>, entries: seq<(nat, PushEval)>): (rs: seq<Result<ItemFn, Fault>>)
    requires Valid(g)
    requires forall k :: 0 <= k < |entries| ==> entries[k].0 < |g.nodes|
    ensures |rs| == |entries| && forall k :: 0 <= k < |entries| ==> rs[k] == EntryFn(g, entries[k].0, entries[k].1)
  {
    seq(|entries|, k requires 0 <= k < |entries| => EntryFn(g, entries[k].0, entries[k].1))
  }

  /** `file`: one public entry function per entry node, in node order, each
      named, attributed and declared by its node's push entry, with one
      statement per node of the walk from that entry node. */
  function GenerateFile(g: Graph<Node>): (r: Result<File, Fault>)
    requires Valid(g)
    ensures r.Ok? <==> forall k :: 0 <= k < |PushNodes(g)| ==>
      PushEvalSteps(g, PushNodes(g)[k].0).Ok? && SynthSteps(g, PushEvalSteps(g, PushNodes(g)[k].0).value).Ok?
    ensures r.Ok? ==> |r.value.items| == |PushNodes(g)|
    ensures r.Ok? ==> forall k :: 0 <= k < |PushNodes(g)| ==>
      var (n, push) := PushNodes(g)[k];
      var item := r.value.items[k];
      && item.sig == Signature(push.fnName, push.fnDecl)
      && item.attrs == push.fnAttrs
      && item.vis == Public
      && PushEvalSteps(g, n).Ok?
      && |item.block.stmts| == |DfsOrder(g, n)|
      && item == EntryFn(g, n, push).value
  {
    var items :- EntryFns(g, PushNodes(g));
    Ok(File(items))
  }

  /** Statement `i` of an entry function is the binding for the `i`-th
      node of the walk from its entry node: that node's output pattern bound
      to its generator applied to the resolved arguments. */
  lemma EntryStatement(g: Graph<Node>, n: nat, push: PushEval, i: nat)
    requires Valid(g) && n < |g.nodes| && EntryFn(g, n, push).Ok?
    requires i < |DfsOrder(g, n)|
    ensures PushEvalSteps(g, n).Ok? && PushEvalSteps(g, n).value[i].node == DfsOrder(g, n)[i]
    ensures StepOk(g, PushEvalSteps(g, n).value, i)
    ensures var steps := PushEvalSteps(g, n).value;
      var node := g.nodes[DfsOrder(g, n)[i]];
      EntryFn(g, n, push).value.block.stmts[i]
        == Let(OutputPattern(i, node.nOutputs), Generate(node.gen, node.nInputs, ResolvedArgs(g, steps, i)).value)
  {
    SynthStepsStmts(g, PushEvalSteps(g, n).value, i);
  }
}
