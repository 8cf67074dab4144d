/** A worked instance: the constant-into-adder-into-printer graph of the
    project example, from the walk through the evaluation steps to the
    generated entry function. Each fact is proved for every graph wired
    like the example, then for the example itself. */
module Scenarios {
  import opened Results
  import opened Syntax
  import opened Names
  import opened Graphs
  import opened Nodes
  import opened Dfs
  import opened CloneFlag
  import opened EvalSteps
  import opened Synth
  import opened Codegen

  /** `one_push_eval`: no parameters, no return type, no attributes. */
  const Entry: PushEval := PushEval(FnDecl([], DefaultReturn), "one_push_eval", [])

  /** `One` (no inputs, one output, a push entry), `Add` (two inputs, one
      output) and `Debug` (one input, no outputs). */
  const One: Node := Node(0, 1, OpaqueGen(0), Some(Entry))
  const Add: Node := Node(2, 1, OpaqueGen(1), None)
  const Debug: Node := Node(1, 0, OpaqueGen(2), None)

  const E0: EdgeRef := EdgeRef(0, 1, Edge(0, 0))
  const E1: EdgeRef := EdgeRef(0, 1, Edge(0, 1))
  const E2: EdgeRef := EdgeRef(1, 2, Edge(0, 0))

  /** The project example's wiring: `One` output 0 into both inputs of
      `Add`, then `Add` into `Debug`. Edges added later are enumerated
      first. */
  const Example: Graph<Node> := Graph([One, Add, Debug], [E2, E1, E0])

  lemma ExampleIsBuilt()
    ensures Example == AddEdge(AddEdge(AddEdge(Graph([One, Add, Debug], []), 0, 1, Edge(0, 0)), 0, 1, Edge(0, 1)), 1, 2, Edge(0, 0))
  {
  }

  /** Filtering a list with a first edge. */
  lemma FilterCons(e: EdgeRef, rest: seq<EdgeRef>, n: nat)
    ensures Outgoing([e] + rest, n) == (if e.source == n then [e] else []) + Outgoing(rest, n)
    ensures Incoming([e] + rest, n) == (if e.target == n then [e] else []) + Incoming(rest, n)
  {
    assert ([e] + rest)[1..] == rest;
  }

  /** The edge lists of one node of the example, built up one edge at a
      time from the oldest. */
  lemma ExampleEdgeListsAt(n: nat)
    ensures Outgoing(Example.edges, n) == (if n == 1 then [E2] else []) + (if n == 0 then [E1, E0] else [])
    ensures Incoming(Example.edges, n) == (if n == 2 then [E2] else []) + (if n == 1 then [E1, E0] else [])
  {
    var none: seq<EdgeRef> := [];
    assert Outgoing(none, n) == [] && Incoming(none, n) == [];
    FilterCons(E0, none, n);
    assert [E0] + none == [E0];
    FilterCons(E1, [E0], n);
    assert [E1] + [E0] == [E1, E0];
    FilterCons(E2, [E1, E0], n);
    assert [E2] + [E1, E0] == Example.edges;
  }

  lemma ExampleEdgeLists()
    ensures Outgoing(Example.edges, 0) == [E1, E0] && Outgoing(Example.edges, 1) == [E2]
    ensures Outgoing(Example.edges, 2) == []
    ensures Incoming(Example.edges, 1) == [E1, E0] && Incoming(Example.edges, 2) == [E2]
    ensures Incoming(Example.edges, 0) == []
  {
    ExampleEdgeListsAt(0);
    ExampleEdgeListsAt(1);
    ExampleEdgeListsAt(2);
    assert [E2] + [] == [E2] && [] + [E1, E0] == [E1, E0];
  }

  /** Popping a new node emits it and stacks its undiscovered successors. */
  lemma WalkVisit<N>(g: Graph<N>, stack: seq<nat>, discovered: set<nat>)
    requires Valid(g) && InGraph(g, stack) && |stack| > 0 && stack[|stack| - 1] !in discovered
    ensures var node := stack[|stack| - 1];
      var d := discovered + {node};
      var next := stack[..|stack| - 1] + Undiscovered(Successors(g, node), d);
      InGraph(g, next) && Walk(g, stack, discovered) == [node] + Walk(g, next, d)
  {
    var node := stack[|stack| - 1];
    PushInGraph(g, stack[..|stack| - 1], node, discovered + {node});
  }

  /** A graph wired like the example: the same nodes and, node by node, the
      same outgoing and incoming edge lists in enumeration order. The worked
      facts below are stated for every such graph. */
  predicate ExampleShaped(g: Graph<Node>) {
    Valid(g) && g.nodes == [One, Add, Debug]
    && Outgoing(g.edges, 0) == [E1, E0] && Outgoing(g.edges, 1) == [E2] && Outgoing(g.edges, 2) == []
    && Incoming(g.edges, 0) == [] && Incoming(g.edges, 1) == [E1, E0] && Incoming(g.edges, 2) == [E2]
  }

  lemma ExampleIsShaped()
    ensures ExampleShaped(Example)
  {
    ExampleEdgeLists();
  }

  /** What the walk sees of an example-shaped graph: three nodes, two
      edges from `One` into `Add` and one from `Add` into `Debug`. */
  predicate WalkShaped<N>(g: Graph<N>) {
    Valid(g) && |g.nodes| == 3 && Successors(g, 0) == [1, 1] && Successors(g, 1) == [2] && Successors(g, 2) == []
  }

  lemma ShapedSuccessors(g: Graph<Node>)
    requires ExampleShaped(g)
    ensures WalkShaped(g)
  {
  }

  lemma Fresh1(x: nat, d: set<nat>)
    requires x !in d
    ensures Undiscovered([x], d) == [x]
  {
    assert [x][1..] == [];
  }

  lemma Fresh2(x: nat, d: set<nat>)
    requires x !in d
    ensures Undiscovered([x, x], d) == [x, x]
  {
    assert [x, x][1..] == [x];
    Fresh1(x, d);
  }

  /** Last pop: the second copy of `Add`, already discovered. */
  lemma WalkTail3<N>(g: Graph<N>, d: set<nat>)
    requires WalkShaped(g) && 1 in d
    ensures Walk(g, [1], d) == []
  {
    assert [1][..0] == [];
  }

  /** `Debug` is popped and has no successors. */
  lemma WalkTail2<N>(g: Graph<N>, d: set<nat>)
    requires WalkShaped(g) && 1 in d && 2 !in d
    ensures Walk(g, [1, 2], d) == [2]
  {
    assert Undiscovered([], d + {2}) == [];
    assert [1, 2][..1] == [1];
    WalkTail3(g, d + {2});
  }

  /** `Add` is popped off the stack `[1, 1]` and `Debug` is pushed. */
  lemma WalkTail1<N>(g: Graph<N>, d: set<nat>)
    requires WalkShaped(g) && 1 !in d && 2 !in d
    ensures Walk(g, [1, 1], d) == [1, 2]
  {
    Fresh1(2, d + {1});
    assert [1, 1][..1] + Undiscovered(Successors(g, 1), d + {1}) == [1, 2];
    WalkTail2(g, d + {1});
    assert Walk(g, [1, 1], d) == [1] + Walk(g, [1, 2], d + {1});
  }

  /** `One` is popped and `Add` is pushed once per edge into it. */
  lemma WalkHead<N>(g: Graph<N>, d: set<nat>)
    requires WalkShaped(g) && d == {} + {0}
    ensures InGraph(g, [1, 1]) && Walk(g, [0], {}) == [0] + Walk(g, [1, 1], d)
  {
    Fresh2(1, d);
    WalkVisit(g, [0], {});
    assert [0][..0] + Undiscovered(Successors(g, 0), d) == [1, 1];
  }

  /** The whole walk from `One`. */
  lemma WalkTail0<N>(g: Graph<N>, d: set<nat>)
    requires WalkShaped(g) && d == {} + {0}
    ensures Walk(g, [0], {}) == [0, 1, 2]
  {
    WalkHead(g, d);
    WalkTail1(g, d);
    assert [0] + [1, 2] == [0, 1, 2];
  }

  /** The walk from `One` visits `One`, `Add`, `Debug`; the second stacked
      copy of `Add` is skipped. */
  lemma ShapedWalk(g: Graph<Node>)
    requires ExampleShaped(g)
    ensures DfsOrder(g, 0) == [0, 1, 2]
  {
    ShapedSuccessors(g);
    WalkTail0(g, {} + {0});
  }

  /** `One` has two outgoing edges from output 0: the one enumerated
      first, into `Add` input 1, is cloned; the last, into input 0, is
      moved. */
  lemma ExampleCloneFlags()
    ensures RequiresClone([Edge(0, 1), Edge(0, 0)], Edge(0, 1))
    ensures !RequiresClone([Edge(0, 1), Edge(0, 0)], Edge(0, 0))
    ensures !RequiresClone([Edge(0, 0)], Edge(0, 0))
  {
    var ws := [Edge(0, 1), Edge(0, 0)];
    assert ws[..1] == [Edge(0, 1)] && [Edge(0, 1)][..0] == [];
    assert CountOutput(ws, 0) == 2;
    assert LastEqualIndex(ws, Edge(0, 1)) == 0;
    assert LastEqualIndex(ws, Edge(0, 0)) == 1;
  }

  lemma ShapedEdgeArgs(g: Graph<Node>)
    requires ExampleShaped(g)
    ensures EdgeArg(g, E0) == ExprInput(0, 0, false)
    ensures EdgeArg(g, E1) == ExprInput(0, 0, true)
    ensures EdgeArg(g, E2) == ExprInput(1, 0, false)
  {
    ExampleCloneFlags();
    assert Weights([E1, E0]) == [Edge(0, 1), Edge(0, 0)];
    assert Weights([E2]) == [Edge(0, 0)];
  }

  lemma ShapedStepOne(g: Graph<Node>)
    requires ExampleShaped(g)
    ensures StepFor(g, 0) == Ok(EvalStep(0, []))
  {
    assert Unconnected(0) == [];
  }

  /** One more incoming edge on top of a successful fill. */
  lemma FillSlotsSnoc<N>(g: Graph<N>, node: nat, nInputs: nat, ins: seq<EdgeRef>, e: EdgeRef, args: seq<Option<ExprInput>>)
    requires FillSlots(g, node, nInputs, ins) == Ok(args) && e.weight.input < nInputs
    ensures FillSlots(g, node, nInputs, ins + [e]) == Ok(args[e.weight.input := Some(EdgeArg(g, e))])
  {
    assert (ins + [e])[..|ins|] == ins;
  }

  /** `Add`'s two slots, filled in enumeration order. */
  lemma ShapedStepAdd(g: Graph<Node>)
    requires |g.nodes| == 3 && g.nodes[1] == Add && Incoming(g.edges, 1) == [E1, E0]
    requires EdgeArg(g, E0) == ExprInput(0, 0, false) && EdgeArg(g, E1) == ExprInput(0, 0, true)
    ensures StepFor(g, 1) == Ok(EvalStep(1, [Some(ExprInput(0, 0, false)), Some(ExprInput(0, 0, true))]))
  {
    var a0 := Unconnected(2);
    assert FillSlots(g, 1, 2, []) == Ok(a0);
    FillSlotsSnoc(g, 1, 2, [], E1, a0);
    assert [] + [E1] == [E1];
    var a1 := a0[1 := Some(EdgeArg(g, E1))];
    FillSlotsSnoc(g, 1, 2, [E1], E0, a1);
    assert [E1] + [E0] == [E1, E0];
    assert a1[0 := Some(EdgeArg(g, E0))] == [Some(ExprInput(0, 0, false)), Some(ExprInput(0, 0, true))];
  }

  /** `Debug`'s one slot. */
  lemma ShapedStepDebug(g: Graph<Node>)
    requires |g.nodes| == 3 && g.nodes[2] == Debug && Incoming(g.edges, 2) == [E2]
    requires EdgeArg(g, E2) == ExprInput(1, 0, false)
    ensures StepFor(g, 2) == Ok(EvalStep(2, [Some(ExprInput(1, 0, false))]))
  {
    var a0 := Unconnected(1);
    assert FillSlots(g, 2, 1, []) == Ok(a0);
    FillSlotsSnoc(g, 2, 1, [], E2, a0);
    assert [] + [E2] == [E2];
    assert a0[0 := Some(EdgeArg(g, E2))] == [Some(ExprInput(1, 0, false))];
  }

  /** The example's steps, as the walk from `One` produces them. */
  const Steps: seq<EvalStep> := [
    EvalStep(0, []),
    EvalStep(1, [Some(ExprInput(0, 0, false)), Some(ExprInput(0, 0, true))]),
    EvalStep(2, [Some(ExprInput(1, 0, false))])]

  /** The statements synthesised for them. */
  const Stmts: seq<Stmt> := [
    Let(IdentPat(VarName(0, 0)), Generated(0, [])),
    Let(IdentPat(VarName(1, 0)), Generated(1, [VarRef(VarName(0, 0)), CloneOf(VarName(0, 0))])),
    Let(UnitPat, Generated(2, [VarRef(VarName(1, 0))]))]

  /** Steps for an order with a first node, from that node's step and the
      rest's steps. */
  lemma StepsCons(g: Graph<Node>, order: seq<nat>, s: EvalStep, rest: seq<EvalStep>)
    requires InGraph(g, order) && |order| > 0
    requires StepFor(g, order[0]) == Ok(s) && StepsFor(g, order[1..]) == Ok(rest)
    ensures StepsFor(g, order) == Ok([s] + rest)
  {
  }

  /** The steps of an order whose nodes each yield the given step. */
  lemma StepsForAll(g: Graph<Node>, order: seq<nat>, steps: seq<EvalStep>)
    requires InGraph(g, order) && |steps| == |order|
    requires forall i :: 0 <= i < |order| ==> StepFor(g, order[i]) == Ok(steps[i])
    ensures StepsFor(g, order) == Ok(steps)
  {
    assert AllInputsInRange(g, order);
    assert StepsFor(g, order).value == steps;
  }

  /** The steps of the order `[0, 1, 2]` in a graph whose nodes yield the
      example's steps. */
  lemma ExampleOrderSteps(g: Graph<Node>, order: seq<nat>)
    requires |g.nodes| == 3 && order == [0, 1, 2]
    requires StepFor(g, 0) == Ok(Steps[0]) && StepFor(g, 1) == Ok(Steps[1]) && StepFor(g, 2) == Ok(Steps[2])
    ensures InGraph(g, order) && StepsFor(g, order) == Ok(Steps)
  {
    assert order[0] == 0 && order[1] == 1 && order[2] == 2;
    StepsForAll(g, order, Steps);
  }

  /** The steps of the walk `One`, `Add`, `Debug`: `Add` takes `One`'s
      output moved into slot 0 and cloned into slot 1, and `Debug` takes
      `Add`'s output. */
  lemma ShapedSteps(g: Graph<Node>)
    requires ExampleShaped(g)
    ensures PushEvalSteps(g, 0) == Ok(Steps)
  {
    ShapedWalk(g);
    ShapedEdgeArgs(g);
    ShapedStepOne(g);
    ShapedStepAdd(g);
    ShapedStepDebug(g);
    ExampleOrderSteps(g, DfsOrder(g, 0));
  }

  /** One more step on top of a successful fold. */
  lemma SynthSnoc(g: Graph<Node>, steps: seq<EvalStep>, step: EvalStep, prev: Synthesis, out: (Stmt, LValues))
    requires SynthSteps(g, steps) == Ok(prev)
    requires SynthStep(g, |steps|, step, prev.lvals) == Ok(out)
    ensures SynthSteps(g, steps + [step]) == Ok(Synthesis(prev.stmts + [out.0], out.1))
  {
    assert (steps + [step])[..|steps|] == steps;
  }

  /** Argument expressions for a slot list with a first slot. */
  lemma ArgExprsCons(args: seq<Option<ExprInput>>, lvals: LValues, e: Expr, rest: seq<Expr>)
    requires |args| > 0
    requires InputExpr(args[0], lvals) == Ok(e) && ArgExprs(args[1..], lvals) == Ok(rest)
    ensures ArgExprs(args, lvals) == Ok([e] + rest)
  {
  }

  /** `One` takes no arguments and binds `_node0_output0`. */
  lemma SynthOne(g: Graph<Node>)
    requires g.nodes == [One, Add, Debug]
    ensures SynthStep(g, 0, Steps[0], map[]) == Ok((Stmts[0], BindOutputs(map[], 0, 0, 1)))
  {
    assert ArgExprs([], map[]) == Ok([]);
  }

  /** `Add` moves `_node0_output0` into its first slot, clones it into the
      second and binds `_node1_output0`. */
  lemma SynthAdd(g: Graph<Node>, lvals: LValues)
    requires g.nodes == [One, Add, Debug]
    requires (0, 0) in lvals && lvals[(0, 0)] == VarName(0, 0)
    ensures SynthStep(g, 1, Steps[1], lvals) == Ok((Stmts[1], BindOutputs(lvals, 1, 1, 1)))
  {
    var args := Steps[1].args;
    assert args[1..] == [Some(ExprInput(0, 0, true))] && args[1..][1..] == [];
    assert ArgExprs(args[1..][1..], lvals) == Ok([]);
    ArgExprsCons(args[1..], lvals, CloneOf(VarName(0, 0)), []);
    assert [CloneOf(VarName(0, 0))] + [] == [CloneOf(VarName(0, 0))];
    ArgExprsCons(args, lvals, VarRef(VarName(0, 0)), [CloneOf(VarName(0, 0))]);
    assert [VarRef(VarName(0, 0))] + [CloneOf(VarName(0, 0))] == [VarRef(VarName(0, 0)), CloneOf(VarName(0, 0))];
  }

  /** `Debug` takes `_node1_output0` and binds nothing. */
  lemma SynthDebug(g: Graph<Node>, lvals: LValues)
    requires g.nodes == [One, Add, Debug]
    requires (1, 0) in lvals && lvals[(1, 0)] == VarName(1, 0)
    ensures SynthStep(g, 2, Steps[2], lvals) == Ok((Stmts[2], BindOutputs(lvals, 2, 2, 0)))
  {
    var args := Steps[2].args;
    assert args[1..] == [];
    assert ArgExprs(args[1..], lvals) == Ok([]);
    ArgExprsCons(args, lvals, VarRef(VarName(1, 0)), []);
    assert [VarRef(VarName(1, 0))] + [] == [VarRef(VarName(1, 0))];
  }

  /** The fold over the first two steps. */
  lemma SynthFirstTwo(g: Graph<Node>)
    requires g.nodes == [One, Add, Debug]
    ensures var l1 := BindOutputs(map[], 0, 0, 1);
      SynthSteps(g, Steps[..2]) == Ok(Synthesis(Stmts[..2], BindOutputs(l1, 1, 1, 1)))
  {
    var l1 := BindOutputs(map[], 0, 0, 1);
    assert SynthSteps(g, []) == Ok(Synthesis([], map[]));
    SynthOne(g);
    SynthSnoc(g, [], Steps[0], Synthesis([], map[]), (Stmts[0], l1));
    assert [] + [Steps[0]] == Steps[..1] && [] + [Stmts[0]] == Stmts[..1];
    SynthAdd(g, l1);
    SynthSnoc(g, Steps[..1], Steps[1], Synthesis(Stmts[..1], l1), (Stmts[1], BindOutputs(l1, 1, 1, 1)));
    assert Steps[..1] + [Steps[1]] == Steps[..2] && Stmts[..1] + [Stmts[1]] == Stmts[..2];
  }

  /** The fold over the example's steps: every argument finds its variable. */
  lemma ShapedSynthesis(g: Graph<Node>)
    requires g.nodes == [One, Add, Debug]
    ensures SynthSteps(g, Steps).Ok? && SynthSteps(g, Steps).value.stmts == Stmts
  {
    var l2 := BindOutputs(BindOutputs(map[], 0, 0, 1), 1, 1, 1);
    SynthFirstTwo(g);
    SynthDebug(g, l2);
    SynthSnoc(g, Steps[..2], Steps[2], Synthesis(Stmts[..2], l2), (Stmts[2], BindOutputs(l2, 2, 2, 0)));
    assert Steps[..2] + [Steps[2]] == Steps && Stmts[..2] + [Stmts[2]] == Stmts;
  }

  lemma ShapedPushNodes(g: Graph<Node>)
    requires g.nodes == [One, Add, Debug]
    ensures PushNodes(g) == [(0, Entry)]
  {
    assert PushNodesUpTo(g, 1) == [(0, Entry)];
    assert PushNodesUpTo(g, 2) == [(0, Entry)];
  }

  /** A graph with a single entry node generates a file of just that
      node's entry function. */
  lemma FileOfOne(g: Graph<Node>, n: nat, push: PushEval, item: ItemFn)
    requires Valid(g) && n < |g.nodes|
    requires PushNodes(g) == [(n, push)] && EntryFn(g, n, push) == Ok(item)
    ensures GenerateFile(g) == Ok(File([item]))
  {
    var r := GenerateFile(g);
    assert r.Ok? && |r.value.items| == 1 && r.value.items[0] == item;
    assert r.value.items == [item];
  }

  /** `One`'s entry function, named, attributed and declared by its push
      entry, with the statements of the example. */
  lemma ShapedEntryFn(g: Graph<Node>)
    requires ExampleShaped(g)
    ensures EntryFn(g, 0, Entry) == Ok(ItemFn([], Public, Signature("one_push_eval", FnDecl([], DefaultReturn)), Block(Stmts)))
  {
    ShapedSteps(g);
    ShapedSynthesis(g);
  }

  /** The generated file holds one public entry function, named, attributed
      and declared by `One`'s push entry, binding `One`'s value, passing it
      to `Add` moved in the first slot and cloned in the second, and
      handing the sum to `Debug`. */
  lemma ShapedFile(g: Graph<Node>)
    requires ExampleShaped(g)
    ensures GenerateFile(g) == Ok(File([ItemFn([], Public, Signature("one_push_eval", FnDecl([], DefaultReturn)), Block(Stmts))]))
  {
    ShapedPushNodes(g);
    ShapedEntryFn(g);
    FileOfOne(g, 0, Entry, ItemFn([], Public, Signature("one_push_eval", FnDecl([], DefaultReturn)), Block(Stmts)));
  }

  /** The worked example itself. */
  lemma ExampleWalk()
    ensures Valid(Example) && DfsOrder(Example, 0) == [0, 1, 2]
  {
    ExampleIsShaped();
    ShapedWalk(Example);
  }

  lemma ExampleSteps()
    ensures Valid(Example) && PushEvalSteps(Example, 0) == Ok(Steps)
  {
    ExampleIsShaped();
    ShapedSteps(Example);
  }

  lemma ExampleFile()
    ensures Valid(Example)
    ensures GenerateFile(Example) == Ok(File([ItemFn([], Public, Signature("one_push_eval", FnDecl([], DefaultReturn)), Block(Stmts))]))
  {
    ExampleIsShaped();
    ShapedFile(Example);
  }
}
