/** The evaluation-step engine (`push_eval_steps`): walk the graph from an
    entry node and, for every node in walk order, resolve which producer
    output feeds each of its input slots. */
module EvalSteps {
  import opened Results
  import opened Graphs
  import opened Nodes
  import opened CloneFlag
  import opened Dfs

  /** An argument of a node's expression: the producing node, its output
      and whether the value must be cloned. */
  datatype ExprInput = ExprInput(node: nat, output: nat, requiresClone: bool)

  /** One node to evaluate with one argument slot per input; `None` marks an
      unconnected input. */
  datatype EvalStep = EvalStep(node: nat, args: seq<Option<ExprInput>>)

  /** The argument an incoming edge supplies. */
  function EdgeArg<N>(g: Graph<N>, e: EdgeRef): ExprInput {
    ExprInput(e.source, e.weight.output, RequiresClone(Weights(Outgoing(g.edges, e.source)), e.weight))
  }

  function Unconnected(n: nat): (r: seq<Option<ExprInput>>)
    ensures |r| == n && forall j :: 0 <= j < n ==> r[j] == None
  {
    seq(n, j => None)
  }

  predicate InputsInRange(ins: seq<EdgeRef>, nInputs: nat) {
    forall k :: 0 <= k < |ins| ==> ins[k].weight.input < nInputs
  }

  /** Fill the argument slots of `node` from its incoming edges in
      enumeration order; each edge overwrites its slot, and an edge into a
      slot past the arity is an out-of-bounds failure. */
  function FillSlots<N>(g: Graph<N>, node: nat, nInputs: nat, ins: seq<EdgeRef>): (r: Result<seq<Option<ExprInput>>, Fault>)
    ensures r.Ok? <==> InputsInRange(ins, nInputs)
    ensures r.Ok? ==> |r.value| == nInputs
    ensures r.Err? ==> exists k :: 0 <= k < |ins| && InputsInRange(ins[..k], nInputs) && ins[k].weight.input >= nInputs
                                  && r.error == SlotOutOfRange(node, ins[k].weight.input)
  {
    if |ins| == 0 then Ok(Unconnected(nInputs))
    else
      var prefix := ins[..|ins| - 1];
      var e := ins[|ins| - 1];
      assert forall k :: 0 <= k < |prefix| ==> prefix[k] == ins[k];
      match FillSlots(g, node, nInputs, prefix)
      case Err(f) =>
        assert exists k :: 0 <= k < |prefix| && InputsInRange(prefix[..k], nInputs) && prefix[k].weight.input >= nInputs
                           && f == SlotOutOfRange(node, prefix[k].weight.input) && ins[..k] == prefix[..k];
        Err(f)
      case Ok(args) =>
        if e.weight.input < nInputs then Ok(args[e.weight.input := Some(EdgeArg(g, e))])
        else
          assert InputsInRange(ins[..|ins| - 1], nInputs);
          Err(SlotOutOfRange(node, e.weight.input))
  }

  /** Reference reading of slot `j`: search the incoming edges from the
      last-enumerated one backwards for an edge into `j`. */
  function SlotArg<N>(g: Graph<N>, ins: seq<EdgeRef>, j: nat): Option<ExprInput> {
    if |ins| == 0 then None
    else if ins[|ins| - 1].weight.input == j then Some(EdgeArg(g, ins[|ins| - 1]))
    else SlotArg(g, ins[..|ins| - 1], j)
  }

  /** The fold over incoming edges agrees with the backwards search: later
      edges overwrite earlier ones. */
  lemma {:induction false} FillSlotsIsSlotArg<N>(g: Graph<N>, node: nat, nInputs: nat, ins: seq<EdgeRef>)
    requires InputsInRange(ins, nInputs)
    ensures forall j :: 0 <= j < nInputs ==> FillSlots(g, node, nInputs, ins).value[j] == SlotArg(g, ins, j)
  {
    if |ins| > 0 {
      var prefix := ins[..|ins| - 1];
      assert forall k :: 0 <= k < |prefix| ==> prefix[k] == ins[k];
      FillSlotsIsSlotArg(g, node, nInputs, prefix);
    }
  }

  /** Edge `k` is the last-enumerated incoming edge into slot `j`. */
  predicate LastInto(ins: seq<EdgeRef>, j: nat, k: nat) {
    k < |ins| && ins[k].weight.input == j && forall k' :: k < k' < |ins| ==> ins[k'].weight.input != j
  }

  /** A slot is unconnected exactly when no incoming edge targets it. */
  lemma {:induction false} SlotArgNone<N>(g: Graph<N>, ins: seq<EdgeRef>, j: nat)
    ensures SlotArg(g, ins, j).None? <==> forall k :: 0 <= k < |ins| ==> ins[k].weight.input != j
  {
    if |ins| > 0 {
      var prefix := ins[..|ins| - 1];
      assert forall k :: 0 <= k < |prefix| ==> prefix[k] == ins[k];
      SlotArgNone(g, prefix, j);
    }
  }

  /** A connected slot is supplied by the last-enumerated edge into it. */
  lemma {:induction false} SlotArgLast<N>(g: Graph<N>, ins: seq<EdgeRef>, j: nat)
    requires SlotArg(g, ins, j).Some?
    ensures exists k: nat :: LastInto(ins, j, k) && SlotArg(g, ins, j).value == EdgeArg(g, ins[k])
  {
    var last := |ins| - 1;
    if ins[last].weight.input == j {
      assert LastInto(ins, j, last);
    } else {
      var prefix := ins[..last];
      SlotArgLast(g, prefix, j);
      var k: nat :| LastInto(prefix, j, k) && SlotArg(g, prefix, j).value == EdgeArg(g, prefix[k]);
      LastIntoExtend(ins, j, k);
    }
  }

  /** An edge into another slot does not change which edge was last into `j`. */
  lemma LastIntoExtend(ins: seq<EdgeRef>, j: nat, k: nat)
    requires |ins| > 0 && ins[|ins| - 1].weight.input != j
    requires LastInto(ins[..|ins| - 1], j, k)
    ensures LastInto(ins, j, k) && ins[k] == ins[..|ins| - 1][k]
  {
  }

  /** Every node reached by the walk receives its input slots without an
      out-of-range edge. */
  predicate AllInputsInRange(g: Graph<Node>, order: seq<nat>)
    requires InGraph(g, order)
  {
    forall i :: 0 <= i < |order| ==> InputsInRange(Incoming(g.edges, order[i]), g.nodes[order[i]].nInputs)
  }

  /** The step of one visited node. */
  function StepFor(g: Graph<Node>, n: nat): (r: Result<EvalStep, Fault>)
    requires n < |g.nodes|
    ensures r.Ok? <==> InputsInRange(Incoming(g.edges, n), g.nodes[n].nInputs)
    ensures r.Ok? ==> r.value.node == n && |r.value.args| == g.nodes[n].nInputs
  {
    var args :- FillSlots(g, n, g.nodes[n].nInputs, Incoming(g.edges, n));
    Ok(EvalStep(n, args))
  }

  /** Steps for the nodes of `order`, failing at the first node that fails. */
  function StepsFor(g: Graph<Node>, order: seq<nat>): (r: Result<seq<EvalStep>, Fault>)
    requires InGraph(g, order)
    ensures r.Ok? <==> AllInputsInRange(g, order)
    ensures r.Ok? ==> |r.value| == |order| && forall i :: 0 <= i < |order| ==> r.value[i] == StepFor(g, order[i]).value
  {
    if |order| == 0 then Ok([])
    else
      assert forall i :: 0 <= i < |order| - 1 ==> order[1..][i] == order[i + 1];
      var step :- StepFor(g, order[0]);
      var rest :- StepsFor(g, order[1..]);
      Ok([step] + rest)
  }

  /** `push_eval_steps(g, start)`: one step per node of the depth-first walk
      from `start`, in walk order, each with as many slots as its node has
      inputs. Fails exactly when a walked node has an incoming edge into an
      input index past its arity. */
  function PushEvalSteps(g: Graph<Node>, start: nat): (r: Result<seq<EvalStep>, Fault>)
    requires Valid(g) && start < |g.nodes|
    ensures r.Ok? <==> AllInputsInRange(g, DfsOrder(g, start))
    ensures r.Ok? ==> |r.value| == |DfsOrder(g, start)|
    ensures r.Ok? ==> forall i :: 0 <= i < |r.value| ==>
      r.value[i].node == DfsOrder(g, start)[i] && |r.value[i].args| == g.nodes[r.value[i].node].nInputs
  {
    StepsFor(g, DfsOrder(g, start))
  }

  /** The slot contents of a successful run: an unconnected slot stays
      `None`; a connected one records the source node, the source output and
      the clone flag of the last-enumerated incoming edge into it. */
  lemma PushEvalStepsSlots(g: Graph<Node>, start: nat, i: nat, j: nat)
    requires Valid(g) && start < |g.nodes|
    requires PushEvalSteps(g, start).Ok?
    requires i < |PushEvalSteps(g, start).value|
    requires j < |PushEvalSteps(g, start).value[i].args|
    ensures var step := PushEvalSteps(g, start).value[i];
            var ins := Incoming(g.edges, step.node);
            && (step.args[j].None? <==> forall k :: 0 <= k < |ins| ==> ins[k].weight.input != j)
            && (step.args[j].Some? ==>
                  exists k: nat :: (LastInto(ins, j, k)
                    && step.args[j].value.node == ins[k].source
                    && step.args[j].value.output == ins[k].weight.output
                    && step.args[j].value.requiresClone == RequiresClone(Weights(Outgoing(g.edges, ins[k].source)), ins[k].weight)))
  {
    var n := DfsOrder(g, start)[i];
    assert PushEvalSteps(g, start).value[i] == StepFor(g, n).value;
    StepSlot(g, n, j);
  }

  /** The slot contents of one successful step. */
  lemma StepSlot(g: Graph<Node>, n: nat, j: nat)
    requires n < |g.nodes| && StepFor(g, n).Ok? && j < g.nodes[n].nInputs
    ensures var step := StepFor(g, n).value;
            var ins := Incoming(g.edges, n);
            && step.node == n
            && (step.args[j].None? <==> forall k :: 0 <= k < |ins| ==> ins[k].weight.input != j)
            && (step.args[j].Some? ==>
                  exists k: nat :: (LastInto(ins, j, k)
                    && step.args[j].value.node == ins[k].source
                    && step.args[j].value.output == ins[k].weight.output
                    && step.args[j].value.requiresClone == RequiresClone(Weights(Outgoing(g.edges, ins[k].source)), ins[k].weight)))
  {
    var ins := Incoming(g.edges, n);
    var filled := FillSlots(g, n, g.nodes[n].nInputs, ins);
    assert filled.Ok? && StepFor(g, n).value == EvalStep(n, filled.value);
    FillSlotsIsSlotArg(g, n, g.nodes[n].nInputs, ins);
    var arg := filled.value[j];
    assert arg == SlotArg(g, ins, j);
    SlotArgNone(g, ins, j);
    if arg.Some? {
      SlotArgLast(g, ins, j);
      var k: nat :| LastInto(ins, j, k) && SlotArg(g, ins, j).value == EdgeArg(g, ins[k]);
      assert arg.value == EdgeArg(g, ins[k]);
    }
  }

  /** The engine fails on a walked node that has an incoming edge into an
      input it does not have; in particular a node without inputs fails on
      any incoming edge rather than receiving an empty argument list. */
  lemma OutOfRangeEdgeFails(g: Graph<Node>, start: nat, i: nat, k: nat)
    requires Valid(g) && start < |g.nodes|
    requires i < |DfsOrder(g, start)|
    requires k < |Incoming(g.edges, DfsOrder(g, start)[i])|
    requires Incoming(g.edges, DfsOrder(g, start)[i])[k].weight.input >= g.nodes[DfsOrder(g, start)[i]].nInputs
    ensures PushEvalSteps(g, start).Err?
    ensures PushEvalSteps(g, start).error.SlotOutOfRange?
  {
    var order := DfsOrder(g, start);
    assert !InputsInRange(Incoming(g.edges, order[i]), g.nodes[order[i]].nInputs);
    assert !AllInputsInRange(g, order);
    StepsForFault(g, order);
  }

  lemma {:induction false} StepsForFault(g: Graph<Node>, order: seq<nat>)
    requires InGraph(g, order)
    requires StepsFor(g, order).Err?
    ensures StepsFor(g, order).error.SlotOutOfRange?
  {
    if StepFor(g, order[0]).Ok? {
      StepsForFault(g, order[1..]);
    }
  }
}
