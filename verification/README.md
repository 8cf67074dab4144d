# gantz graph-to-code compilation, modelled in Dafny

gantz compiles a dataflow graph into Rust source. A graph's nodes have fixed
input and output arities. Its edges carry an `(output, input)` pair: the
source node's output index and the target node's input index. For every
node that declares a push-evaluation entry, the compiler does three things:

1. It walks the graph from that node.
2. It turns every visited node into an *evaluation step*: the node plus one
   argument slot per input.
3. It folds the steps into one public Rust function. Each step becomes one
   `let` statement, whose arguments name variables bound by earlier
   statements.

A nested graph (a `GraphNode`) is itself a node. Its evaluator is a
function whose parameters and return type come from its ordered inlets
and outlets.

This project models the pieces below as pure Dafny functions and proves
what they promise:

- `results.dfy`: the `Result`/`Option` wrappers. Every fatal condition of
  the source (a `panic!`, `expect` or failed `assert!`) becomes an `Err`
  with a `Fault`.
- `syntax.dfy`: a small abstract syntax for the generated code.
- `names.dfy`: the identifiers `_node{step}_output{out}` and `inlet{i}`,
  with decimal rendering.
- `graphs.dfy`: graphs as node and edge sequences. Incoming and outgoing
  edge lists are filters of one enumeration order. `Edge` construction and
  node/edge insertion are here too.
- `dfs.dfy`: the depth-first walk, a stack with a discovered set. Nodes are
  emitted in pre-order.
- `clone_flag.dfy`: the fan-out clone decision, including its quirks.
- `eval_steps.dfy`: `push_eval_steps`.
- `synth.dfy`: `push_eval_fn`, the fold that turns steps into statements.
- `codegen.dfy`: `push_nodes`, `push_eval_fns` and `file`.
- `graph_node_serde.dfy`: the `GraphNode` record and its hand-written
  `Serialize`/`Deserialize` visitors. Both revisions share them.
- `evaluator_sig.dfy`: the parameter and return-type shapes that both
  revisions build.
- `core_graph_node.dfy`: the newer revision (`gantz_core/src/graph/mod.rs`).
  - Inlets and outlets are node ids.
  - Their types are looked up as state types.
  - The evaluator signature carries a trailing `state` parameter, and the
    emitted item drops it.
- `legacy_graph_node.dfy`: the older revision (`src/graph/mod.rs`).
  - Inlets and outlets are records holding a node id and a type.
  - The boundary nodes forward their single argument.
- `revisions.dfy`: how the two revisions' evaluator declarations relate.
- `scenarios.dfy`: the project example, a constant fanned into both inputs
  of an adder whose sum goes to a printer. It is traced from the walk to
  the generated file.

Conventions of the model:

- **Edge order.** Edges are kept in the graph library's enumeration order,
  newest first. Incoming and outgoing lists preserve that order.
  "Last-enumerated" therefore means the oldest edge.
- **Walk order.** The walk is the code's: a stack-based pre-order walk.
  A node is discovered when it is popped. Its undiscovered successors are
  then pushed in neighbour order. The comments at src/graph.rs:97 and
  src/graph.rs:107 say "post order", but the code does not do that.
- **Generators.** A node kind's expression generator is an uninterpreted
  term `Generated(kind, args)`. Only the generator's arity assertion is
  kept.
- **Block generator.** `evaluator_fn_block` is a function parameter.

## Model

| member | source | states |
|---|---|---|
| Graphs.NewEdge | gantz_core/src/graph/mod.rs:91-97 | `Edge::new(o, i)` stores exactly the given output and input |
| Graphs.EdgeConstructorsAgree | src/graph/mod.rs:333-343 | `Edge::from((a, b))` builds the same edge as `Edge::new(a, b)`: output `a`, input `b` |
| Graphs.AddNode | gantz_core/src/graph/mod.rs:394-402 | adding a node returns the next free id, stores the node there and leaves earlier nodes and all edges unchanged |
| Dfs.DfsOrderSpec | src/graph.rs:108-120 | the walk from the start emits the start first, never emits a node twice, and emits exactly the nodes reachable from the start along outgoing edges |
| Dfs.WalkSound | src/graph.rs:108-120 | every node the walk emits is reachable from the start when every stacked node is |
| Dfs.WalkComplete | src/graph.rs:108-120 | when the walk ends, the discovered nodes are closed under successors and include every node that was stacked |
| CloneFlag.ComputeRequiresClone | src/graph.rs:138-154 | the counting loop yields `total > 1 && connection_ix < total - 1`: `connection_ix` is the position, among all outgoing edges, of the last one with an equal weight; `total` counts only the edges that share the output |
| CloneFlag.LastEqualIndex | src/graph.rs:141-147 | `connection_ix` is 0 or the position of an equal weight, and no later position holds an equal weight |
| CloneFlag.SingleConsumerNotCloned | src/graph.rs:152-153 | an output with at most one consumer is never cloned |
| CloneFlag.AllButLastCloned | src/graph.rs:138-154 | when all outgoing edges use one output and have distinct weights, an edge is cloned exactly when it is not the last-enumerated one |
| CloneFlag.ExactlyAllButOneCloned | src/graph.rs:138-154 | under the same conditions, exactly k-1 of the k edges are cloned |
| CloneFlag.EqualWeightsNeitherCloned | src/graph.rs:143-153 | two consumers reached through equal weights share one `connection_ix`, so neither is cloned although the output feeds two inputs |
| CloneFlag.OtherOutputShiftsIndex | src/graph.rs:143-153 | an edge from another output shifts `connection_ix` but not the count, so neither consumer of the shared output is cloned |
| EvalSteps.FillSlots | src/graph.rs:126-163 | filling succeeds exactly when every incoming edge targets an input below the arity, giving one slot per input; otherwise it fails with `SlotOutOfRange` at the first offending edge |
| EvalSteps.FillSlotsIsSlotArg | src/graph.rs:133-163 | each slot holds what the last-enumerated incoming edge into it supplies: later edges overwrite earlier ones |
| EvalSteps.SlotArgNone | src/graph.rs:126-127 | a slot stays `None` exactly when no incoming edge targets it |
| EvalSteps.SlotArgLast | src/graph.rs:133-162 | a filled slot comes from the last-enumerated edge into that input |
| EvalSteps.StepFor | src/graph.rs:121-166 | the step of a node succeeds exactly when all its incoming edges are in range, and then has that node and one slot per input |
| EvalSteps.StepsFor | src/graph.rs:120-168 | the steps of an order succeed exactly when every node's edges are in range, one step per node in order |
| EvalSteps.PushEvalSteps | src/graph.rs:101-169 | one step per walked node, in walk order, each with as many slots as its node has inputs; fails exactly when a walked node has an edge into a missing input |
| EvalSteps.PushEvalStepsSlots | src/graph.rs:126-162 | in a successful run, a slot is `None` exactly when no edge targets it; otherwise it holds the source node, the source output and the clone flag of the last-enumerated edge into it |
| EvalSteps.OutOfRangeEdgeFails | src/graph.rs:162 | an incoming edge into an input index at or past the arity is fatal; a node without inputs fails on any incoming edge |
| Synth.InputExpr | src/graph.rs:229-254 | an unconnected slot becomes `Default::default()`; a connected one becomes the variable bound for its source output, cloned when flagged; a missing binding is fatal with `NoLValue` |
| Synth.ArgExprs | src/graph.rs:262-264 | the arguments resolve slot by slot, one expression per slot; a failure is the failure of a slot whose variable is missing |
| Synth.OutputPattern | src/graph.rs:270-297 | no outputs bind `()`, one output binds `_node{si}_output0`, n outputs bind the tuple `_node{si}_output0..n-1` |
| Synth.BindOutputs | src/graph.rs:206-214 | every output of the step's node is (re)bound to `_node{si}_output{vi}`, and every other entry is untouched |
| Synth.SynthStep | src/graph.rs:256-303 | a step succeeds only for a node the graph has, and then leaves the variable map as the earlier map with this step's outputs bound |
| Synth.SynthSteps | src/graph.rs:256-304 | one statement per step; the variable map records, for each `(node, output)`, the name bound by the last step that binds it |
| Synth.SynthStepsOk | src/graph.rs:256-304 | synthesis succeeds exactly when every step names an existing node, every connected slot was bound by an earlier step, and every argument list has the length the generator requires |
| Synth.SynthStepsStmts | src/graph.rs:299-303 | statement `i` binds step `i`'s output pattern to its node's generator applied to the arguments resolved against steps `0..i` |
| Synth.MissingBindingFails | src/graph.rs:241-247 | a connected slot whose source output no earlier step bound makes synthesis fail with `NoLValue` for that output |
| Synth.BindingsDistinct | src/graph.rs:201-204 | names are keyed by step index and output index, so no two bindings of one function share a name |
| Names.VarNameInjective | src/graph.rs:202-204 | `_node{s}_output{o}` determines both `s` and `o` |
| Synth.PushEvalFn | src/graph.rs:306-324 | the entry function is public, takes its attributes, name and declaration from the push entry, and its body is exactly the synthesised statements, one per step; it fails exactly when synthesis fails |
| Codegen.PushNodesUpTo | src/graph.rs:77-79 | the entry nodes among the first `n` nodes, in increasing id order |
| Codegen.PushNodes | src/graph.rs:72-80 | exactly the nodes whose push entry is present, each paired with that entry, in node order |
| Codegen.PushEvalFns | src/graph.rs:329-340 | one function per `(node, entry, steps)` triple, in order, each the `push_eval_fn` of its triple: named, attributed and declared by the entry, public, with that triple's synthesised statements; fails exactly when some synthesis fails |
| Codegen.EntryFn | src/graph.rs:351-358 | the entry function of one entry node exists exactly when the walk from it and the synthesis of its steps both succeed; it is public, named, attributed and declared by the entry, with one statement per walked node |
| Codegen.EntryFns | src/graph.rs:351-359 | one entry function per entry node, in order, each the walk from its node followed by synthesis |
| Codegen.GenerateFile | src/graph.rs:344-361 | one public function per entry node, in node order, with that entry's name, attributes and declaration and one statement per walked node; fails exactly when some walk or synthesis fails |
| Codegen.EntryStatement | src/graph.rs:351-358 | statement `i` of an entry function binds the `i`-th walked node's output pattern to its generator applied to the resolved arguments |
| Results.Collect | src/graph.rs:336-339 | collecting succeeds exactly when every element does, keeps order, and otherwise returns the first failure |
| GraphNodeSerde.Serialize | gantz_core/src/graph/mod.rs:331-341 | writes three entries, one per field: `graph`, `inlets` and `outlets` each occur exactly once |
| GraphNodeSerde.VisitEntry | gantz_core/src/graph/mod.rs:286-305 | a key whose slot is already filled gives an immediate `duplicate_field` with that key's name; otherwise exactly that slot gets filled |
| GraphNodeSerde.VisitEntries | gantz_core/src/graph/mod.rs:282-306 | the key loop succeeds exactly when no key repeats; a slot is filled exactly when its key occurred, with that entry's value |
| GraphNodeSerde.VisitMap | gantz_core/src/graph/mod.rs:278-315 | the map form decodes exactly when each of `graph`, `inlets` and `outlets` occurs once; otherwise a repeat gives `duplicate_field`, and missing keys give `missing_field` in the order graph, inlets, outlets |
| GraphNodeSerde.DuplicateRejected | src/graph/mod.rs:189-209 | the first repeated key makes the map decode fail with `duplicate_field` for that key |
| GraphNodeSerde.VisitSeq | gantz_core/src/graph/mod.rs:258-276 | the sequence form takes the three values in order and fails with `invalid_length(i)` at the first missing position |
| GraphNodeSerde.SeqRoundTrip | src/graph/mod.rs:162-180 | decoding the serialised fields as a sequence rebuilds the identical node |
| GraphNodeSerde.MapRoundTrip | src/graph/mod.rs:182-219 | decoding the serialised fields as a map rebuilds the identical node |
| GraphNodeSerde.MapAnyOrder | gantz_core/src/graph/mod.rs:285-314 | the map form decodes any reordering of the serialised fields to the identical node, with inlet and outlet order preserved |
| GraphNodeSerde.CountKeyPermutation | gantz_core/src/graph/mod.rs:285-306 | how often a key occurs does not depend on the order of the entries |
| EvaluatorSig.InletParamNames | gantz_core/src/graph/mod.rs:538-547 | parameter `i` is named `inlet{i}`, the names are pairwise distinct, and none is `state` |
| Names.InletNameInjective | src/graph/mod.rs:383 | `inlet{i}` determines `i` |
| EvaluatorSig.ReturnShape | src/graph/mod.rs:407-424 | unit for no outlet, the single outlet's type, otherwise the tuple of the outlet types in order |
| EvaluatorSig.ReturnShapeRoundTrip | gantz_core/src/graph/mod.rs:551-574 | the outlet types can be read back off the return type, unless the only outlet is itself a tuple |
| EvaluatorSig.SingleTupleOutletIndistinguishable | gantz_core/src/graph/mod.rs:555-572 | one outlet of type `(A, B)` and two outlets of types `A` and `B` give the same return type |
| CoreGraphNode.ExpectNodeStateType | gantz_core/src/graph/mod.rs:517-525 | a missing node is fatal (`NoNodeForId`), and so is a node without a state type (`NoStateType`); otherwise the result is the node's state type |
| CoreGraphNode.StateTypes | gantz_core/src/graph/mod.rs:564-567 | the state types of the ids in order, or the first lookup failure |
| CoreGraphNode.FnInputs | gantz_core/src/graph/mod.rs:534-549 | one parameter per inlet, named `inlet{i}` in inlet order and typed by the inlet node's state type; fails when a lookup fails |
| CoreGraphNode.FnOutput | gantz_core/src/graph/mod.rs:551-574 | unit for no outlet, the single outlet node's state type, otherwise the tuple of the outlet nodes' state types in order; fails when a lookup fails |
| CoreGraphNode.EvaluatorSignature | gantz_core/src/graph/mod.rs:476-515 | named `graph_node_evaluator_fn`, with the inlet parameters followed by one trailing `state` parameter of the graph's state type; inlet lookups fail first |
| CoreGraphNode.Evaluator | gantz_core/src/graph/mod.rs:179-201 | the block is generated against the full `inlets + 1` parameter signature; the item has that signature with `state` popped (exactly one parameter per inlet), no attributes and inherited visibility |
| CoreGraphNode.GraphNodeStateType | gantz_core/src/graph/mod.rs:203-205 | a graph node's state type is always present and is the inner graph's state type |
| CoreGraphNode.NestedStateTypeFound | gantz_core/src/graph/mod.rs:517-525 | looking up the state type of a graph node nested in an outer graph always succeeds, with the nested graph's state type |
| CoreGraphNode.InletEvaluator | gantz_core/src/graph/mod.rs:344-362 | `Inlet` has 0 inputs and 1 output, accepts only an empty argument list, and yields `state.clone()` |
| CoreGraphNode.OutletEvaluator | gantz_core/src/graph/mod.rs:369-387 | `Outlet` has 1 input and 0 outputs, accepts exactly one argument, and writes it into the state |
| CoreGraphNode.AddInlet | gantz_core/src/graph/mod.rs:131-135 | `add_inlet` adds the node, returns its id, appends the id to `inlets` and leaves `outlets` unchanged |
| CoreGraphNode.AddOutlet | gantz_core/src/graph/mod.rs:141-145 | `add_outlet` adds the node, returns its id, appends the id to `outlets` and leaves `inlets` unchanged |
| CoreGraphNode.AddInletExtendsInputs | gantz_core/src/graph/mod.rs:131-135 | adding an inlet node with a state type appends one `inlet{k}` parameter of that type and keeps the earlier parameters |
| CoreGraphNode.AddOutletKeepsInputs | gantz_core/src/graph/mod.rs:141-145 | adding an outlet leaves the evaluator's parameters unchanged, as long as every inlet id names an existing node |
| LegacyGraphNode.FnInputs | src/graph/mod.rs:378-405 | one parameter per inlet, named `inlet{i}` in order, with the inlet's declared type; names are pairwise distinct |
| LegacyGraphNode.FnOutput | src/graph/mod.rs:407-424 | unit, the single outlet's type, or the tuple of the outlet types in order, for 0, 1 and more outlets |
| LegacyGraphNode.EvaluatorFnDecl | src/graph/mod.rs:345-376 | one parameter per inlet, named `inlet{i}` and typed by the inlet's declared type in order, no `state` parameter, and the outlet return shape |
| LegacyGraphNode.Evaluator | src/graph/mod.rs:100-124 | always a function item named `graph_node_evaluator_fn`, with no attributes and inherited visibility, whose block is generated from that declaration |
| LegacyGraphNode.InletNodeEvaluator | src/graph/mod.rs:248-272 | `InletNode` has 1 input and 1 output, accepts exactly one argument, and returns it unchanged |
| LegacyGraphNode.OutletNodeEvaluator | src/graph/mod.rs:274-298 | `OutletNode` has 1 input and 1 output, accepts exactly one argument, and returns it unchanged |
| Revisions.PoppedSignatureMatchesLegacy | gantz_core/src/graph/mod.rs:183-199 | once `state` is popped, the newer evaluator's declaration is exactly the older revision's declaration for inlets and outlets of the same types |
| Scenarios.ExampleIsBuilt | examples/project.rs:107-133 | the example graph is three nodes plus edges added in the order of the project example |
| Scenarios.ExampleWalk | src/graph.rs:108-120 | the walk from the constant visits constant, adder, printer; the adder is stacked twice and its second copy is skipped |
| Scenarios.ExampleCloneFlags | src/graph.rs:138-154 | of the constant's two edges into the adder, the first-enumerated one (into input 1) is cloned and the last (into input 0) is moved |
| Scenarios.ExampleSteps | src/graph.rs:101-169 | the example's steps: the adder takes the constant's output moved into slot 0 and cloned into slot 1; the printer takes the adder's output |
| Scenarios.ExampleFile | src/graph.rs:344-361 | the example generates one public entry function `one_push_eval`, without attributes, taking no parameters, with three `let` statements, each naming the variables the earlier ones bound |

## Left out

- The graph library's internals are outside the model. Edges are assumed
  to be enumerated newest first, in both directions.
- `Dfs` is modelled by its documented behaviour, not its code.
- Edge and node ids are unbounded naturals. Only indices into the node
  list are modelled; removal of nodes (`StableGraph`) is not.
- Pull evaluation (`pull_nodes`, src/graph.rs:85-93, and the commented-out
  code after src/graph.rs:364) is not modelled. It has no behaviour beyond
  a filter like `push_nodes`.
- The `Node for StableGraph` stubs (src/graph.rs:21-36) are not modelled;
  they are `unimplemented!`.
- `ty_from_fn_arg` (src/graph.rs:171-178) is syntax-tree plumbing that the
  modelled code never calls.
- `full_eval_fn` and `full_eval_fn_ident` (gantz_core/src/graph/mod.rs:459-474)
  are not modelled. They build a fixed empty item named `full_eval` and
  take no input.
- The `syn` and `proc_macro2` syntax trees are not modelled: spans,
  punctuation, tokens, `parse_quote!` and generics. An abstract syntax
  stands in for them.
- Panic messages are not modelled. Only the `Fault` kind and its indices
  are kept.
- Concrete node kinds' expression generators are uninterpreted. How a node
  whose evaluator is a function item is called from a synthesised
  statement is decided in the node module, which is not part of this
  model. Synthesis sees every node through its generator.
- The implementers of `evaluator_fn_block` are not shown in the source.
  The block is a function parameter of the evaluators.
- The serde and typetag machinery is not modelled: the wire format, tag
  registration and the `expecting` message. Values arrive already
  decoded.
  - Unknown keys cannot occur in the model, and a value that fails to decode is reduced to an element of the wrong kind.
  - The sequence form ignores elements after the third.
- `Inlet::new`/`Inlet::parse` and `Outlet::new`/`Outlet::parse`
  (gantz_core/src/graph/mod.rs:99-121) are not modelled. They are
  constructors, and the parse step is `syn`.
- `Default`, `Deref`/`DerefMut`, the forwarding impls for references and
  the `AddNode` impls are not modelled. They forward to the graph library,
  whose `add_node` is `Graphs.AddNode`.
- EvalSteps.PushEvalSteps: requires the start node to exist. In the source
  a missing start node panics inside the graph library, and every caller
  passes an id taken from `push_nodes`.
- CoreGraphNode.AddOutletKeepsInputs: requires every inlet id to name an
  existing node. If an inlet id dangles, it names the node that
  `add_outlet` creates, and the lookup result changes.
- A node without inputs is documented as receiving an empty argument list
  regardless of incoming edges. The code indexes `args[input]` and panics
  instead. The model follows the code (`EvalSteps.OutOfRangeEdgeFails`).
- The clone-flag quirks are kept as written
  (`CloneFlag.EqualWeightsNeitherCloned`, `CloneFlag.OtherOutputShiftsIndex`):
  - the position is taken among all outgoing edges;
  - the count covers only the edges of one output;
  - equal weights share a position.
