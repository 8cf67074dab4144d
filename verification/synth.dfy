/** The statement synthesiser (`push_eval_fn`): a left-to-right fold over
    the evaluation steps that turns every step into one `let` statement and
    remembers, for each `(node, output)`, the variable last bound to it. */
module Synth {
  import opened Results
  import opened Syntax
  import opened Names
  import opened Graphs
  import opened Nodes
  import opened EvalSteps

  /** Variables bound so far, keyed by `(node, output)`. */
  type LValues = map<(nat, nat), string>

  /** `input_expr`: an unconnected slot becomes `Default::default()`; a
      connected one refers to the variable bound for its source output,
      cloned when the step says so. */
  function InputExpr(arg: Option<ExprInput>, lvals: LValues): (r: Result<Expr, Fault>)
    ensures arg.None? ==> r == Ok(DefaultValue)
    ensures arg.Some? ==> (r.Ok? <==> (arg.value.node, arg.value.output) in lvals)
    ensures arg.Some? && r.Err? ==> r.error == NoLValue(arg.value.node, arg.value.output)
    ensures arg.Some? && r.Ok? ==>
      var name := lvals[(arg.value.node, arg.value.output)];
      r.value == (if arg.value.requiresClone then CloneOf(name) else VarRef(name))
  {
    match arg
    case None => Ok(DefaultValue)
    case Some(a) =>
      if (a.node, a.output) in lvals then
        var name := lvals[(a.node, a.output)];
        Ok(if a.requiresClone then CloneOf(name) else VarRef(name))
      else Err(NoLValue(a.node, a.output))
  }

  /** The argument expressions of a step, failing at the first slot whose
      variable is missing. */
  function ArgExprs(args: seq<Option<ExprInput>>, lvals: LValues): (r: Result<seq<Expr>, Fault>)
    ensures r.Ok? <==> forall j :: 0 <= j < |args| ==> InputExpr(args[j], lvals).Ok?
    ensures r.Ok? ==> |r.value| == |args| && forall j :: 0 <= j < |args| ==> r.value[j] == InputExpr(args[j], lvals).value
    ensures r.Err? ==> exists j :: 0 <= j < |args| && InputExpr(args[j], lvals).Err? && r.error == InputExpr(args[j], lvals).error
  {
    if |args| == 0 then Ok([])
    else
      var first :- InputExpr(args[0], lvals);
      assert forall j :: 0 <= j < |args| - 1 ==> args[1..][j] == args[j + 1];
      var rest :- ArgExprs(args[1..], lvals);
      Ok([first] + rest)
  }

  /** The pattern a step binds: `()` for no outputs, one variable for one
      output, a tuple of variables otherwise. */
  function OutputPattern(si: nat, nOutputs: nat): (p: Pattern)
    ensures nOutputs == 0 ==> p == UnitPat
    ensures nOutputs == 1 ==> p == IdentPat(VarName(si, 0))
    ensures nOutputs > 1 ==> p.TuplePat? && |p.names| == nOutputs
    ensures p.TuplePat? ==> forall vi :: 0 <= vi < |p.names| ==> p.names[vi] == VarName(si, vi)
  {
    if nOutputs == 0 then UnitPat
    else if nOutputs == 1 then IdentPat(VarName(si, 0))
    else TuplePat(seq(nOutputs, vi requires 0 <= vi => VarName(si, vi)))
  }

  /** The variables a pattern binds, in order. */
  function BoundNames(p: Pattern): seq<string> {
    match p
    case UnitPat => []
    case IdentPat(name) => [name]
    case TuplePat(names) => names
  }

  /** `insert_lvalue` for every output of step `si`: each `(node, vi)` is
      (re)bound to `_node{si}_output{vi}`; other entries are untouched. */
  function BindOutputs(lvals: LValues, node: nat, si: nat, nOutputs: nat): (r: LValues)
    ensures forall n: nat, o: nat :: (n, o) in r <==> (n, o) in lvals || (n == node && o < nOutputs)
    ensures forall n: nat, o: nat :: (n, o) in r ==>
      r[(n, o)] == if n == node && o < nOutputs then VarName(si, o) else lvals[(n, o)]
  {
    if nOutputs == 0 then lvals
    else BindOutputs(lvals, node, si, nOutputs - 1)[(node, nOutputs - 1) := VarName(si, nOutputs - 1)]
  }

  /** Reference reading of the variable map: the last step before the end
      of `steps` that binds output `o` of node `n`. */
  function Binder(g: Graph<Node>, steps: seq<EvalStep>, n: nat, o: nat): Option<nat> {
    if |steps| == 0 then None
    else
      var k := |steps| - 1;
      if steps[k].node == n && n < |g.nodes| && o < g.nodes[n].nOutputs then Some(k)
      else Binder(g, steps[..k], n, o)
  }

  lemma {:induction false} BinderBound(g: Graph<Node>, steps: seq<EvalStep>, n: nat, o: nat)
    ensures Binder(g, steps, n, o).Some? ==> Binder(g, steps, n, o).value < |steps|
  {
    if |steps| > 0 {
      BinderBound(g, steps[..|steps| - 1], n, o);
    }
  }

  datatype Synthesis = Synthesis(stmts: seq<Stmt>, lvals: LValues)

  /** One step: look up the node, resolve the arguments against the
      variables bound by earlier steps, generate the expression, then bind
      the outputs. */
  function SynthStep(g: Graph<Node>, si: nat, step: EvalStep, lvals: LValues): (r: Result<(Stmt, LValues), Fault>)
    ensures r.Ok? ==> step.node < |g.nodes|
    ensures r.Ok? ==> r.value.1 == BindOutputs(lvals, step.node, si, g.nodes[step.node].nOutputs)
  {
    if step.node >= |g.nodes| then Err(NoNodeForIndex(step.node))
    else
      var args :- ArgExprs(step.args, lvals);
      var node := g.nodes[step.node];
      var expr :- Generate(node.gen, node.nInputs, args);
      Ok((Let(OutputPattern(si, node.nOutputs), expr), BindOutputs(lvals, step.node, si, node.nOutputs)))
  }

  /** The fold over all steps. On success there is one statement per step
      and the variable map records, for every `(n, o)`, the name bound by
      the last step that binds it. */
  function SynthSteps(g: Graph<Node>, steps: seq<EvalStep>): (r: Result<Synthesis, Fault>)
    ensures r.Ok? ==> |r.value.stmts| == |steps|
    ensures r.Ok? ==> forall n: nat, o: nat :: (n, o) in r.value.lvals <==> Binder(g, steps, n, o).Some?
    ensures r.Ok? ==> forall n: nat, o: nat :: (n, o) in r.value.lvals ==>
      r.value.lvals[(n, o)] == VarName(Binder(g, steps, n, o).value, o)
  {
    if |steps| == 0 then Ok(Synthesis([], map[]))
    else
      var k := |steps| - 1;
      var prev :- SynthSteps(g, steps[..k]);
      var out :- SynthStep(g, k, steps[k], prev.lvals);
      assert steps[..k] == steps[..|steps| - 1];
      Ok(Synthesis(prev.stmts + [out.0], out.1))
  }

  /** The expression a slot resolves to against the steps before it, or
      `None` when it names an output that no earlier step bound. */
  function Resolve(g: Graph<Node>, prior: seq<EvalStep>, arg: Option<ExprInput>): Option<Expr> {
    match arg
    case None => Some(DefaultValue)
    case Some(a) =>
      match Binder(g, prior, a.node, a.output)
      case None => None
      case Some(k) =>
        var name := VarName(k, a.output);
        Some(if a.requiresClone then CloneOf(name) else VarRef(name))
  }

  /** Step `i` can be synthesised after the steps before it. */
  predicate StepOk(g: Graph<Node>, steps: seq<EvalStep>, i: nat)
    requires i < |steps|
  {
    && steps[i].node < |g.nodes|
    && (forall j :: 0 <= j < |steps[i].args| ==> Resolve(g, steps[..i], steps[i].args[j]).Some?)
    && |steps[i].args| == ExpectedArgs(g.nodes[steps[i].node].gen, g.nodes[steps[i].node].nInputs)
  }

  function ResolvedArgs(g: Graph<Node>, steps: seq<EvalStep>, i: nat): (r: seq<Expr>)
    requires i < |steps| && StepOk(g, steps, i)
    ensures |r| == |steps[i].args|
  {
    seq(|steps[i].args|, j requires 0 <= j < |steps[i].args| => Resolve(g, steps[..i], steps[i].args[j]).value)
  }

  /** Given the variable map of the earlier steps, `InputExpr` and
      `Resolve` agree. */
  lemma InputExprResolves(g: Graph<Node>, prior: seq<EvalStep>, lvals: LValues, arg: Option<ExprInput>)
    requires forall n: nat, o: nat :: (n, o) in lvals <==> Binder(g, prior, n, o).Some?
    requires forall n: nat, o: nat :: (n, o) in lvals ==> lvals[(n, o)] == VarName(Binder(g, prior, n, o).value, o)
    ensures InputExpr(arg, lvals).Ok? <==> Resolve(g, prior, arg).Some?
    ensures InputExpr(arg, lvals).Ok? ==> InputExpr(arg, lvals).value == Resolve(g, prior, arg).value
  {
  }

  lemma StepOkPrefix(g: Graph<Node>, steps: seq<EvalStep>, m: nat, i: nat)
    requires i < m <= |steps|
    ensures steps[..m][..i] == steps[..i] && steps[..m][i] == steps[i]
    ensures StepOk(g, steps[..m], i) <==> StepOk(g, steps, i)
  {
    assert steps[..m][..i] == steps[..i];
  }

  /** The last step of a successful prefix: it succeeds exactly when it is
      `StepOk`, and then binds its pattern to the generated expression. */
  lemma StepAgrees(g: Graph<Node>, steps: seq<EvalStep>, k: nat)
    requires k < |steps| && SynthSteps(g, steps[..k]).Ok?
    ensures SynthStep(g, k, steps[k], SynthSteps(g, steps[..k]).value.lvals).Ok? <==> StepOk(g, steps, k)
    ensures StepOk(g, steps, k) ==>
      var node := g.nodes[steps[k].node];
      SynthStep(g, k, steps[k], SynthSteps(g, steps[..k]).value.lvals).value.0
        == Let(OutputPattern(k, node.nOutputs), Generate(node.gen, node.nInputs, ResolvedArgs(g, steps, k)).value)
  {
    var prior := steps[..k];
    var prev := SynthSteps(g, prior).value;
    var step := steps[k];
    forall j | 0 <= j < |step.args|
      ensures InputExpr(step.args[j], prev.lvals).Ok? <==> Resolve(g, prior, step.args[j]).Some?
      ensures InputExpr(step.args[j], prev.lvals).Ok? ==> InputExpr(step.args[j], prev.lvals).value == Resolve(g, prior, step.args[j]).value
    {
      InputExprResolves(g, prior, prev.lvals, step.args[j]);
    }
    if step.node < |g.nodes| {
      var args := ArgExprs(step.args, prev.lvals);
      if args.Ok? && StepOk(g, steps, k) {
        assert args.value == ResolvedArgs(g, steps, k);
      }
    }
  }

  /** Synthesis succeeds exactly when every step names an existing node,
      every connected slot refers to an output bound by an earlier step, and
      every argument list has the length the node's generator insists on. */
  lemma {:induction false} SynthStepsOk(g: Graph<Node>, steps: seq<EvalStep>)
    ensures SynthSteps(g, steps).Ok? <==> forall i :: 0 <= i < |steps| ==> StepOk(g, steps, i)
  {
    if |steps| > 0 {
      var k := |steps| - 1;
      SynthStepsOk(g, steps[..k]);
      forall i | 0 <= i < k ensures StepOk(g, steps[..k], i) <==> StepOk(g, steps, i) {
        StepOkPrefix(g, steps, k, i);
      }
      if SynthSteps(g, steps[..k]).Ok? {
        StepAgrees(g, steps, k);
      }
    }
  }

  /** Each statement of a successful synthesis binds the step's output
      pattern to the node's generator applied to the resolved arguments. */
  lemma {:induction false} SynthStepsStmts(g: Graph<Node>, steps: seq<EvalStep>, i: nat)
    requires SynthSteps(g, steps).Ok? && i < |steps|
    ensures StepOk(g, steps, i)
    ensures var node := g.nodes[steps[i].node];
      SynthSteps(g, steps).value.stmts[i]
        == Let(OutputPattern(i, node.nOutputs), Generate(node.gen, node.nInputs, ResolvedArgs(g, steps, i)).value)
  {
    SynthStepsOk(g, steps);
    var k := |steps| - 1;
    StepAgrees(g, steps, k);
    if i < k {
      SynthStepsStmts(g, steps[..k], i);
      StepOkPrefix(g, steps, k, i);
      assert ResolvedArgs(g, steps[..k], i) == ResolvedArgs(g, steps, i);
    }
  }

  /** A step whose connected slot names an output that no earlier step
      bound makes the synthesis fail with `NoLValue` for that output, when
      the earlier steps and the earlier slots are fine. */
  lemma MissingBindingFails(g: Graph<Node>, steps: seq<EvalStep>, i: nat, j: nat)
    requires i < |steps| && j < |steps[i].args|
    requires SynthSteps(g, steps[..i]).Ok?
    requires steps[i].node < |g.nodes|
    requires forall j' :: 0 <= j' < j ==> Resolve(g, steps[..i], steps[i].args[j']).Some?
    requires steps[i].args[j].Some? && Resolve(g, steps[..i], steps[i].args[j]).None?
    ensures SynthSteps(g, steps) == Err(NoLValue(steps[i].args[j].value.node, steps[i].args[j].value.output))
  {
    var prior := steps[..i];
    var prev := SynthSteps(g, prior).value;
    var step := steps[i];
    forall j' | 0 <= j' <= j
      ensures InputExpr(step.args[j'], prev.lvals).Ok? <==> Resolve(g, prior, step.args[j']).Some?
    {
      InputExprResolves(g, prior, prev.lvals, step.args[j']);
    }
    ArgExprsFirstFailure(step.args, prev.lvals, j);
    assert steps[..i + 1][..i] == prior;
    assert SynthSteps(g, steps[..i + 1]) == Err(NoLValue(step.args[j].value.node, step.args[j].value.output));
    SynthErrPersists(g, steps, i + 1);
  }

  lemma {:induction false} ArgExprsFirstFailure(args: seq<Option<ExprInput>>, lvals: LValues, j: nat)
    requires j < |args|
    requires forall j' :: 0 <= j' < j ==> InputExpr(args[j'], lvals).Ok?
    requires InputExpr(args[j], lvals).Err?
    ensures ArgExprs(args, lvals) == InputExpr(args[j], lvals).PropagateFailure()
  {
    if j > 0 {
      assert forall j' :: 0 <= j' < |args| - 1 ==> args[1..][j'] == args[j' + 1];
      ArgExprsFirstFailure(args[1..], lvals, j - 1);
    }
  }

  /** A failure of a prefix of the steps is the failure of all of them. */
  lemma {:induction false} SynthErrPersists(g: Graph<Node>, steps: seq<EvalStep>, m: nat)
    requires m <= |steps|
    requires SynthSteps(g, steps[..m]).Err?
    ensures SynthSteps(g, steps) == SynthSteps(g, steps[..m])
    decreases |steps| - m
  {
    if m < |steps| {
      assert steps[..m + 1][..m] == steps[..m];
      SynthErrPersists(g, steps, m + 1);
    } else {
      assert steps[..m] == steps;
    }
  }

  /** Variables are keyed by step index and output index, so no two
      bindings of one function share a name. */
  lemma BindingsDistinct(g: Graph<Node>, steps: seq<EvalStep>, i1: nat, v1: nat, i2: nat, v2: nat)
    requires SynthSteps(g, steps).Ok?
    requires i1 < |steps| && i2 < |steps|
    requires v1 < |BoundNames(SynthSteps(g, steps).value.stmts[i1].pat)|
    requires v2 < |BoundNames(SynthSteps(g, steps).value.stmts[i2].pat)|
    requires (i1, v1) != (i2, v2)
    ensures BoundNames(SynthSteps(g, steps).value.stmts[i1].pat)[v1] != BoundNames(SynthSteps(g, steps).value.stmts[i2].pat)[v2]
  {
    SynthStepsStmts(g, steps, i1);
    SynthStepsStmts(g, steps, i2);
    var stmts := SynthSteps(g, steps).value.stmts;
    assert BoundNames(stmts[i1].pat)[v1] == VarName(i1, v1);
    assert BoundNames(stmts[i2].pat)[v2] == VarName(i2, v2);
    if VarName(i1, v1) == VarName(i2, v2) {
      VarNameInjective(i1, v1, i2, v2);
    }
  }

  /** `push_eval_fn`: a public function named and declared by the push
      descriptor whose body is the synthesised statements. */
  function PushEvalFn(g: Graph<Node>, push: PushEval, steps: seq<EvalStep>): (r: Result<ItemFn, Fault>)
    ensures r.Ok? <==> SynthSteps(g, steps).Ok?
    ensures r.Ok? ==> r.value.attrs == push.fnAttrs && r.value.vis == Public
    ensures r.Ok? ==> r.value.sig == Signature(push.fnName, push.fnDecl)
    ensures r.Ok? ==> |r.value.block.stmts| == |steps|
    ensures r.Ok? ==> r.value.block.stmts == SynthSteps(g, steps).value.stmts
  {
    var synthesis :- SynthSteps(g, steps);
    Ok(ItemFn(push.fnAttrs, Public, Signature(push.fnName, push.fnDecl), Block(synthesis.stmts)))
  }
}
