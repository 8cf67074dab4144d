/** The node capability model: input/output arity, the expression generator
    and the optional push-evaluation entry descriptor. */
module Nodes {
  import opened Results
  import opened Syntax

  /** An expression generator (`gen_expr`) of a node kind. */
  datatype Gen =
      /** The generator of a concrete node kind outside this model: an
          uninterpreted function of the argument list that assumes it is
          given exactly `n_inputs` arguments. */
    | OpaqueGen(kind: nat)
      /** The `Inlet` boundary node: `{ state.clone() }`, no arguments. */
    | InletGen
      /** The `Outlet` boundary node: writes its single argument into the
          state of type `ty`. */
    | OutletGen(ty: Type)
      /** The older `InletNode` / `OutletNode`: yields its single argument. */
    | ForwardGen

  /** The argument count a generator insists on. */
  function ExpectedArgs(gen: Gen, nInputs: nat): nat {
    match gen
    case OpaqueGen(_) => nInputs
    case InletGen => 0
    case OutletGen(_) => 1
    case ForwardGen => 1
  }

  /** Apply a generator to its argument expressions; an argument list of the
      wrong length is a contract violation. */
  function Generate(gen: Gen, nInputs: nat, args: seq<Expr>): (r: Result<Expr, Fault>)
    ensures r.Ok? <==> |args| == ExpectedArgs(gen, nInputs)
    ensures r.Err? ==> r.error == ArityViolation(ExpectedArgs(gen, nInputs), |args|)
  {
    match gen
    case OpaqueGen(kind) =>
      if |args| == nInputs then Ok(Generated(kind, args)) else Err(ArityViolation(nInputs, |args|))
    case InletGen =>
      if |args| == 0 then Ok(StateClone) else Err(ArityViolation(0, |args|))
    case OutletGen(ty) =>
      if |args| == 1 then Ok(StoreState(ty, args[0])) else Err(ArityViolation(1, |args|))
    case ForwardGen =>
      if |args| == 1 then Ok(args[0]) else Err(ArityViolation(1, |args|))
  }

  /** How a node is turned into code: a single expression of its arguments,
      or a complete function item (nested graphs). */
  datatype Evaluator =
    | ExprEval(nInputs: nat, nOutputs: nat, gen: Gen)
    | FnEval(item: ItemFn)

  /** Descriptor of an automatically generated, externally callable
      push-evaluation entry function. */
  datatype PushEval = PushEval(fnDecl: FnDecl, fnName: string, fnAttrs: seq<Attribute>)

  /** A node as the code generator sees it: arity, expression generator and
      optional push entry. */
  datatype Node = Node(nInputs: nat, nOutputs: nat, gen: Gen, push: Option<PushEval>)
}
