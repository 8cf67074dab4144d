/** The parts of a nested graph's evaluator function signature that both
    revisions build the same way: one `inlet{i}` parameter per inlet, in
    inlet order, and a return type shaped by the number of outlets. */
module EvaluatorSig {
  import opened Syntax
  import opened Names

  /** The name every nested-graph evaluator function is given. */
  const EvaluatorFnName: string := "graph_node_evaluator_fn"

  /** One parameter per inlet type, named by its position. */
  function InletParams(tys: seq<Type>): (ps: seq<FnArg>)
    ensures |ps| == |tys|
    ensures forall i :: 0 <= i < |ps| ==> ps[i].ty == tys[i]
  {
    seq(|tys|, i requires 0 <= i < |tys| => Arg(InletName(i), tys[i]))
  }

  /** The parameter types of a parameter list, in order. */
  function ParamTypes(ps: seq<FnArg>): (tys: seq<Type>)
    ensures |tys| == |ps|
  {
    seq(|ps|, i requires 0 <= i < |ps| => ps[i].ty)
  }

  /** Parameter `i` is named `inlet{i}`, so the inlet parameters carry
      pairwise distinct names and none of them is called `state`. */
  lemma InletParamNames(tys: seq<Type>)
    ensures forall i :: 0 <= i < |tys| ==> InletParams(tys)[i].name == InletName(i)
    ensures forall i, j :: 0 <= i < j < |tys| ==> InletParams(tys)[i].name != InletParams(tys)[j].name
    ensures forall i :: 0 <= i < |tys| ==> InletParams(tys)[i].name != "state"
  {
    var ps := InletParams(tys);
    forall i, j | 0 <= i < j < |tys| ensures ps[i].name != ps[j].name {
      if ps[i].name == ps[j].name {
        InletNameInjective(i, j);
      }
    }
    forall i | 0 <= i < |tys| ensures ps[i].name != "state" {
      assert ps[i].name[0] == 'i';
    }
  }

  /** Reading the types back off the inlet parameters gives the inlet types. */
  lemma InletParamsRoundTrip(tys: seq<Type>)
    ensures ParamTypes(InletParams(tys)) == tys
  {
  }

  /** The return type for the given outlet types: none for no outlet, the
      type itself for one, and a tuple in outlet order for more. */
  function ReturnShape(tys: seq<Type>): (r: ReturnType)
    ensures |tys| == 0 <==> r.DefaultReturn?
    ensures |tys| == 1 ==> r == Returns(tys[0])
    ensures |tys| > 1 ==> r == Returns(TupleType(tys))
  {
    match |tys|
    case 0 => DefaultReturn
    case 1 => Returns(tys[0])
    case _ => Returns(TupleType(tys))
  }

  /** The outlet types a return type stands for, read back the other way. */
  function ReturnedTypes(r: ReturnType): seq<Type> {
    match r
    case DefaultReturn => []
    case Returns(TupleType(elems)) => elems
    case Returns(ty) => [ty]
  }

  /** The return shape keeps the outlet types recoverable, in order, unless
      the only outlet is itself a tuple. */
  lemma ReturnShapeRoundTrip(tys: seq<Type>)
    requires !(|tys| == 1 && tys[0].TupleType?)
    ensures ReturnedTypes(ReturnShape(tys)) == tys
  {
  }

  /** The exception is genuine: one outlet of type `(A, B)` and two outlets
      of types `A` and `B` give the same return type. */
  lemma SingleTupleOutletIndistinguishable(a: Type, b: Type)
    ensures ReturnShape([TupleType([a, b])]) == ReturnShape([a, b])
  {
  }
}
