/** Failure-compatible wrappers and the fatal conditions of the compilation
    pipeline. Every `panic!`, `expect` or failed `assert!` of the modelled
    code becomes an `Err` carrying one of the `Fault` values below. */
module Results {

  datatype Option<+T> = None | Some(value: T)

  datatype Result<+T, +E> = Ok(value: T) | Err(error: E) {
    predicate IsFailure() {
      Err?
    }

    function PropagateFailure<U>(): Result<U, E>
      requires Err?
    {
      Err(error)
    }

    function Extract(): T
      requires Ok?
    {
      value
    }
  }

  datatype Fault =
      /** `args[w.input]` indexed past the node's input arity. */
    | SlotOutOfRange(node: nat, input: nat)
      /** `node_references().nth(..)` found no node ("no node for index"). */
    | NoNodeForIndex(node: nat)
      /** An argument refers to a `(node, output)` with no bound variable. */
    | NoLValue(node: nat, output: nat)
      /** An expression generator received the wrong number of arguments. */
    | ArityViolation(expected: nat, actual: nat)
      /** `Graph::node(id)` returned `None` ("no node for the given id"). */
    | NoNodeForId(id: nat)
      /** The node exists but declares no state type. */
    | NoStateType(id: nat)
      /** Deserialisation errors raised by the `GraphNode` field visitor. */
    | DuplicateField(name: string)
    | MissingField(name: string)
    | InvalidLength(len: nat)
      /** An element of the sequence form that is not of the field's kind. */
    | InvalidElement(index: nat)

  /** Collect a sequence of results the way `collect::<Result<Vec<_>, _>>()`
      and a `?` inside a loop do: all values in order, or the first error. */
  function Collect<T, E(==)>(rs: seq<Result<T, E>>): (r: Result<seq<T>, E>)
    ensures r.Ok? <==> forall k :: 0 <= k < |rs| ==> rs[k].Ok?
    ensures r.Ok? ==> |r.value| == |rs| && forall k :: 0 <= k < |rs| ==> r.value[k] == rs[k].value
    ensures r.Err? ==> exists k :: 0 <= k < |rs| && rs[k].Err? && r.error == rs[k].error
                         && forall j :: 0 <= j < k ==> rs[j].Ok?
  {
    if |rs| == 0 then Ok([])
    else if rs[0].Err? then Err(rs[0].error)
    else
      var tail := rs[1..];
      assert forall k :: 0 <= k < |tail| ==> tail[k] == rs[k + 1];
      match Collect(tail)
      case Err(e) =>
        assert exists k :: 0 <= k < |rs| && rs[k].Err? && e == rs[k].error && forall j :: 0 <= j < k ==> rs[j].Ok? by {
          var k :| 0 <= k < |tail| && tail[k].Err? && e == tail[k].error && forall j :: 0 <= j < k ==> tail[j].Ok?;
          assert rs[k + 1].Err? && forall j :: 0 <= j < k + 1 ==> rs[j].Ok?;
        }
        Err(e)
      case Ok(vs) =>
        var items := [rs[0].value] + vs;
        assert forall k :: 1 <= k < |items| ==> items[k] == vs[k - 1];
        Ok(items)
  }
}
