/** The fan-out decision of `push_eval_steps`: whether the value an incoming
    edge carries must be cloned because its source output feeds several
    inputs. `ws` is always the list of the source node's outgoing edge
    weights in enumeration order. */
module CloneFlag {
  import opened Graphs

  /** `connection_ix`: the position, among all outgoing edges, of the last
      one whose weight equals `w`; 0 when there is none. */
  function LastEqualIndex(ws: seq<Edge>, w: Edge): (ix: nat)
    ensures ix == 0 || (ix < |ws| && ws[ix] == w)
    ensures forall j :: ix < j < |ws| ==> ws[j] != w
  {
    if |ws| == 0 then 0
    else if ws[|ws| - 1] == w then |ws| - 1
    else LastEqualIndex(ws[..|ws| - 1], w)
  }

  /** `total_connections_from_output`: how many outgoing edges leave from
      output `o`. */
  function CountOutput(ws: seq<Edge>, o: nat): (n: nat)
    ensures n <= |ws|
  {
    if |ws| == 0 then 0
    else CountOutput(ws[..|ws| - 1], o) + (if ws[|ws| - 1].output == o then 1 else 0)
  }

  /** `requires_clone` for an incoming edge of weight `w`. The position is
      taken among all outgoing edges, but compared with a count of only
      those that share `w.output`. */
  function RequiresClone(ws: seq<Edge>, w: Edge): bool {
    var total := CountOutput(ws, w.output);
    total > 1 && LastEqualIndex(ws, w) < total - 1
  }

  /** The loop of `push_eval_steps` that computes the flag, checked against
      the definitions above. */
  method ComputeRequiresClone(ws: seq<Edge>, w: Edge) returns (requiresClone: bool)
    ensures requiresClone <==> CountOutput(ws, w.output) > 1 && LastEqualIndex(ws, w) < CountOutput(ws, w.output) - 1
  {
    var connectionIx := 0;
    var total := 0;
    var i := 0;
    while i < |ws|
      invariant 0 <= i <= |ws|
      invariant connectionIx == LastEqualIndex(ws[..i], w)
      invariant total == CountOutput(ws[..i], w.output)
    {
      assert ws[..i + 1][..i] == ws[..i];
      if ws[i] == w {
        connectionIx := i;
      }
      if ws[i].output == w.output {
        total := total + 1;
      }
      i := i + 1;
    }
    assert ws[..|ws|] == ws;
    requiresClone := total > 1 && connectionIx < total - 1;
  }

  /** An output with a single consumer is never cloned. */
  lemma SingleConsumerNotCloned(ws: seq<Edge>, w: Edge)
    requires CountOutput(ws, w.output) <= 1
    ensures !RequiresClone(ws, w)
  {
  }

  lemma {:induction false} CountAllSameOutput(ws: seq<Edge>, o: nat)
    requires forall j :: 0 <= j < |ws| ==> ws[j].output == o
    ensures CountOutput(ws, o) == |ws|
  {
    if |ws| > 0 {
      CountAllSameOutput(ws[..|ws| - 1], o);
    }
  }

  predicate PairwiseDistinct(ws: seq<Edge>) {
    forall i, j :: 0 <= i < j < |ws| ==> ws[i] != ws[j]
  }

  /** With pairwise-distinct weights, an edge's `connection_ix` is its own
      position. */
  lemma LastEqualIndexOfDistinct(ws: seq<Edge>, i: nat)
    requires PairwiseDistinct(ws) && i < |ws|
    ensures LastEqualIndex(ws, ws[i]) == i
  {
  }

  /** When every outgoing edge uses one output and no two share a weight,
      every edge but the last-enumerated one is cloned. */
  lemma AllButLastCloned(ws: seq<Edge>, o: nat)
    requires forall j :: 0 <= j < |ws| ==> ws[j].output == o
    requires PairwiseDistinct(ws)
    ensures forall i :: 0 <= i < |ws| ==> (RequiresClone(ws, ws[i]) <==> i < |ws| - 1)
  {
    CountAllSameOutput(ws, o);
    forall i | 0 <= i < |ws| ensures RequiresClone(ws, ws[i]) <==> i < |ws| - 1 {
      LastEqualIndexOfDistinct(ws, i);
    }
  }

  /** How many of the first `k` edges are flagged. */
  function FlaggedAmong(ws: seq<Edge>, k: nat): nat
    requires k <= |ws|
  {
    if k == 0 then 0 else FlaggedAmong(ws, k - 1) + (if RequiresClone(ws, ws[k - 1]) then 1 else 0)
  }

  /** Under the same conditions exactly `k - 1` of the `k` edges are cloned. */
  lemma ExactlyAllButOneCloned(ws: seq<Edge>, o: nat)
    requires 0 < |ws|
    requires forall j :: 0 <= j < |ws| ==> ws[j].output == o
    requires PairwiseDistinct(ws)
    ensures FlaggedAmong(ws, |ws|) == |ws| - 1
  {
    AllButLastCloned(ws, o);
    FlaggedPrefix(ws, |ws| - 1);
  }

  lemma {:induction false} FlaggedPrefix(ws: seq<Edge>, k: nat)
    requires k < |ws|
    requires forall i :: 0 <= i < |ws| ==> (RequiresClone(ws, ws[i]) <==> i < |ws| - 1)
    ensures FlaggedAmong(ws, k) == k
  {
    if k > 0 {
      FlaggedPrefix(ws, k - 1);
    }
  }

  /** The quirk: two consumers fed through equal weights (same output, same
      input index on different nodes) share one `connection_ix`, the last
      one, so neither is cloned although the output has two consumers. */
  lemma EqualWeightsNeitherCloned()
    ensures CountOutput([Edge(0, 0), Edge(0, 0)], 0) == 2
    ensures !RequiresClone([Edge(0, 0), Edge(0, 0)], Edge(0, 0))
  {
  }

  /** The quirk: an edge from another output shifts `connection_ix` but not
      the count, so neither of the two consumers of output 0 is cloned. */
  lemma OtherOutputShiftsIndex()
    ensures CountOutput([Edge(1, 0), Edge(0, 0), Edge(0, 1)], 0) == 2
    ensures !RequiresClone([Edge(1, 0), Edge(0, 0), Edge(0, 1)], Edge(0, 0))
    ensures !RequiresClone([Edge(1, 0), Edge(0, 0), Edge(0, 1)], Edge(0, 1))
  {
  }
}
