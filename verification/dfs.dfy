/** The traversal order of push evaluation: a depth-first walk with an
    explicit stack and a set of discovered nodes. A node is discovered when
    it is popped; its undiscovered successors are then pushed in neighbour
    order, so the last-enumerated successor is walked first. Nodes are
    emitted as they are discovered, i.e. in pre-order. */
module Dfs {
  import opened Graphs

  function Range(n: nat): (r: seq<nat>)
    ensures |r| == n && forall i :: 0 <= i < n ==> r[i] == i
  {
    seq(n, (i: nat) => i)
  }

  function NodeIds<N>(g: Graph<N>): (ids: set<nat>)
    ensures forall x: nat :: x in ids <==> x < |g.nodes|
  {
    var r := Range(|g.nodes|);
    var ids := set x | x in r;
    forall x: nat ensures x in ids <==> x < |g.nodes| {
      if x < |g.nodes| {
        assert r[x] == x;
      }
    }
    ids
  }

  lemma PopInGraph<N>(g: Graph<N>, stack: seq<nat>)
    requires InGraph(g, stack) && 0 < |stack|
    ensures InGraph(g, stack[..|stack| - 1]) && stack[|stack| - 1] < |g.nodes|
  {
  }

  lemma PushInGraph<N>(g: Graph<N>, rest: seq<nat>, node: nat, d: set<nat>)
    requires Valid(g) && InGraph(g, rest)
    ensures InGraph(g, rest + Undiscovered(Successors(g, node), d))
  {
    var u := Undiscovered(Successors(g, node), d);
    forall i | |rest| <= i < |rest + u| ensures (rest + u)[i] < |g.nodes| {
      assert (rest + u)[i] == u[i - |rest|] && u[i - |rest|] in u;
    }
  }

  predicate InGraph<N>(g: Graph<N>, xs: seq<nat>) {
    forall i :: 0 <= i < |xs| ==> xs[i] < |g.nodes|
  }

  predicate NoDuplicates(xs: seq<nat>) {
    forall i, j :: 0 <= i < j < |xs| ==> xs[i] != xs[j]
  }

  function Elems(xs: seq<nat>): set<nat> {
    set x | x in xs
  }

  /** The successors that are not yet discovered, in neighbour order. */
  function Undiscovered(succs: seq<nat>, discovered: set<nat>): (r: seq<nat>)
    ensures forall x :: x in r <==> x in succs && x !in discovered
  {
    if |succs| == 0 then []
    else (if succs[0] in discovered then [] else [succs[0]]) + Undiscovered(succs[1..], discovered)
  }

  /** The nodes emitted by repeatedly popping `stack`: each is new, and none
      was discovered before the walk started. */
  function Walk<N>(g: Graph<N>, stack: seq<nat>, discovered: set<nat>): (order: seq<nat>)
    requires Valid(g) && InGraph(g, stack)
    ensures InGraph(g, order)
    ensures forall i :: 0 <= i < |order| ==> order[i] !in discovered
    ensures NoDuplicates(order)
    decreases NodeIds(g) - discovered, |stack|
  {
    if |stack| == 0 then []
    else
      var node := stack[|stack| - 1];
      var rest := stack[..|stack| - 1];
      PopInGraph(g, stack);
      if node in discovered then Walk(g, rest, discovered)
      else
        var d := discovered + {node};
        PushInGraph(g, rest, node, d);
        var tail := Walk(g, rest + Undiscovered(Successors(g, node), d), d);
        assert forall i :: 0 <= i < |tail| ==> tail[i] != node;
        [node] + tail
  }

  /** The walk that `push_eval_steps` performs from `start`. */
  function DfsOrder<N>(g: Graph<N>, start: nat): seq<nat>
    requires Valid(g) && start < |g.nodes|
  {
    Walk(g, [start], {})
  }

  /** Every emitted node is reachable when every stacked node is. */
  lemma {:induction false} WalkSound<N>(g: Graph<N>, stack: seq<nat>, discovered: set<nat>, s: nat)
    requires Valid(g) && InGraph(g, stack)
    requires forall i :: 0 <= i < |stack| ==> Reachable(g, s, stack[i])
    ensures forall x :: x in Walk(g, stack, discovered) ==> Reachable(g, s, x)
    decreases NodeIds(g) - discovered, |stack|
  {
    if |stack| == 0 {
    } else {
      var node := stack[|stack| - 1];
      var rest := stack[..|stack| - 1];
      assert forall i :: 0 <= i < |rest| ==> rest[i] == stack[i];
      PopInGraph(g, stack);
      if node in discovered {
        WalkSound(g, rest, discovered, s);
      } else {
        var d := discovered + {node};
        var u := Undiscovered(Successors(g, node), d);
        var st := rest + u;
        PushInGraph(g, rest, node, d);
        forall i | 0 <= i < |st| ensures Reachable(g, s, st[i]) {
          if i >= |rest| {
            assert st[i] in u;
            ReachableStep(g, s, node, st[i]);
          }
        }
        WalkSound(g, st, d, s);
      }
    }
  }

  /** Every successor of a discovered node is discovered or still stacked. */
  ghost predicate Frontier<N>(g: Graph<N>, discovered: set<nat>, stack: seq<nat>) {
    forall v, u :: v in discovered && Adjacent(g, v, u) ==> u in discovered || u in stack
  }

  ghost predicate Closed<N>(g: Graph<N>, s: set<nat>) {
    forall v, u :: v in s && Adjacent(g, v, u) ==> u in s
  }

  /** Dropping an already discovered top keeps the frontier. */
  lemma FrontierAfterSkip<N>(g: Graph<N>, rest: seq<nat>, node: nat, discovered: set<nat>)
    requires node in discovered && Frontier(g, discovered, rest + [node])
    ensures Frontier(g, discovered, rest)
  {
    forall v, u | v in discovered && Adjacent(g, v, u) ensures u in discovered || u in rest {
      assert u in discovered || u in rest + [node];
    }
  }

  /** Discovering the top and stacking its undiscovered successors keeps
      the frontier. */
  lemma FrontierAfterVisit<N>(g: Graph<N>, rest: seq<nat>, node: nat, discovered: set<nat>)
    requires Frontier(g, discovered, rest + [node])
    ensures Frontier(g, discovered + {node}, rest + Undiscovered(Successors(g, node), discovered + {node}))
  {
    var d := discovered + {node};
    var st := rest + Undiscovered(Successors(g, node), d);
    forall v, u | v in d && Adjacent(g, v, u) ensures u in d || u in st {
      if v == node {
        assert u in Successors(g, node);
      } else {
        assert u in discovered || u in rest + [node];
      }
    }
  }

  /** When the walk ends, the discovered nodes are closed under successors
      and include everything that was on the stack. */
  lemma {:induction false} WalkComplete<N>(g: Graph<N>, stack: seq<nat>, discovered: set<nat>)
    requires Valid(g) && InGraph(g, stack)
    requires Frontier(g, discovered, stack)
    ensures Closed(g, discovered + Elems(Walk(g, stack, discovered)))
    ensures forall i :: 0 <= i < |stack| ==> stack[i] in discovered + Elems(Walk(g, stack, discovered))
    decreases NodeIds(g) - discovered, |stack|
  {
    if |stack| == 0 {
    } else {
      var node := stack[|stack| - 1];
      var rest := stack[..|stack| - 1];
      WalkPop(g, stack, discovered);
      if node in discovered {
        FrontierAfterSkip(g, rest, node, discovered);
        WalkComplete(g, rest, discovered);
        CoveredSnoc(rest, node, discovered + Elems(Walk(g, rest, discovered)));
      } else {
        var d := discovered + {node};
        var u := Undiscovered(Successors(g, node), d);
        FrontierAfterVisit(g, rest, node, discovered);
        WalkComplete(g, rest + u, d);
        CoveredPrefix(rest, u, d + Elems(Walk(g, rest + u, d)));
        CoveredSnoc(rest, node, d + Elems(Walk(g, rest + u, d)));
      }
    }
  }

  /** One pop of the walk, as seen by the set of nodes discovered by its
      end: a discovered top is dropped, a new one joins the discovered set
      and its undiscovered successors are stacked. */
  lemma WalkPop<N>(g: Graph<N>, stack: seq<nat>, discovered: set<nat>)
    requires Valid(g) && InGraph(g, stack) && |stack| > 0
    ensures var node := stack[|stack| - 1];
      var rest := stack[..|stack| - 1];
      var d := discovered + {node};
      var u := Undiscovered(Successors(g, node), d);
      && stack == rest + [node] && InGraph(g, rest) && InGraph(g, rest + u)
      && (node in discovered ==> Walk(g, stack, discovered) == Walk(g, rest, discovered))
      && (node !in discovered ==> discovered + Elems(Walk(g, stack, discovered)) == d + Elems(Walk(g, rest + u, d)))
  {
    var node := stack[|stack| - 1];
    var rest := stack[..|stack| - 1];
    PopInGraph(g, stack);
    var d := discovered + {node};
    PushInGraph(g, rest, node, d);
    if node !in discovered {
      var w := Walk(g, rest + Undiscovered(Successors(g, node), d), d);
      assert Walk(g, stack, discovered) == [node] + w;
      assert discovered + Elems([node] + w) == d + Elems(w);
    }
  }

  /** A stack whose prefix and top are covered is covered. */
  lemma CoveredSnoc(rest: seq<nat>, node: nat, s: set<nat>)
    requires forall i :: 0 <= i < |rest| ==> rest[i] in s
    requires node in s
    ensures forall i :: 0 <= i < |rest + [node]| ==> (rest + [node])[i] in s
  {
  }

  /** A covered stack has a covered prefix. */
  lemma CoveredPrefix(rest: seq<nat>, pushed: seq<nat>, s: set<nat>)
    requires forall i :: 0 <= i < |rest + pushed| ==> (rest + pushed)[i] in s
    ensures forall i :: 0 <= i < |rest| ==> rest[i] in s
  {
    forall i | 0 <= i < |rest| ensures rest[i] in s {
      assert (rest + pushed)[i] == rest[i];
    }
  }

  lemma {:induction false} PathStaysInClosed<N>(g: Graph<N>, s: set<nat>, p: seq<nat>)
    requires Closed(g, s) && IsPath(g, p) && p[0] in s
    ensures p[|p| - 1] in s
    decreases |p|
  {
    if |p| > 1 {
      var q := p[..|p| - 1];
      forall i | 0 <= i < |q| - 1 ensures Adjacent(g, q[i], q[i + 1]) {
        assert q[i] == p[i] && q[i + 1] == p[i + 1];
      }
      PathStaysInClosed(g, s, q);
      assert Adjacent(g, p[|p| - 2], p[|p| - 1]);
    }
  }

  /** The walk from `start` emits `start` first, never emits a node twice, and
      emits exactly the nodes reachable from `start`. */
  lemma DfsOrderSpec<N>(g: Graph<N>, start: nat)
    requires Valid(g) && start < |g.nodes|
    ensures 1 <= |DfsOrder(g, start)| && DfsOrder(g, start)[0] == start
    ensures NoDuplicates(DfsOrder(g, start))
    ensures forall t :: t in DfsOrder(g, start) <==> Reachable(g, start, t)
  {
    var order := DfsOrder(g, start);
    ReachableRefl(g, start);
    WalkSound(g, [start], {}, start);
    WalkComplete(g, [start], {});
    assert {} + Elems(order) == Elems(order);
    forall t | Reachable(g, start, t) ensures t in order {
      var p :| IsPath(g, p) && p[0] == start && p[|p| - 1] == t;
      PathStaysInClosed(g, Elems(order), p);
    }
  }
}
