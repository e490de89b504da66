/** The order in which a validated graph is executed: petgraph's two-pass topological sort, on any graph. */
module TopologicalOrder {
  import opened Wrappers
  import opened Digraph
  import opened ExecutionGraph

  /**
   * The marks of the first pass. `at` gives, for each node discovered but not finished, its
   * place on the stack: whatever lies above is reachable from it and is not the node itself.
   */
  ghost predicate IsSorting(before: set<(nat, nat)>, discovered: set<nat>, finished: set<nat>,
                            stack: seq<nat>, at: map<nat, nat>)
  {
    && (forall v :: v in discovered <==> v in finished || v in at)
    && (forall v :: v in at ==> v !in finished)
    && (forall v :: v in at ==> at[v] < |stack| && stack[at[v]] == v)
    && (forall v, j {:trigger at[v], stack[j]} :: v in at && at[v] < j < |stack| ==>
          stack[j] != v && (v, stack[j]) in before)
  }

  /** A strict order that every edge follows. */
  ghost predicate Orders(edges: set<(nat, nat)>, before: set<(nat, nat)>) {
    && edges <= before && (forall v :: (v, v) !in before)
    && (forall a, b, c {:trigger (a, b) in before, (b, c) in before} :: (a, b) in before && (b, c) in before ==> (a, c) in before)
  }

  /** Reachability is one if there are no cycles. */
  ghost function Reach<N>(graph: Graph<N>): (before: set<(nat, nat)>)
    ensures IsAcyclic(graph) ==> Orders(graph.EdgeSet(), before)
  {
    var edges, nodes := graph.EdgeSet(), Below(|graph.nodes|);
    var before := set a, b | a in nodes && b in nodes && Joined(edges, a, b) :: (a, b);
    if IsAcyclic(graph) then ReachOrders(graph, before); before else before
  }

  lemma ReachOrders<N>(graph: AcyclicGraph<N>, before: set<(nat, nat)>)
    requires before == set a, b | a in Below(|graph.nodes|) && b in Below(|graph.nodes|) && Joined(graph.EdgeSet(), a, b) :: (a, b)
    ensures Orders(graph.EdgeSet(), before)
  {
    var edges := graph.EdgeSet();
    forall a, b | (a, b) in edges ensures (a, b) in before {
      assert (a, b) in graph.edges;
      EdgeJoins(edges, a, b);
    }
    forall a, b, c | (a, b) in before && (b, c) in before ensures (a, c) in before {
      JoinedTransitive(edges, a, b, c);
    }
  }

  /** Each edge leaving an unfinished node leads to a finished one, up the stack, or into `rest` if it leaves `u`. */
  ghost predicate AreCovered(edges: set<(nat, nat)>, finished: set<nat>, stack: seq<nat>, at: map<nat, nat>,
                             u: nat, rest: seq<nat>)
    requires forall v :: v in at ==> at[v] < |stack|
  {
    forall v, w {:trigger (v, w) in edges} :: (v, w) in edges && v in at ==>
      w in finished || w in stack[at[v] + 1..] || (v == u && w in rest)
  }

  lemma DiscoverTop(edges: set<(nat, nat)>, before: set<(nat, nat)>, discovered: set<nat>, finished: set<nat>,
                    stack: seq<nat>, at: map<nat, nat>, u: nat, targets: seq<nat>)
    requires IsSorting(before, discovered, finished, stack, at) && AreCovered(edges, finished, stack, at, u, [])
    requires stack != [] && stack[|stack| - 1] == u && u !in discovered
    requires forall v :: (u, v) in edges ==> v in targets
    ensures IsSorting(before, discovered + {u}, finished, stack, at[u := |stack| - 1])
    ensures AreCovered(edges, finished, stack, at[u := |stack| - 1], u, targets)
    ensures forall v :: v in at ==> (v, u) in before
  {
  }

  lemma PushTarget(edges: set<(nat, nat)>, before: set<(nat, nat)>, discovered: set<nat>, finished: set<nat>,
                   stack: seq<nat>, at: map<nat, nat>, u: nat, rest: seq<nat>)
    requires IsSorting(before, discovered, finished, stack, at) && AreCovered(edges, finished, stack, at, u, rest)
    requires Orders(edges, before)
    requires u in at && forall v :: v in at ==> v == u || (v, u) in before
    requires rest != [] && (u, rest[0]) in edges && rest[0] !in discovered
    ensures IsSorting(before, discovered, finished, stack + [rest[0]], at)
    ensures AreCovered(edges, finished, stack + [rest[0]], at, u, rest[1..])
  {
    var w := rest[0];
    forall v | v in at ensures (v, w) in before {
      assert (u, w) in before;
    }
    forall v, x | (v, x) in edges && v in at
      ensures x in finished || x in (stack + [w])[at[v] + 1..] || (v == u && x in rest[1..])
    {
      PushedOrLeft(stack, at[v] + 1, rest, x);
    }
  }

  lemma PushedOrLeft(stack: seq<nat>, from: nat, rest: seq<nat>, x: nat)
    requires rest != [] && from <= |stack|
    ensures x in stack[from..] || x == rest[0] ==> x in (stack + [rest[0]])[from..]
    ensures x in rest ==> x == rest[0] || x in rest[1..]
  {
    assert (stack + [rest[0]])[from..] == stack[from..] + [rest[0]];
    assert rest == [rest[0]] + rest[1..];
  }

  /** Without cycles, a target already discovered is finished. */
  lemma SkipTarget(edges: set<(nat, nat)>, before: set<(nat, nat)>, discovered: set<nat>, finished: set<nat>,
                   stack: seq<nat>, at: map<nat, nat>, u: nat, rest: seq<nat>)
    requires Orders(edges, before)
    requires IsSorting(before, discovered, finished, stack, at) && AreCovered(edges, finished, stack, at, u, rest)
    requires u in at && forall v :: v in at ==> v == u || (v, u) in before
    requires rest != [] && (u, rest[0]) in edges && rest[0] in discovered
    ensures rest[0] != u && AreCovered(edges, finished, stack, at, u, rest[1..])
  {
    var w := rest[0];
    assert (u, w) in before;
    assert w in finished;
    assert rest == [w] + rest[1..];
  }

  lemma PopKeepsSorting(before: set<(nat, nat)>, discovered: set<nat>, finished: set<nat>,
                        stack: seq<nat>, at: map<nat, nat>, u: nat)
    requires IsSorting(before, discovered, finished, stack, at)
    requires stack != [] && stack[|stack| - 1] == u && u in discovered
    ensures IsSorting(before, discovered, finished + {u}, stack[..|stack| - 1], at - {u})
  {
    var shorter := stack[..|stack| - 1];
    forall v | v in at - {u}
      ensures at[v] < |shorter| && shorter[at[v]] == v
    {
      assert stack[at[v]] == v != u;
    }
  }

  lemma PopTop(edges: set<(nat, nat)>, before: set<(nat, nat)>, discovered: set<nat>, finished: set<nat>,
               stack: seq<nat>, at: map<nat, nat>, u: nat)
    requires IsSorting(before, discovered, finished, stack, at) && AreCovered(edges, finished, stack, at, u, [])
    requires stack != [] && stack[|stack| - 1] == u && u in discovered
    ensures u !in finished ==> forall w :: (u, w) in edges ==> w in finished
    ensures IsSorting(before, discovered, finished + {u}, stack[..|stack| - 1], at - {u})
    ensures AreCovered(edges, finished + {u}, stack[..|stack| - 1], at - {u}, u, [])
  {
    PopKeepsSorting(before, discovered, finished, stack, at, u);
    var shorter := stack[..|stack| - 1];
    if u !in finished {
      assert at[u] == |stack| - 1;
    }
    forall v, w | (v, w) in edges && v in at - {u}
      ensures w in finished + {u} || w in shorter[at[v] + 1..]
    {
      if w !in finished {
        StackTail(stack, at[v] + 1, u, w);
      }
    }
  }

  lemma StackTail(stack: seq<nat>, from: nat, top: nat, w: nat)
    requires from < |stack| && stack[|stack| - 1] == top && w in stack[from..]
    ensures w == top || w in stack[..|stack| - 1][from..]
  {
    assert stack[from..] == stack[..|stack| - 1][from..] + [top];
  }

  /** Every edge between listed nodes runs from an earlier to a later one. */
  ghost predicate IsForwardOrder(edges: set<(nat, nat)>, order: seq<nat>) {
    forall i, j :: 0 <= i < |order| && 0 <= j < |order| && (order[i], order[j]) in edges ==> i < j
  }

  ghost predicate ListsExactly(n: nat, order: seq<nat>) {
    Distinct(order) && forall v :: v in order <==> 0 <= v < n
  }

  /** `done` lists the finished nodes, and their targets always come before them. */
  ghost predicate IsFinishList(edges: set<(nat, nat)>, finished: set<nat>, done: seq<nat>) {
    && Distinct(done)
    && (forall v :: v in finished <==> v in done)
    && (forall i, w {:trigger (done[i], w) in edges} ::
          0 <= i < |done| && (done[i], w) in edges ==> w in done[..i])
  }

  lemma AppendFinished(edges: set<(nat, nat)>, finished: set<nat>, done: seq<nat>, u: nat)
    requires IsFinishList(edges, finished, done) && u !in finished
    requires forall w :: (u, w) in edges ==> w in finished
    ensures IsFinishList(edges, finished + {u}, done + [u])
  {
    var longer := done + [u];
    forall i, w | 0 <= i < |longer| && (longer[i], w) in edges
      ensures w in longer[..i]
    {
      if i < |done| {
        assert (done[i], w) in edges;
        assert longer[..i] == done[..i];
      } else {
        assert longer[..i] == done;
      }
    }
  }

  lemma PopFinishes(edges: set<(nat, nat)>, before: set<(nat, nat)>, discovered: set<nat>, finished: set<nat>, finishList: seq<nat>,
                    stack: seq<nat>, at: map<nat, nat>, u: nat)
    requires IsSorting(before, discovered, finished, stack, at) && AreCovered(edges, finished, stack, at, u, [])
    requires IsFinishList(edges, finished, finishList)
    requires stack != [] && stack[|stack| - 1] == u && u in discovered
    ensures IsSorting(before, discovered, finished + {u}, stack[..|stack| - 1], at - {u})
    ensures AreCovered(edges, finished + {u}, stack[..|stack| - 1], at - {u}, u, [])
    ensures IsFinishList(edges, finished + {u}, if u in finished then finishList else finishList + [u])
  {
    PopTop(edges, before, discovered, finished, stack, at, u);
    if u !in finished {
      AppendFinished(edges, finished, finishList, u);
    } else {
      assert finished + {u} == finished;
    }
  }

  /** Reversing the finish list puts every edge forward. */
  lemma ReverseFinished(edges: set<(nat, nat)>, finished: set<nat>, done: seq<nat>)
    requires IsFinishList(edges, finished, done)
    ensures IsForwardOrder(edges, Reversed(done)) && Distinct(Reversed(done))
    ensures forall v :: v in Reversed(done) <==> v in finished
  {
    var order := Reversed(done);
    forall i, j | 0 <= i < |order| && 0 <= j < |order| && (order[i], order[j]) in edges
      ensures i < j
    {
      var a, b := |order| - 1 - i, |order| - 1 - j;
      assert (done[a], done[b]) in edges;
      var k :| 0 <= k < a && done[k] == done[b];
    }
    forall v | v in done ensures v in order {
      var k :| 0 <= k < |done| && done[k] == v;
      assert order[|done| - 1 - k] == v;
    }
  }

  /** What the first pass keeps true on any graph: what is discovered is finished or still on the stack. */
  ghost predicate IsTraversing(n: nat, discovered: set<nat>, finished: set<nat>, finishList: seq<nat>, stack: seq<nat>) {
    && finished <= discovered <= Below(n)
    && (forall i :: 0 <= i < |stack| ==> stack[i] < n)
    && (forall v :: v in discovered ==> v in finished || v in stack)
    && Distinct(finishList) && (forall v :: v in finished <==> v in finishList)
  }

  ghost predicate HaveNoLoops(edges: set<(nat, nat)>, nodes: set<nat>) {
    forall v :: v in nodes ==> (v, v) !in edges
  }

  /** And on a graph without cycles. */
  ghost predicate IsOrdering(edges: set<(nat, nat)>, before: set<(nat, nat)>, discovered: set<nat>, finished: set<nat>,
                             finishList: seq<nat>, stack: seq<nat>, at: map<nat, nat>)
  {
    && Orders(edges, before)
    && IsSorting(before, discovered, finished, stack, at)
    && IsFinishList(edges, finished, finishList)
  }

  lemma PopTraverses(n: nat, discovered: set<nat>, finished: set<nat>, finishList: seq<nat>, stack: seq<nat>,
                     u: nat, list: seq<nat>, shorter: seq<nat>)
    requires IsTraversing(n, discovered, finished, finishList, stack)
    requires stack != [] && stack[|stack| - 1] == u && u in discovered
    requires list == (if u in finished then finishList else finishList + [u]) && shorter == stack[..|stack| - 1]
    ensures IsTraversing(n, discovered, finished + {u}, list, shorter)
  {
    assert stack == shorter + [u];
  }

  lemma PopOrders(edges: set<(nat, nat)>, before: set<(nat, nat)>, discovered: set<nat>, finished: set<nat>,
                  finishList: seq<nat>, stack: seq<nat>, at: map<nat, nat>, u: nat,
                  list: seq<nat>, shorter: seq<nat>, left: map<nat, nat>)
    requires IsOrdering(edges, before, discovered, finished, finishList, stack, at) && AreCovered(edges, finished, stack, at, u, [])
    requires stack != [] && stack[|stack| - 1] == u && u in discovered
    requires list == (if u in finished then finishList else finishList + [u])
    requires shorter == stack[..|stack| - 1] && left == at - {u}
    ensures IsOrdering(edges, before, discovered, finished + {u}, list, shorter, left)
    ensures AreCovered(edges, finished + {u}, shorter, left, u, [])
  {
    PopFinishes(edges, before, discovered, finished, finishList, stack, at, u);
  }

  class Sorter<N> {
    const graph: Graph<N>
    ghost const edges: set<(nat, nat)>
    ghost const before: set<(nat, nat)>
    var discovered: set<nat>
    var finished: set<nat>
    var finishList: seq<nat>
    var stack: seq<nat>
    ghost var at: map<nat, nat>

    constructor (graph: Graph<N>)
      ensures this.graph == graph && edges == graph.EdgeSet() && Valid() && stack == [] && discovered == {}
    {
      this.graph, edges, before := graph, graph.EdgeSet(), Reach(graph);
      discovered, finished, finishList, stack, at := {}, {}, [], [], map[];
    }

    ghost predicate Valid()
      reads this
    {
      && edges == graph.EdgeSet()
      && IsTraversing(|graph.nodes|, discovered, finished, finishList, stack) && HaveNoLoops(edges, discovered)
      && (Acyclic(edges) ==> IsOrdering(edges, before, discovered, finished, finishList, stack, at))
    }

    /** Without cycles, whatever unfinished nodes still lead to is above them on the stack, or in `rest` for `u`. */
    ghost predicate IsCovered(u: nat, rest: seq<nat>)
      requires Valid()
      reads this
    {
      Acyclic(edges) ==> AreCovered(edges, finished, stack, at, u, rest)
    }

    method Targets(u: nat) returns (targets: seq<nat>)
      requires edges == graph.EdgeSet()
      ensures forall v :: v in targets <==> (u, v) in edges
      ensures forall v :: v in targets ==> v < |graph.nodes|
    {
      targets := graph.Neighbors(u);
      forall v | v in targets ensures v < |graph.nodes| {
        assert (u, v) in graph.edges;
      }
    }

    /** First visit of the node on top: pushes its undiscovered targets, or reports a self-loop. */
    method PushTargets(u: nat) returns (failed: bool)
      requires Valid() && stack != [] && stack[|stack| - 1] == u && u !in discovered && IsCovered(u, [])
      modifies this
      ensures failed <==> (u, u) in edges
      ensures !failed ==> Valid() && IsCovered(u, []) && discovered == old(discovered) + {u}
    {
      var targets := Targets(u);
      if Acyclic(edges) {
        DiscoverTop(edges, before, discovered, finished, stack, at, u, targets);
      }
      discovered, at := discovered + {u}, at[u := |stack| - 1];
      for i := 0 to |targets|
        invariant IsTraversing(|graph.nodes|, discovered, finished, finishList, stack) && discovered == old(discovered) + {u}
        invariant u !in targets[..i]
        invariant Acyclic(edges) ==>
                    && u in at && IsOrdering(edges, before, discovered, finished, finishList, stack, at)
                    && AreCovered(edges, finished, stack, at, u, targets[i..])
                    && forall v :: v in at ==> v == u || (v, u) in before
      {
        var target := targets[i];
        assert target in targets;
        if target == u {
          return true;
        }
        assert targets[i..][1..] == targets[i + 1..] && targets[..i + 1] == targets[..i] + [target];
        if target !in discovered {
          if Acyclic(edges) {
            PushTarget(edges, before, discovered, finished, stack, at, u, targets[i..]);
          }
          stack := stack + [target];
        } else if Acyclic(edges) {
          SkipTarget(edges, before, discovered, finished, stack, at, u, targets[i..]);
        }
      }
      assert targets[..|targets|] == targets;
      return false;
    }

    /** Second visit of the node on top: it finishes unless it already has. */
    method Pop(u: nat)
      requires Valid() && stack != [] && stack[|stack| - 1] == u && u in discovered && IsCovered(u, [])
      modifies this
      ensures Valid() && IsCovered(u, [])
      ensures discovered == old(discovered) && stack == old(stack)[..|old(stack)| - 1] && u in finished
    {
      var shorter, list := stack[..|stack| - 1], finishList;
      if u !in finished {
        list := list + [u];
      }
      ghost var left := at - {u};
      PopTraverses(|graph.nodes|, discovered, finished, finishList, stack, u, list, shorter);
      if Acyclic(edges) {
        PopOrders(edges, before, discovered, finished, finishList, stack, at, u, list, shorter, left);
      }
      finished, finishList, stack, at := finished + {u}, list, shorter, left;
    }

    /** Explores everything reachable from `start` that is not discovered yet. */
    method Explore(start: nat) returns (failed: bool)
      requires Valid() && stack == [] && start < |graph.nodes|
      modifies this
      ensures failed ==> !Acyclic(edges)
      ensures !failed ==> Valid() && stack == [] && old(discovered) + {start} <= discovered
    {
      if start in discovered {
        return false;
      }
      stack := [start];
      ghost var top := start;
      while stack != []
        invariant Valid() && IsCovered(top, [])
        invariant old(discovered) <= discovered
        invariant start in discovered || stack == [start]
        decreases Below(|graph.nodes|) - discovered, |stack|
      {
        var u := stack[|stack| - 1];
        assert IsCovered(u, []);
        if u !in discovered {
          failed := PushTargets(u);
          if failed {
            EdgeJoins(edges, u, u);
            return;
          }
        } else {
          Pop(u);
        }
        top := u;
      }
      return false;
    }

    method Sources(v: nat) returns (sources: seq<nat>)
      requires edges == graph.EdgeSet()
      ensures forall u :: u in sources <==> (u, v) in edges
    {
      sources := [];
      for i := 0 to |graph.edges|
        invariant forall u :: u in sources <==> (u, v) in graph.edges[..i]
      {
        assert graph.edges[..i + 1] == graph.edges[..i] + [graph.edges[i]];
        if graph.edges[i].1 == v {
          sources := [graph.edges[i].0] + sources;
        }
      }
      assert graph.edges[..|graph.edges|] == graph.edges;
    }

    function Unseen(sources: seq<nat>, seen: set<nat>): (unseen: seq<nat>)
      ensures forall v :: v in unseen <==> v in sources && v !in seen
    {
      if sources == [] then []
      else (if sources[0] in seen then [] else [sources[0]]) + Unseen(sources[1..], seen)
    }

    /** Second pass: going backwards from each node in order finds another one exactly if some edge runs backwards. */
    method Confirm(order: seq<nat>) returns (failed: bool)
      requires edges == graph.EdgeSet() && ListsExactly(|graph.nodes|, order) && HaveNoLoops(edges, Below(|graph.nodes|))
      ensures failed <==> !IsForwardOrder(edges, order)
    {
      var seen: set<nat> := {};
      for i := 0 to |order|
        invariant forall v :: v in seen <==> v in order[..i]
        invariant AreEntered(edges, order, i)
      {
        var node := order[i];
        assert order[..i + 1] == order[..i] + [node];
        assert node !in order[..i];
        var pending, cycle := [node], false;
        while pending != []
          invariant !cycle ==> pending == [node] && forall v :: v in seen <==> v in order[..i]
          invariant cycle ==> forall v :: v in seen <==> v in order[..i + 1]
          invariant cycle ==> forall v :: (v, node) in edges && v !in seen <==> v in pending
          decreases !cycle
        {
          var u := pending[|pending| - 1];
          assert u in pending;
          pending := pending[..|pending| - 1];
          if u !in seen {
            seen := seen + {u};
            var sources := Sources(u);
            pending := pending + Unseen(sources, seen);
            if cycle {
              RunsBackwards(edges, |graph.nodes|, order, i, u);
              return true;
            }
            cycle := true;
          }
        }
        assert IsEntered(edges, order, i);
      }
      EnteredIsForward(edges, |graph.nodes|, order);
      return false;
    }
  }

  /** Every edge into the node at `i` comes from it or from one before it. */
  ghost predicate IsEntered(edges: set<(nat, nat)>, order: seq<nat>, i: nat)
    requires i < |order|
  {
    forall v :: (v, order[i]) in edges ==> v in order[..i + 1]
  }

  ghost predicate AreEntered(edges: set<(nat, nat)>, order: seq<nat>, n: nat)
    requires n <= |order|
  {
    forall i: nat :: i < n ==> IsEntered(edges, order, i)
  }

  lemma EnteredIsForward(edges: set<(nat, nat)>, n: nat, order: seq<nat>)
    requires AreEntered(edges, order, |order|) && ListsExactly(n, order) && HaveNoLoops(edges, Below(n))
    ensures IsForwardOrder(edges, order)
  {
    forall i, j | 0 <= i < |order| && 0 <= j < |order| && (order[i], order[j]) in edges ensures i < j {
      assert IsEntered(edges, order, j);
      var k :| 0 <= k < j + 1 && order[k] == order[i];
      assert order[i] in order;
    }
  }

  lemma RunsBackwards(edges: set<(nat, nat)>, n: nat, order: seq<nat>, i: nat, u: nat)
    requires ListsExactly(n, order) && i < |order| && u < n && (u, order[i]) in edges && u !in order[..i + 1]
    ensures !IsForwardOrder(edges, order)
  {
    assert u in order;
    var j :| 0 <= j < |order| && order[j] == u;
    forall k | 0 <= k <= i ensures order[k] != u {
      assert order[..i + 1][k] == order[k];
    }
  }

  /** Only a graph without cycles has such an order. */
  lemma ForwardIsAcyclic(edges: set<(nat, nat)>, n: nat, order: seq<nat>)
    requires ListsExactly(n, order) && IsForwardOrder(edges, order)
    requires forall a, b {:trigger (a, b) in edges} :: (a, b) in edges ==> a < n && b < n
    ensures Acyclic(edges)
  {
    var rank := map v | v in order :: |order| - Place(order, v);
    forall a, b | (a, b) in edges ensures a in rank && b in rank && rank[b] < rank[a] {
      assert a in order && b in order;
      assert (order[Place(order, a)], order[Place(order, b)]) in edges;
    }
    RankMakesAcyclic(edges, rank);
  }

  ghost function Place(order: seq<nat>, v: nat): (i: nat)
    requires v in order
    ensures i < |order| && order[i] == v
  {
    var i: nat :| i < |order| && order[i] == v;
    i
  }

  /** On every finite digraph: an order of all nodes that every edge follows, or an error exactly if there is a cycle. */
  method Toposort<N>(graph: Graph<N>) returns (r: Result<seq<nat>, ()>)
    ensures r.Ok? <==> IsAcyclic(graph)
    ensures r.Ok? ==> ListsExactly(|graph.nodes|, r.value) && IsForwardOrder(graph.EdgeSet(), r.value)
  {
    var sorter := new Sorter(graph);
    for start := 0 to |graph.nodes|
      invariant sorter.graph == graph && sorter.edges == graph.EdgeSet() && sorter.Valid() && sorter.stack == []
      invariant Below(start) <= sorter.discovered
    {
      var failed := sorter.Explore(start);
      if failed {
        return Err(());
      }
    }
    var order := Reversed(sorter.finishList);
    ReversedLists(|graph.nodes|, sorter.finishList);
    if IsAcyclic(graph) {
      ReverseFinished(sorter.edges, sorter.finished, sorter.finishList);
    }
    var failed := sorter.Confirm(order);
    if failed {
      return Err(());
    }
    assert forall a, b {:trigger (a, b) in sorter.edges} :: (a, b) in sorter.edges ==> (a, b) in graph.edges;
    ForwardIsAcyclic(sorter.edges, |graph.nodes|, order);
    return Ok(order);
  }

  lemma ReversedLists(n: nat, done: seq<nat>)
    requires ListsExactly(n, done)
    ensures ListsExactly(n, Reversed(done))
  {
    var order := Reversed(done);
    forall v | v in done ensures v in order {
      var k :| 0 <= k < |done| && done[k] == v;
      assert order[|done| - 1 - k] == v;
    }
  }

  /** A validated graph always has an order, so the panic attached to the error cannot happen. */
  method ComputeTopologicalOrder<N>(graph: AcyclicGraph<N>) returns (order: seq<nat>)
    ensures ListsExactly(|graph.nodes|, order) && IsForwardOrder(graph.EdgeSet(), order)
  {
    var sorted := Toposort(graph);
    order := sorted.value;
  }
}
