/** From the tasks a query selects to a graph of execution nodes, without the task being expanded. */
module QueryGraph {
  import opened Wrappers
  import opened Digraph
  import opened ExecutionGraph

  datatype TaskId = TaskId(package: nat, name: string)

  /** A selected task and the tasks it runs after; `requested` if the query named it directly. */
  datatype QueriedTask = QueriedTask(id: TaskId, dependencies: seq<TaskId>, requested: bool)

  function Ids(queried: seq<QueriedTask>): (ids: seq<TaskId>)
    ensures |ids| == |queried| && forall i :: 0 <= i < |ids| ==> ids[i] == queried[i].id
  {
    seq(|queried|, i requires 0 <= i < |queried| => queried[i].id)
  }

  ghost predicate DependsOn(queried: seq<QueriedTask>, a: TaskId, b: TaskId) {
    exists task :: task in queried && task.id == a && b in task.dependencies
  }

  /** One entry per id, and every dependency is itself selected. */
  ghost predicate IsTaskMap(queried: seq<QueriedTask>) {
    && Distinct(Ids(queried))
    && forall a, b :: DependsOn(queried, a, b) ==> b in Ids(queried)
  }

  ghost function TaskEdges(queried: seq<QueriedTask>): (edges: set<(TaskId, TaskId)>)
    ensures forall a, b :: (a, b) in edges <==> DependsOn(queried, a, b)
  {
    set task, b | task in queried && b in task.dependencies :: (task.id, b)
  }

  /** The order the planned tasks must keep: the dependencies with the pruned task contracted. */
  ghost function PrunedEdges(queried: seq<QueriedTask>, pruned: Option<TaskId>): set<(TaskId, TaskId)> {
    if pruned.None? then TaskEdges(queried) else Contract(TaskEdges(queried), pruned.value)
  }

  function Predecessors(queried: seq<QueriedTask>, p: TaskId): (preds: seq<TaskId>)
    ensures forall a :: a in preds <==> DependsOn(queried, a, p)
  {
    if queried == [] then []
    else
      assert queried == [queried[0]] + queried[1..];
      assert forall a :: DependsOn(queried, a, p) <==>
                         (a == queried[0].id && p in queried[0].dependencies) || DependsOn(queried[1..], a, p);
      (if p in queried[0].dependencies then [queried[0].id] else []) + Predecessors(queried[1..], p)
  }

  function DependenciesOf(queried: seq<QueriedTask>, id: TaskId): (dependencies: seq<TaskId>)
    requires Distinct(Ids(queried))
    ensures forall b :: b in dependencies <==> DependsOn(queried, id, b)
  {
    if queried == [] then []
    else if queried[0].id == id then
      assert forall task :: task in queried && task.id == id ==> task == queried[0] by {
        forall task | task in queried && task.id == id ensures task == queried[0] {
          var i :| 0 <= i < |queried| && queried[i] == task;
          assert Ids(queried)[i] == Ids(queried)[0];
        }
      }
      queried[0].dependencies
    else
      var rest := queried[1..];
      assert queried == [queried[0]] + rest;
      assert Distinct(Ids(rest)) by {
        forall i, j | 0 <= i < j < |rest| ensures Ids(rest)[i] != Ids(rest)[j] {
          assert Ids(queried)[i + 1] != Ids(queried)[j + 1];
        }
      }
      DependenciesOf(rest, id)
  }

  /** `names[i]` is the task whose execution became node `i`: every selected task but the pruned one. */
  ghost predicate AreNodes(queried: seq<QueriedTask>, pruned: Option<TaskId>,
                           names: seq<TaskId>, indices: map<TaskId, nat>)
  {
    && (forall id :: id in indices <==> id in Ids(queried) && Some(id) != pruned)
    && (forall id :: id in indices ==> indices[id] < |names| && names[indices[id]] == id)
    && (forall i :: 0 <= i < |names| ==> names[i] in indices && indices[names[i]] == i)
  }

  /** The edges wired so far, once by task and once by node. */
  ghost predicate AreWired(wired: seq<(TaskId, TaskId)>, edges: seq<(nat, nat)>, indices: map<TaskId, nat>) {
    && |wired| == |edges|
    && forall k :: 0 <= k < |wired| ==>
         wired[k].0 in indices && wired[k].1 in indices
         && edges[k] == (indices[wired[k].0], indices[wired[k].1])
  }

  /** Adds an edge for every dependency that does not involve the pruned task. */
  method AddDependencyEdges(queried: seq<QueriedTask>, pruned: Option<TaskId>,
                            ghost names: seq<TaskId>, indices: map<TaskId, nat>)
    returns (edges: seq<(nat, nat)>, ghost wired: seq<(TaskId, TaskId)>)
    requires IsTaskMap(queried) && AreNodes(queried, pruned, names, indices)
    ensures AreWired(wired, edges, indices)
    ensures forall a, b :: (a, b) in wired <==> DependsOn(queried, a, b) && Some(a) != pruned && Some(b) != pruned
    ensures forall a, b :: a in indices && b in indices ==> ((indices[a], indices[b]) in edges <==> DependsOn(queried, a, b))
  {
    edges, wired := [], [];
    for i := 0 to |queried|
      invariant AreWired(wired, edges, indices)
      invariant forall a, b :: (a, b) in wired <==>
                  DependsOn(queried[..i], a, b) && Some(a) != pruned && Some(b) != pruned
    {
      var task := queried[i];
      assert task in queried && Ids(queried)[i] == task.id;
      assert queried[..i + 1] == queried[..i] + [task];
      for j := 0 to |task.dependencies|
        invariant AreWired(wired, edges, indices)
        invariant forall a, b :: (a, b) in wired <==>
                    (DependsOn(queried[..i], a, b) || (a == task.id && b in task.dependencies[..j]))
                    && Some(a) != pruned && Some(b) != pruned
      {
        var to := task.dependencies[j];
        assert DependsOn(queried, task.id, to);
        assert task.dependencies[..j + 1] == task.dependencies[..j] + [to];
        if Some(task.id) == pruned || Some(to) == pruned {
          continue;
        }
        edges, wired := edges + [(indices[task.id], indices[to])], wired + [(task.id, to)];
      }
    }
    assert queried[..|queried|] == queried;
    WiredEdges(queried, pruned, names, indices, wired, edges);
  }

  /** Nodes and tasks determine each other, so the edges between nodes are the wired pairs. */
  lemma WiredEdges(queried: seq<QueriedTask>, pruned: Option<TaskId>, names: seq<TaskId>, indices: map<TaskId, nat>,
                   wired: seq<(TaskId, TaskId)>, edges: seq<(nat, nat)>)
    requires AreNodes(queried, pruned, names, indices) && AreWired(wired, edges, indices)
    ensures forall a, b :: a in indices && b in indices ==> ((indices[a], indices[b]) in edges <==> (a, b) in wired)
  {
    forall a, b | a in indices && b in indices
      ensures (indices[a], indices[b]) in edges <==> (a, b) in wired
    {
      if (indices[a], indices[b]) in edges {
        var k :| 0 <= k < |edges| && edges[k] == (indices[a], indices[b]);
        assert names[indices[wired[k].0]] == wired[k].0 && names[indices[wired[k].1]] == wired[k].1;
      }
      if (a, b) in wired {
        var k :| 0 <= k < |wired| && wired[k] == (a, b);
        assert edges[k] == (indices[a], indices[b]);
      }
    }
  }

  /** Wires one predecessor of the pruned task to each of its successors. */
  method BridgeFrom(pred: TaskId, succs: seq<TaskId>, ghost names: seq<TaskId>, indices: map<TaskId, nat>)
    returns (edges: seq<(nat, nat)>, ghost wired: seq<(TaskId, TaskId)>)
    ensures AreWired(wired, edges, indices)
    ensures forall a, b :: (a, b) in wired <==> a == pred && b in succs && a in indices && b in indices
  {
    edges, wired := [], [];
    for j := 0 to |succs|
      invariant AreWired(wired, edges, indices)
      invariant forall a, b :: (a, b) in wired <==> a == pred && b in succs[..j] && a in indices && b in indices
    {
      var succ := succs[j];
      assert succs[..j + 1] == succs[..j] + [succ];
      if pred in indices && succ in indices {
        edges, wired := edges + [(indices[pred], indices[succ])], wired + [(pred, succ)];
      }
    }
    assert succs[..|succs|] == succs;
  }

  /** Wires each predecessor of the pruned task to each of its successors. */
  method AddBridgeEdges(queried: seq<QueriedTask>, pruned: TaskId,
                        ghost names: seq<TaskId>, indices: map<TaskId, nat>)
    returns (edges: seq<(nat, nat)>, ghost wired: seq<(TaskId, TaskId)>)
    requires IsTaskMap(queried) && AreNodes(queried, Some(pruned), names, indices)
    ensures AreWired(wired, edges, indices)
    ensures forall a, b :: (a, b) in wired <==>
              DependsOn(queried, a, pruned) && DependsOn(queried, pruned, b) && a != pruned && b != pruned
    ensures forall a, b :: a in indices && b in indices ==>
              ((indices[a], indices[b]) in edges <==> DependsOn(queried, a, pruned) && DependsOn(queried, pruned, b))
  {
    edges, wired := [], [];
    var preds := Predecessors(queried, pruned);
    var succs := DependenciesOf(queried, pruned);
    for i := 0 to |preds|
      invariant AreWired(wired, edges, indices)
      invariant forall a, b :: (a, b) in wired <==> a in preds[..i] && b in succs && a in indices && b in indices
    {
      assert preds[..i + 1] == preds[..i] + [preds[i]];
      ghost var more;
      var bridges;
      bridges, more := BridgeFrom(preds[i], succs, names, indices);
      ConcatWired(wired, more, edges, bridges, indices);
      edges, wired := edges + bridges, wired + more;
    }
    assert preds[..|preds|] == preds;
    BridgesAreRight(queried, pruned, names, indices, preds, succs, wired, edges);
  }

  lemma BridgesAreRight(queried: seq<QueriedTask>, pruned: TaskId, names: seq<TaskId>, indices: map<TaskId, nat>,
                        preds: seq<TaskId>, succs: seq<TaskId>, wired: seq<(TaskId, TaskId)>, edges: seq<(nat, nat)>)
    requires IsTaskMap(queried) && AreNodes(queried, Some(pruned), names, indices) && AreWired(wired, edges, indices)
    requires forall a :: a in preds <==> DependsOn(queried, a, pruned)
    requires forall b :: b in succs <==> DependsOn(queried, pruned, b)
    requires forall a, b :: (a, b) in wired <==> a in preds && b in succs && a in indices && b in indices
    ensures forall a, b :: (a, b) in wired <==>
              DependsOn(queried, a, pruned) && DependsOn(queried, pruned, b) && a != pruned && b != pruned
    ensures forall a, b :: a in indices && b in indices ==>
              ((indices[a], indices[b]) in edges <==> DependsOn(queried, a, pruned) && DependsOn(queried, pruned, b))
  {
    NeighborsAreNodes(queried, pruned, names, indices);
    WiredEdges(queried, Some(pruned), names, indices, wired, edges);
  }

  lemma NeighborsAreNodes(queried: seq<QueriedTask>, pruned: TaskId, names: seq<TaskId>, indices: map<TaskId, nat>)
    requires IsTaskMap(queried) && AreNodes(queried, Some(pruned), names, indices)
    ensures forall a :: DependsOn(queried, a, pruned) ==> (a in indices <==> a != pruned)
    ensures forall b :: DependsOn(queried, pruned, b) ==> (b in indices <==> b != pruned)
  {
    forall a | DependsOn(queried, a, pruned)
      ensures a in indices <==> a != pruned
    {
      PredecessorIsSelected(queried, a, pruned);
    }
  }

  lemma PredecessorIsSelected(queried: seq<QueriedTask>, a: TaskId, b: TaskId)
    requires DependsOn(queried, a, b)
    ensures a in Ids(queried)
  {
    var task :| task in queried && task.id == a && b in task.dependencies;
    var i :| 0 <= i < |queried| && queried[i] == task;
    assert Ids(queried)[i] == a;
  }

  /** The graph over `nodes` in which an edge stands for exactly one pruned dependency. */
  ghost predicate Realises<N>(queried: seq<QueriedTask>, pruned: Option<TaskId>,
                              names: seq<TaskId>, graph: DiGraph<N>)
  {
    && |graph.nodes| == |names|
    && graph.Valid()
    && forall i: nat, j: nat {:trigger (i, j) in graph.edges} :: i < |names| && j < |names| ==>
         ((i, j) in graph.edges <==> (names[i], names[j]) in PrunedEdges(queried, pruned))
  }

  method Connect<N>(queried: seq<QueriedTask>, pruned: Option<TaskId>, nodes: seq<N>,
                    ghost names: seq<TaskId>, indices: map<TaskId, nat>) returns (graph: DiGraph<N>)
    requires IsTaskMap(queried) && AreNodes(queried, pruned, names, indices) && |nodes| == |names|
    ensures graph.nodes == nodes && Realises(queried, pruned, names, graph)
  {
    var edges, wired := AddDependencyEdges(queried, pruned, names, indices);
    var bridges: seq<(nat, nat)> := [];
    ghost var bridged: seq<(TaskId, TaskId)> := [];
    if pruned.Some? {
      bridges, bridged := AddBridgeEdges(queried, pruned.value, names, indices);
    }
    WiredPairs(queried, pruned, wired, bridged);
    ConcatWired(wired, bridged, edges, bridges, indices);
    WiredNodes(queried, pruned, names, indices, nodes, wired + bridged, edges + bridges);
    graph := DiGraph(nodes, edges + bridges);
  }

  lemma ConcatWired(wired: seq<(TaskId, TaskId)>, more: seq<(TaskId, TaskId)>,
                    edges: seq<(nat, nat)>, moreEdges: seq<(nat, nat)>, indices: map<TaskId, nat>)
    requires AreWired(wired, edges, indices) && AreWired(more, moreEdges, indices)
    ensures AreWired(wired + more, edges + moreEdges, indices)
  {
  }

  lemma WiredPairs(queried: seq<QueriedTask>, pruned: Option<TaskId>,
                   direct: seq<(TaskId, TaskId)>, bridged: seq<(TaskId, TaskId)>)
    requires forall a, b {:trigger (a, b) in direct} ::
               (a, b) in direct <==> DependsOn(queried, a, b) && Some(a) != pruned && Some(b) != pruned
    requires forall a, b {:trigger (a, b) in bridged} ::
               (a, b) in bridged <==>
               pruned.Some? && DependsOn(queried, a, pruned.value) && DependsOn(queried, pruned.value, b)
               && Some(a) != pruned && Some(b) != pruned
    ensures forall a, b {:trigger (a, b) in direct + bridged} ::
              (a, b) in direct + bridged <==> (a, b) in PrunedEdges(queried, pruned)
  {
    forall a, b ensures (a, b) in direct + bridged <==> (a, b) in PrunedEdges(queried, pruned) {
      PrunedEdge(queried, pruned, a, b);
      assert (a, b) in direct + bridged <==> (a, b) in direct || (a, b) in bridged;
    }
  }

  lemma PrunedEdge(queried: seq<QueriedTask>, pruned: Option<TaskId>, a: TaskId, b: TaskId)
    ensures (a, b) in PrunedEdges(queried, pruned) <==>
              Some(a) != pruned && Some(b) != pruned
              && (DependsOn(queried, a, b)
                  || (pruned.Some? && DependsOn(queried, a, pruned.value) && DependsOn(queried, pruned.value, b)))
  {
    if pruned.Some? {
      ContractedEdges(TaskEdges(queried), pruned.value, a, b);
    }
  }

  lemma ContractedEdges(edges: set<(TaskId, TaskId)>, t: TaskId, a: TaskId, b: TaskId)
    ensures (a, b) in Contract(edges, t) <==>
              a != t && b != t && ((a, b) in edges || ((a, t) in edges && (t, b) in edges))
  {
    if (a, t) in edges && (t, b) in edges && a != t && b != t {
      var e, f := (a, t), (t, b);
      assert e in edges && f in edges && (e.0, f.1) in Contract(edges, t);
    }
  }

  lemma WiredNodes<N>(queried: seq<QueriedTask>, pruned: Option<TaskId>, names: seq<TaskId>, indices: map<TaskId, nat>,
                      nodes: seq<N>, wired: seq<(TaskId, TaskId)>, edges: seq<(nat, nat)>)
    requires AreNodes(queried, pruned, names, indices) && |nodes| == |names|
    requires AreWired(wired, edges, indices)
    requires forall a, b {:trigger (a, b) in wired} :: (a, b) in wired <==> (a, b) in PrunedEdges(queried, pruned)
    ensures Realises(queried, pruned, names, DiGraph(nodes, edges))
  {
    forall i: nat, j: nat | i < |names| && j < |names|
      ensures (i, j) in edges <==> (names[i], names[j]) in wired
    {
      if (names[i], names[j]) in wired {
        var k :| 0 <= k < |wired| && wired[k] == (names[i], names[j]);
        assert edges[k] == (i, j);
      }
      if (i, j) in edges {
        var k :| 0 <= k < |edges| && edges[k] == (i, j);
        assert wired[k] == (names[i], names[j]);
      }
    }
  }

  lemma KeptIsRealised<N>(queried: seq<QueriedTask>, pruned: Option<TaskId>, names: seq<TaskId>,
                          indices: map<TaskId, nat>, graph: DiGraph<N>, u: TaskId, v: TaskId)
    requires IsTaskMap(queried) && AreNodes(queried, pruned, names, indices)
    requires Realises(queried, pruned, names, graph) && (u, v) in PrunedEdges(queried, pruned)
    ensures u in indices && v in indices && (indices[u], indices[v]) in graph.EdgeSet()
  {
    KeptEndsAreNodes(queried, pruned, u, v);
    assert (indices[u], indices[v]) in graph.edges;
  }

  lemma NamesRename<N>(queried: seq<QueriedTask>, pruned: Option<TaskId>, names: seq<TaskId>,
                       graph: DiGraph<N>, name: nat -> TaskId)
    requires Realises(queried, pruned, names, graph) && forall k: nat :: k < |names| ==> name(k) == names[k]
    ensures Renames(graph.EdgeSet(), PrunedEdges(queried, pruned), name)
  {
    forall u: nat, v: nat | (u, v) in graph.EdgeSet() ensures (name(u), name(v)) in PrunedEdges(queried, pruned) {
      assert (u, v) in graph.edges;
    }
  }

  lemma IndicesRename<N>(queried: seq<QueriedTask>, pruned: Option<TaskId>, names: seq<TaskId>,
                         indices: map<TaskId, nat>, graph: DiGraph<N>, back: TaskId -> nat)
    requires IsTaskMap(queried) && AreNodes(queried, pruned, names, indices)
    requires Realises(queried, pruned, names, graph) && forall id :: id in indices ==> back(id) == indices[id]
    ensures Renames(PrunedEdges(queried, pruned), graph.EdgeSet(), back)
  {
    forall u, v | (u, v) in PrunedEdges(queried, pruned) ensures (back(u), back(v)) in graph.EdgeSet() {
      KeptIsRealised(queried, pruned, names, indices, graph, u, v);
    }
  }

  lemma NodesAreJoinedAsNames<N>(queried: seq<QueriedTask>, pruned: Option<TaskId>, names: seq<TaskId>,
                                 indices: map<TaskId, nat>, graph: DiGraph<N>, i: nat, j: nat)
    requires IsTaskMap(queried) && AreNodes(queried, pruned, names, indices)
    requires Realises(queried, pruned, names, graph) && i < |names| && j < |names|
    ensures Joined(graph.EdgeSet(), i, j) <==> Joined(PrunedEdges(queried, pruned), names[i], names[j])
  {
    var name := (k: nat) => if k < |names| then names[k] else TaskId(0, "");
    var back := (id: TaskId) => if id in indices then indices[id] else 0;
    NamesRename(queried, pruned, names, graph, name);
    IndicesRename(queried, pruned, names, indices, graph, back);
    RenamingPreservesJoined(graph.EdgeSet(), PrunedEdges(queried, pruned), name, back, i, j);
  }

  /** Two planned tasks are ordered in the graph exactly if their dependencies order them. */
  lemma OrderIsKept<N>(queried: seq<QueriedTask>, pruned: Option<TaskId>, names: seq<TaskId>,
                       indices: map<TaskId, nat>, graph: DiGraph<N>, i: nat, j: nat)
    requires IsTaskMap(queried) && AreNodes(queried, pruned, names, indices)
    requires Realises(queried, pruned, names, graph) && i < |names| && j < |names|
    ensures Joined(graph.EdgeSet(), i, j) <==> Joined(TaskEdges(queried), names[i], names[j])
  {
    NodesAreJoinedAsNames(queried, pruned, names, indices, graph, i, j);
    if pruned.Some? {
      ContractPreservesJoined(TaskEdges(queried), pruned.value, names[i], names[j]);
    }
  }

  lemma KeptEndsAreNodes(queried: seq<QueriedTask>, pruned: Option<TaskId>, u: TaskId, v: TaskId)
    requires IsTaskMap(queried) && (u, v) in PrunedEdges(queried, pruned)
    ensures u in Ids(queried) && v in Ids(queried) && Some(u) != pruned && Some(v) != pruned
  {
    var edges := TaskEdges(queried);
    if pruned.Some? {
      ContractedEdges(edges, pruned.value, u, v);
    }
    if DependsOn(queried, u, v) {
      PredecessorIsSelected(queried, u, v);
    } else {
      PredecessorIsSelected(queried, u, pruned.value);
      assert DependsOn(queried, pruned.value, v);
    }
  }

  /** The graph has a cycle exactly if the dependencies have one through a task that was not pruned. */
  lemma CyclesAreKept<N>(queried: seq<QueriedTask>, pruned: Option<TaskId>, names: seq<TaskId>,
                         indices: map<TaskId, nat>, graph: DiGraph<N>)
    requires IsTaskMap(queried) && AreNodes(queried, pruned, names, indices)
    requires Realises(queried, pruned, names, graph)
    ensures IsAcyclic(graph) <==> forall id :: id in Ids(queried) && Some(id) != pruned ==> !Joined(TaskEdges(queried), id, id)
  {
    if IsAcyclic(graph) {
      forall id | id in Ids(queried) && Some(id) != pruned ensures !Joined(TaskEdges(queried), id, id) {
        OrderIsKept(queried, pruned, names, indices, graph, indices[id], indices[id]);
      }
    } else {
      var i :| Joined(graph.EdgeSet(), i, i);
      var walk :| IsWalkBetween(graph.EdgeSet(), walk, i, i);
      assert IsStep(graph.EdgeSet(), walk, 0);
      assert (walk[0], walk[1]) in graph.edges;
      OrderIsKept(queried, pruned, names, indices, graph, i, i);
    }
  }
}
