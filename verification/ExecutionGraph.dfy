/** Graphs of task executions: the cycle search that validates them and the order it guarantees. */
module ExecutionGraph {
  import opened Wrappers
  import opened Digraph

  /** A growable directed graph. Nodes are named by their position; parallel edges are kept. */
  datatype DiGraph<N> = DiGraph(nodes: seq<N>, edges: seq<(nat, nat)>) {
    ghost predicate Valid() {
      forall e :: e in edges ==> e.0 < |nodes| && e.1 < |nodes|
    }

    ghost function EdgeSet(): set<(nat, nat)> {
      set e | e in edges
    }

    /** The targets of the edges leaving `u`, the most recently added first. */
    function Neighbors(u: nat): (targets: seq<nat>)
      ensures forall v :: v in targets <==> (u, v) in edges
      decreases |edges|
    {
      if edges == [] then []
      else
        var last := edges[|edges| - 1];
        assert edges == edges[..|edges| - 1] + [last];
        (if last.0 == u then [last.1] else []) + DiGraph(nodes, edges[..|edges| - 1]).Neighbors(u)
    }
  }

  ghost function Below(n: nat): (below: set<nat>)
    ensures forall i :: i in below <==> 0 <= i < n
  {
    if n == 0 then {} else Below(n - 1) + {n - 1}
  }

  type Graph<N> = g: DiGraph<N> | g.Valid() witness DiGraph([], [])

  /** The promise of a validated graph: none of its nodes can reach itself. */
  ghost predicate IsAcyclic<N>(g: DiGraph<N>) {
    Acyclic(g.EdgeSet())
  }

  function NoNodes<N>(): (g: Graph<N>)
    ensures IsAcyclic(g)
  {
    var g: DiGraph<N> := DiGraph([], []);
    RankMakesAcyclic(g.EdgeSet(), map[]);
    g
  }

  type AcyclicGraph<N> = g: Graph<N> | IsAcyclic(g) witness NoNodes()

  /** A closed loop `[n0, ..., nk, n0]` along the edges of the graph. */
  ghost predicate IsCyclePath(edges: set<(nat, nat)>, path: seq<nat>) {
    |path| >= 2 && path[0] == path[|path| - 1] && IsWalk(edges, path)
  }

  ghost predicate Distinct<T>(s: seq<T>) {
    forall i, j :: 0 <= i < j < |s| ==> s[i] != s[j]
  }

  function Reversed<T>(s: seq<T>): (r: seq<T>)
    ensures |r| == |s| && forall i :: 0 <= i < |s| ==> r[i] == s[|s| - 1 - i]
  {
    seq(|s|, i requires 0 <= i < |s| => s[|s| - 1 - i])
  }

  /** The visitor recorded the edge between positions `i` and `i + 1` of `path` as a tree edge. */
  ghost predicate IsTreeEdge(edges: set<(nat, nat)>, predecessor: map<nat, nat>, path: seq<nat>, i: nat)
    requires i + 1 < |path|
  {
    (path[i], path[i + 1]) in edges && path[i + 1] in predecessor && predecessor[path[i + 1]] == path[i]
  }

  /** `path` runs without repetition along tree edges. */
  ghost predicate IsTreePath(edges: set<(nat, nat)>, predecessor: map<nat, nat>, path: seq<nat>) {
    Distinct(path) && forall i: nat :: i + 1 < |path| ==> IsTreeEdge(edges, predecessor, path, i)
  }

  lemma ExtendTreePath(edges: set<(nat, nat)>, predecessor: map<nat, nat>, path: seq<nat>, u: nat)
    requires IsTreePath(edges, predecessor, path) && u !in path
    requires path != [] ==> IsTreeEdge(edges, predecessor, [path[|path| - 1], u], 0)
    ensures IsTreePath(edges, predecessor, path + [u])
  {
    var longer := path + [u];
    forall i: nat | i + 1 < |longer| ensures IsTreeEdge(edges, predecessor, longer, i) {
      if i + 1 < |path| {
        assert IsTreeEdge(edges, predecessor, path, i);
      }
    }
  }

  lemma ShortenTreePath(edges: set<(nat, nat)>, predecessor: map<nat, nat>, path: seq<nat>, u: nat)
    requires IsTreePath(edges, predecessor, path + [u])
    ensures IsTreePath(edges, predecessor, path) && u !in path
  {
    var longer := path + [u];
    forall i, j | 0 <= i < j < |path| ensures path[i] != path[j] {
      assert longer[i] != longer[j];
    }
    forall i | 0 <= i < |path| ensures path[i] != u {
      assert longer[i] != longer[|path|];
    }
    forall i: nat | i + 1 < |path| ensures IsTreeEdge(edges, predecessor, path, i) {
      assert IsTreeEdge(edges, predecessor, longer, i);
    }
  }

  lemma RecordOffPath(edges: set<(nat, nat)>, predecessor: map<nat, nat>, path: seq<nat>, v: nat, u: nat)
    requires IsTreePath(edges, predecessor, path) && v !in path
    ensures IsTreePath(edges, predecessor[v := u], path)
  {
    var updated := predecessor[v := u];
    forall i: nat | i + 1 < |path| ensures IsTreeEdge(edges, updated, path, i) {
      assert IsTreeEdge(edges, predecessor, path, i);
    }
  }

  lemma CloseTreePath(edges: set<(nat, nat)>, predecessor: map<nat, nat>, path: seq<nat>, k: nat, v: nat)
    requires IsTreePath(edges, predecessor, path)
    requires k < |path| && path[k] == v && (path[|path| - 1], v) in edges
    ensures IsCyclePath(edges, path[k..] + [v])
  {
    var cycle := path[k..] + [v];
    forall i: nat | i + 1 < |cycle| ensures IsStep(edges, cycle, i) {
      if i + 2 < |cycle| {
        assert IsTreeEdge(edges, predecessor, path, k + i);
      }
    }
  }

  lemma ReverseOneMore(path: seq<nat>, k: nat)
    requires 0 < k < |path|
    ensures Reversed(path[k..]) + [path[k - 1]] == Reversed(path[k - 1..])
  {
    assert path[k - 1..] == [path[k - 1]] + path[k..];
  }

  lemma ReversedTwice(path: seq<nat>)
    ensures Reversed(Reversed(path)) == path
  {
  }

  /** Edges leaving finished nodes end in nodes that finished earlier. */
  ghost predicate IsFinishOrder(edges: set<(nat, nat)>, finished: set<nat>, rank: map<nat, nat>, clock: nat) {
    && (forall v :: v in rank <==> v in finished)
    && (forall v :: v in rank ==> rank[v] < clock)
    && (forall u, v {:trigger (u, v) in edges} :: (u, v) in edges && u in finished ==> v in finished && rank[v] < rank[u])
  }

  /** What holds between the marks of a search while the nodes of `path` are being visited. */
  ghost predicate IsSearching(edges: set<(nat, nat)>, discovered: set<nat>, finished: set<nat>,
                              predecessor: map<nat, nat>, rank: map<nat, nat>, clock: nat, path: seq<nat>)
  {
    && (forall v :: v in discovered <==> v in finished || v in path)
    && (forall v :: v in path ==> v !in finished)
    && IsTreePath(edges, predecessor, path)
    && IsFinishOrder(edges, finished, rank, clock)
  }

  lemma Discover(edges: set<(nat, nat)>, discovered: set<nat>, finished: set<nat>,
                 predecessor: map<nat, nat>, rank: map<nat, nat>, clock: nat, path: seq<nat>, u: nat)
    requires IsSearching(edges, discovered, finished, predecessor, rank, clock, path) && u !in discovered
    requires path != [] ==> IsTreeEdge(edges, predecessor, [path[|path| - 1], u], 0)
    ensures IsSearching(edges, discovered + {u}, finished, predecessor, rank, clock, path + [u])
  {
    ExtendTreePath(edges, predecessor, path, u);
  }

  lemma Retire(edges: set<(nat, nat)>, discovered: set<nat>, finished: set<nat>,
               predecessor: map<nat, nat>, rank: map<nat, nat>, clock: nat, path: seq<nat>, u: nat)
    requires IsSearching(edges, discovered, finished, predecessor, rank, clock, path + [u])
    requires forall v :: (u, v) in edges ==> v in finished
    ensures IsSearching(edges, discovered, finished + {u}, predecessor, rank[u := clock], clock + 1, path)
  {
    ShortenTreePath(edges, predecessor, path, u);
    assert (path + [u])[|path|] == u;
    assert forall v :: v in path ==> v in path + [u];
  }

  /** The state of one depth-first search and the predecessor map its visitor fills. */
  class CycleSearch<N> {
    const graph: Graph<N>
    ghost const edges: set<(nat, nat)>
    var discovered: set<nat>
    var finished: set<nat>
    var predecessor: map<nat, nat>
    /** When each node finished; it shows that edges between finished nodes form no cycle. */
    ghost var rank: map<nat, nat>
    ghost var clock: nat

    constructor (graph: Graph<N>)
      ensures this.graph == graph && Valid([])
    {
      this.graph := graph;
      this.edges := graph.EdgeSet();
      discovered, finished, predecessor, rank, clock := {}, {}, map[], map[], 0;
    }

    /** `path` lists the nodes whose visit is under way, outermost first. */
    ghost predicate Valid(path: seq<nat>)
      reads this
    {
      && edges == graph.EdgeSet()
      && discovered <= Below(|graph.nodes|)
      && IsSearching(edges, discovered, finished, predecessor, rank, clock, path)
    }

    /** Walks the predecessor chain from `u` back to its ancestor `v` and closes the loop. */
    method CloseCycle(u: nat, v: nat, ghost path: seq<nat>, ghost target: nat) returns (cycle: seq<nat>)
      requires IsTreePath(edges, predecessor, path) && path != [] && path[|path| - 1] == u
      requires target < |path| && path[target] == v && (u, v) in edges
      ensures IsCyclePath(edges, cycle)
    {
      ghost var k := |path| - 1;
      cycle := [u];
      var current := u;
      while current != v
        invariant target <= k < |path| && current == path[k]
        invariant cycle == Reversed(path[k..])
        decreases k
      {
        assert IsTreeEdge(edges, predecessor, path, k - 1);
        ReverseOneMore(path, k);
        current := predecessor[current];
        k := k - 1;
        cycle := cycle + [current];
      }
      ReversedTwice(path[k..]);
      CloseTreePath(edges, predecessor, path, k, v);
      cycle := Reversed(cycle);
      cycle := cycle + [v];
    }

    /** Handles the edge `u -> v` met while the innermost visit of `path` is at `u`. */
    method Follow(u: nat, v: nat, ghost path: seq<nat>) returns (cycle: Option<seq<nat>>)
      requires Valid(path) && path != [] && path[|path| - 1] == u && (u, v) in edges
      modifies this
      ensures cycle.Some? ==> IsCyclePath(edges, cycle.value)
      ensures cycle.None? ==> Valid(path) && v in finished
      ensures cycle.None? ==> old(discovered) <= discovered && old(finished) <= finished
      decreases Below(|graph.nodes|) - discovered, 1
    {
      if v !in discovered {
        RecordOffPath(edges, predecessor, path, v, u);
        predecessor := predecessor[v := u];
        cycle := Visit(v, path);
      } else if v !in finished {
        ghost var target :| 0 <= target < |path| && path[target] == v;
        var closed := CloseCycle(u, v, path, target);
        cycle := Some(closed);
      } else {
        cycle := None;
      }
    }

    method Targets(u: nat) returns (targets: seq<nat>)
      requires edges == graph.EdgeSet()
      ensures forall v :: v in targets <==> (u, v) in edges
    {
      targets := graph.Neighbors(u);
    }

    method FollowAll(u: nat, targets: seq<nat>, ghost path: seq<nat>) returns (cycle: Option<seq<nat>>)
      requires Valid(path) && path != [] && path[|path| - 1] == u
      requires forall v :: v in targets ==> (u, v) in edges
      modifies this
      ensures cycle.Some? ==> IsCyclePath(edges, cycle.value)
      ensures cycle.None? ==> Valid(path) && forall v :: v in targets ==> v in finished
      ensures cycle.None? ==> old(discovered) <= discovered && old(finished) <= finished
      decreases Below(|graph.nodes|) - discovered, 2
    {
      for i := 0 to |targets|
        invariant Valid(path) && old(discovered) <= discovered && old(finished) <= finished
        invariant forall v :: v in targets[..i] ==> v in finished
      {
        ghost var done := finished;
        cycle := Follow(u, targets[i], path);
        if cycle.Some? {
          return;
        }
        assert targets[..i + 1] == targets[..i] + [targets[i]];
        assert forall v :: v in targets[..i] ==> v in done;
      }
      assert targets[..|targets|] == targets;
      return None;
    }

    /** Visits `u` below the nodes of `path`, stopping at the first edge back into the path. */
    method Visit(u: nat, ghost path: seq<nat>) returns (cycle: Option<seq<nat>>)
      requires Valid(path) && u < |graph.nodes| && u !in path
      requires path != [] && u !in discovered ==> IsTreeEdge(edges, predecessor, [path[|path| - 1], u], 0)
      modifies this
      ensures cycle.Some? ==> IsCyclePath(edges, cycle.value)
      ensures cycle.None? ==> Valid(path) && u in finished
      ensures cycle.None? ==> old(discovered) <= discovered && old(finished) <= finished
      decreases Below(|graph.nodes|) - discovered, 0
    {
      if u in discovered {
        return None;
      }
      ghost var below := path + [u];
      Discover(edges, discovered, finished, predecessor, rank, clock, path, u);
      discovered := discovered + {u};
      var targets := Targets(u);
      cycle := FollowAll(u, targets, below);
      if cycle.Some? {
        return;
      }
      Retire(edges, discovered, finished, predecessor, rank, clock, path, u);
      rank, clock := rank[u := clock], clock + 1;
      finished := finished + {u};
      return None;
    }
  }

  /** A cycle of the graph if it has one: the first back edge of a search from every node. */
  method FindCyclePath<N>(graph: Graph<N>) returns (cycle: Option<seq<nat>>)
    ensures cycle.Some? ==> IsCyclePath(graph.EdgeSet(), cycle.value)
    ensures cycle.None? <==> IsAcyclic(graph)
  {
    var search := new CycleSearch(graph);
    for start := 0 to |graph.nodes|
      invariant search.graph == graph && search.Valid([])
      invariant Below(start) <= search.finished
    {
      cycle := search.Visit(start, []);
      if cycle.Some? {
        assert IsWalkBetween(graph.EdgeSet(), cycle.value, cycle.value[0], cycle.value[0]);
        assert Joined(graph.EdgeSet(), cycle.value[0], cycle.value[0]);
        return;
      }
    }
    RankMakesAcyclic(graph.EdgeSet(), search.rank);
    return None;
  }
}
