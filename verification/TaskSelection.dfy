/** From selected packages to the tasks that are planned: packages without the task are bridged, then `dependsOn` is followed. */
module TaskSelection {
  import opened Wrappers
  import opened Digraph
  import opened ExecutionGraph
  import opened QueryGraph

  // ---------------------------------------------------------------- bridging packages

  /** The packages before and behind a package. */
  function Sources(edges: seq<(nat, nat)>, p: nat): (sources: seq<nat>)
    ensures forall a :: a in sources <==> (a, p) in edges
  {
    if edges == [] then []
    else
      assert edges == [edges[0]] + edges[1..];
      (if edges[0].1 == p then [edges[0].0] else []) + Sources(edges[1..], p)
  }

  function Targets(edges: seq<(nat, nat)>, p: nat): (targets: seq<nat>)
    ensures forall b :: b in targets <==> (p, b) in edges
  {
    if edges == [] then []
    else
      assert edges == [edges[0]] + edges[1..];
      (if edges[0].0 == p then [edges[0].1] else []) + Targets(edges[1..], p)
  }

  /** What is left of the edges when a node is removed. */
  function Without(edges: seq<(nat, nat)>, p: nat): (left: seq<(nat, nat)>)
    ensures forall e :: e in left <==> e in edges && e.0 != p && e.1 != p
  {
    if edges == [] then []
    else
      assert edges == [edges[0]] + edges[1..];
      (if edges[0].0 != p && edges[0].1 != p then [edges[0]] else []) + Without(edges[1..], p)
  }

  ghost function EdgesOf(edges: seq<(nat, nat)>): set<(nat, nat)> {
    set e | e in edges
  }

  /** Connects every predecessor of `p` to every successor. */
  method Bridge(edges: seq<(nat, nat)>, p: nat) returns (bridged: seq<(nat, nat)>)
    ensures forall e :: e in bridged <==> e in edges || ((e.0, p) in edges && (p, e.1) in edges)
  {
    var preds, succs := Sources(edges, p), Targets(edges, p);
    bridged := edges;
    for i := 0 to |preds|
      invariant forall e :: e in bridged <==> e in edges || (e.0 in preds[..i] && e.1 in succs)
    {
      assert preds[..i + 1] == preds[..i] + [preds[i]];
      for j := 0 to |succs|
        invariant forall e :: e in bridged <==>
                    e in edges || (e.0 in preds[..i] && e.1 in succs) || (e.0 == preds[i] && e.1 in succs[..j])
      {
        assert succs[..j + 1] == succs[..j] + [succs[j]];
        if (preds[i], succs[j]) !in bridged {
          bridged := bridged + [(preds[i], succs[j])];
        }
      }
      assert succs[..|succs|] == succs;
    }
    assert preds[..|preds|] == preds;
  }

  lemma BridgedIsContracted(edges: seq<(nat, nat)>, bridged: seq<(nat, nat)>, p: nat)
    requires forall e :: e in bridged <==> e in edges || ((e.0, p) in edges && (p, e.1) in edges)
    ensures EdgesOf(Without(bridged, p)) == Contract(EdgesOf(edges), p)
  {
    forall e ensures e in EdgesOf(Without(bridged, p)) <==> e in Contract(EdgesOf(edges), p) {
      if e in Without(bridged, p) && e !in edges {
        var before, behind := (e.0, p), (p, e.1);
        assert before in EdgesOf(edges) && behind in EdgesOf(edges);
      }
    }
  }

  /** Looking up a task loads its package, which may fail. */
  datatype Lookup = Unloadable | Missing | Present

  /** The packages of the subgraph that lack the task, in the order they are visited. */
  function Lacking(nodes: seq<nat>, having: set<nat>): (lacking: seq<nat>)
    ensures forall p :: p in lacking <==> p in nodes && p !in having
  {
    if nodes == [] then []
    else
      var init, last := nodes[..|nodes| - 1], nodes[|nodes| - 1];
      assert nodes == init + [last];
      Lacking(init, having) + if last in having then [] else [last]
  }

  /** Bridges and removes every package without the task, each in the graph the earlier ones left. */
  method BridgeLacking(nodes: seq<nat>, edges: seq<(nat, nat)>, having: set<nat>) returns (subgraph: seq<(nat, nat)>)
    requires forall e :: e in edges ==> e.0 in nodes && e.1 in nodes
    ensures EdgesOf(subgraph) == ContractAll(EdgesOf(edges), Lacking(nodes, having))
    ensures forall e :: e in subgraph ==> e.0 in having && e.1 in having
  {
    subgraph := edges;
    for i := 0 to |nodes|
      invariant IsContracted(nodes, having, i, edges, subgraph)
      invariant AreEdgesLeft(nodes, having, i, subgraph)
    {
      if nodes[i] in having {
        VisitedStays(nodes, having, i, edges, subgraph);
        continue;
      }
      var bridged := Bridge(subgraph, nodes[i]);
      BridgedStep(nodes, having, i, edges, subgraph, bridged);
      BridgedAreLeft(nodes, having, i, subgraph, bridged);
      subgraph := Without(bridged, nodes[i]);
    }
    assert nodes[..|nodes|] == nodes;
  }

  ghost predicate AreEdgesLeft(nodes: seq<nat>, having: set<nat>, i: nat, subgraph: seq<(nat, nat)>)
    requires i <= |nodes|
  {
    forall e :: e in subgraph ==> IsLeft(nodes, having, i, e.0) && IsLeft(nodes, having, i, e.1)
  }

  ghost predicate IsContracted(nodes: seq<nat>, having: set<nat>, i: nat, edges: seq<(nat, nat)>, subgraph: seq<(nat, nat)>)
    requires i <= |nodes|
  {
    EdgesOf(subgraph) == ContractAll(EdgesOf(edges), Lacking(nodes[..i], having))
  }

  lemma VisitedStays(nodes: seq<nat>, having: set<nat>, i: nat, edges: seq<(nat, nat)>, subgraph: seq<(nat, nat)>)
    requires i < |nodes| && nodes[i] in having
    requires AreEdgesLeft(nodes, having, i, subgraph) && IsContracted(nodes, having, i, edges, subgraph)
    ensures AreEdgesLeft(nodes, having, i + 1, subgraph) && IsContracted(nodes, having, i + 1, edges, subgraph)
  {
    LackingStep(nodes, having, i);
  }

  lemma BridgedStep(nodes: seq<nat>, having: set<nat>, i: nat, edges: seq<(nat, nat)>,
                    subgraph: seq<(nat, nat)>, bridged: seq<(nat, nat)>)
    requires i < |nodes| && nodes[i] !in having && IsContracted(nodes, having, i, edges, subgraph)
    requires forall e :: e in bridged <==> e in subgraph || ((e.0, nodes[i]) in subgraph && (nodes[i], e.1) in subgraph)
    ensures IsContracted(nodes, having, i + 1, edges, Without(bridged, nodes[i]))
  {
    LackingStep(nodes, having, i);
    BridgedIsContracted(subgraph, bridged, nodes[i]);
    ContractNext(EdgesOf(edges), Lacking(nodes[..i], having), nodes[i]);
  }

  lemma BridgedAreLeft(nodes: seq<nat>, having: set<nat>, i: nat, subgraph: seq<(nat, nat)>, bridged: seq<(nat, nat)>)
    requires i < |nodes| && AreEdgesLeft(nodes, having, i, subgraph)
    requires forall e :: e in bridged ==> e in subgraph || ((e.0, nodes[i]) in subgraph && (nodes[i], e.1) in subgraph)
    ensures AreEdgesLeft(nodes, having, i + 1, Without(bridged, nodes[i]))
  {
    LackingStep(nodes, having, i);
    forall e | e in Without(bridged, nodes[i])
      ensures IsLeft(nodes, having, i + 1, e.0) && IsLeft(nodes, having, i + 1, e.1)
    {
      var before, behind := (e.0, nodes[i]), (nodes[i], e.1);
      assert e in subgraph || (before in subgraph && behind in subgraph);
    }
  }

  /** A package that is still in the graph when the first `i` have been visited. */
  ghost predicate IsLeft(nodes: seq<nat>, having: set<nat>, i: nat, p: nat)
    requires i <= |nodes|
  {
    p in having || p in nodes[i..]
  }

  lemma LackingStep(nodes: seq<nat>, having: set<nat>, i: nat)
    requires i < |nodes|
    ensures nodes[i] in having ==> Lacking(nodes[..i + 1], having) == Lacking(nodes[..i], having)
    ensures nodes[i] !in having ==> Lacking(nodes[..i + 1], having) == Lacking(nodes[..i], having) + [nodes[i]]
    ensures forall p :: IsLeft(nodes, having, i, p) ==> p == nodes[i] || IsLeft(nodes, having, i + 1, p)
  {
    assert nodes[..i + 1][..i] == nodes[..i];
    assert nodes[i..] == [nodes[i]] + nodes[i + 1..];
  }

  lemma ContractNext(edges: set<(nat, nat)>, ts: seq<nat>, t: nat)
    ensures ContractAll(edges, ts + [t]) == Contract(ContractAll(edges, ts), t)
  {
    assert (ts + [t])[..|ts|] == ts;
  }

  // ---------------------------------------------------------------- from packages to tasks

  datatype Queried = Queried(dependencies: set<TaskId>, requested: bool)
  type Tasks = map<TaskId, Queried>

  ghost function DependencyEdges(tasks: Tasks): (edges: set<(TaskId, TaskId)>)
    ensures forall a, b {:trigger (a, b) in edges} :: (a, b) in edges <==> a in tasks && b in tasks[a].dependencies
  {
    set a, b | a in tasks && b in tasks[a].dependencies :: (a, b)
  }

  /** Every dependency is itself in the map. */
  ghost predicate IsClosed(tasks: Tasks) {
    forall a, b :: a in tasks && b in tasks[a].dependencies ==> b in tasks
  }

  function TaskOf(name: string): nat -> TaskId {
    (p: nat) => TaskId(p, name)
  }

  function PackageOf(): TaskId -> nat {
    (id: TaskId) => id.package
  }

  /** A task the query names. */
  predicate IsSelected(nodes: seq<nat>, name: string, lookup: TaskId -> Lookup, id: TaskId) {
    id.name == name && id.package in nodes && lookup(id) == Present
  }

  /** The tasks of the selected packages: all requested, ordered like their packages. */
  ghost predicate IsMapped(nodes: seq<nat>, edges: set<(nat, nat)>, name: string, lookup: TaskId -> Lookup, tasks: Tasks) {
    && (forall id :: id in tasks <==> IsSelected(nodes, name, lookup, id))
    && (forall id :: id in tasks ==> tasks[id].requested)
    && IsClosed(tasks)
    && forall a, b :: a in tasks && b in tasks ==> (Joined(DependencyEdges(tasks), a, b) <==> Joined(edges, a.package, b.package))
  }

  method MapSubgraphToTasks(nodes: seq<nat>, edges: seq<(nat, nat)>, name: string, lookup: TaskId -> Lookup) returns (r: Option<Tasks>)
    requires forall e :: e in edges ==> e.0 in nodes && e.1 in nodes
    ensures r.Some? <==> forall p :: p in nodes ==> lookup(TaskId(p, name)) != Unloadable
    ensures r.Some? ==> IsMapped(nodes, EdgesOf(edges), name, lookup, r.value)
  {
    var having: set<nat> := {};
    for i := 0 to |nodes|
      invariant forall p :: p in having <==> p in nodes[..i] && lookup(TaskId(p, name)) == Present
      invariant forall p :: p in nodes[..i] ==> lookup(TaskId(p, name)) != Unloadable
    {
      assert nodes[..i + 1] == nodes[..i] + [nodes[i]];
      var found := lookup(TaskId(nodes[i], name));
      if found == Unloadable {
        assert nodes[i] in nodes;
        return None;
      }
      if found == Present {
        having := having + {nodes[i]};
      }
    }
    assert nodes[..|nodes|] == nodes;
    var subgraph := BridgeLacking(nodes, edges, having);
    var tasks := AddEdges(name, having, subgraph);
    forall a, b | a in tasks && b in tasks
      ensures Joined(DependencyEdges(tasks), a, b) <==> Joined(EdgesOf(edges), a.package, b.package)
    {
      RenamingPreservesJoined(EdgesOf(subgraph), DependencyEdges(tasks), TaskOf(name), PackageOf(), a.package, b.package);
      ContractAllPreservesJoined(EdgesOf(edges), Lacking(nodes, having), a.package, b.package);
    }
    r := Some(tasks);
  }

  /** One task for every package left, and one dependency for every edge; all edges are between such packages. */
  method AddEdges(name: string, having: set<nat>, subgraph: seq<(nat, nat)>) returns (tasks: Tasks)
    requires forall e :: e in subgraph ==> e.0 in having && e.1 in having
    ensures forall id :: id in tasks <==> id.name == name && id.package in having
    ensures forall id :: id in tasks ==> tasks[id].requested
    ensures IsClosed(tasks)
    ensures Renames(EdgesOf(subgraph), DependencyEdges(tasks), TaskOf(name))
    ensures Renames(DependencyEdges(tasks), EdgesOf(subgraph), PackageOf())
  {
    tasks := map p | p in having :: TaskId(p, name) := Queried({}, true);
    for k := 0 to |subgraph|
      invariant forall id :: id in tasks <==> id.name == name && id.package in having
      invariant forall id :: id in tasks ==> tasks[id].requested
      invariant forall a, b :: a in tasks && b in tasks[a].dependencies ==> b.name == name && (a.package, b.package) in subgraph[..k]
      invariant forall p, q :: (p, q) in subgraph[..k] ==>
                  TaskId(p, name) in tasks && TaskId(q, name) in tasks[TaskId(p, name)].dependencies
    {
      assert subgraph[..k + 1] == subgraph[..k] + [subgraph[k]];
      assert subgraph[k] in subgraph;
      var src, dst := TaskId(subgraph[k].0, name), TaskId(subgraph[k].1, name);
      tasks := tasks[src := tasks[src].(dependencies := tasks[src].dependencies + {dst})];
    }
    assert subgraph[..|subgraph|] == subgraph;
  }

  // ---------------------------------------------------------------- following dependsOn

  /** What the loaded graph lists for a task; nothing if its package cannot be loaded. */
  type Listing = TaskId -> Option<seq<TaskId>>

  function Listed(dependsOn: Listing, id: TaskId): seq<TaskId> {
    if dependsOn(id).Some? then dependsOn(id).value else []
  }

  /** The `dependsOn` edges among finitely many tasks. */
  ghost function ListedEdges(dependsOn: Listing, universe: set<TaskId>): (edges: set<(TaskId, TaskId)>)
    ensures forall a, b {:trigger (a, b) in edges} :: (a, b) in edges <==> a in universe && b in universe && b in Listed(dependsOn, a)
  {
    set a, b | a in universe && b in universe && b in Listed(dependsOn, a) :: (a, b)
  }

  /** A selected task, or one such a task depends on directly or through others. */
  ghost predicate IsReached(tasks: Tasks, edges: set<(TaskId, TaskId)>, id: TaskId) {
    id in tasks || exists start :: start in tasks && Joined(edges, start, id)
  }

  ghost predicate AreListedIn(dependsOn: Listing, universe: set<TaskId>) {
    forall a, b :: b in Listed(dependsOn, a) ==> b in universe
  }

  function Elements(ids: seq<TaskId>): set<TaskId> {
    set id | id in ids
  }

  /** The entry of a task that was found: what it had, and what `dependsOn` adds once it has been expanded. */
  ghost function EntryOf(tasks: Tasks, dependsOn: Listing, id: TaskId, expanded: bool): Queried {
    Queried((if id in tasks then tasks[id].dependencies else {}) + (if expanded then Elements(Listed(dependsOn, id)) else {}),
            id in tasks && tasks[id].requested)
  }

  /** The reached tasks, each with its own and its listed dependencies; only those selected before are requested. */
  ghost predicate IsExpansion(tasks: Tasks, dependsOn: Listing, edges: set<(TaskId, TaskId)>, all: Tasks) {
    && (forall id :: id in all <==> IsReached(tasks, edges, id))
    && (forall id :: id in all ==> all[id] == EntryOf(tasks, dependsOn, id, true))
  }

  /** A bound on what can be found: the selected tasks and everything listed by a task in it. */
  ghost predicate Bounds(tasks: Tasks, dependsOn: Listing, bound: set<TaskId>) {
    tasks.Keys <= bound && forall a, b :: a in bound && b in Listed(dependsOn, a) ==> b in bound
  }

  /** Half-way: `expanded` tasks are done, and the others that were found wait in `pending`. */
  ghost predicate IsFrontier(tasks: Tasks, dependsOn: Listing, bound: set<TaskId>,
                             all: Tasks, expanded: set<TaskId>, pending: seq<TaskId>)
  {
    && Distinct(pending)
    && (forall id :: id in all <==> id in expanded || id in pending)
    && (forall id :: id in pending ==> id !in expanded)
    && (forall id :: id in all ==> all[id] == EntryOf(tasks, dependsOn, id, id in expanded))
    && (forall id :: id in tasks ==> id in all) && all.Keys <= bound
    && (forall id :: id in expanded ==> IsExpandedIn(dependsOn, all, id))
  }

  ghost predicate IsExpandedIn(dependsOn: Listing, all: Tasks, id: TaskId) {
    dependsOn(id).Some? && forall d :: d in dependsOn(id).value ==> d in all
  }

  /** Follows `dependsOn` from the selected tasks, breadth first, until nothing new is found. */
  method AddDependencies(tasks: Tasks, dependsOn: Listing, ghost universe: set<TaskId>) returns (r: Option<Tasks>)
    requires tasks.Keys <= universe && AreListedIn(dependsOn, universe) && IsClosed(tasks)
    ensures r.Some? ==> IsExpansion(tasks, dependsOn, ListedEdges(dependsOn, universe), r.value) && IsClosed(r.value)
    ensures r.None? <==> exists id :: IsReached(tasks, ListedEdges(dependsOn, universe), id) && dependsOn(id).None?
  {
    ghost var reached := ReachedAmong(tasks, dependsOn, universe);
    ReachedBounds(tasks, dependsOn, universe);
    var all := tasks;
    var frontier := Order(tasks.Keys);
    ghost var expanded: set<TaskId> := {};
    while frontier != []
      invariant expanded <= reached && IsFrontier(tasks, dependsOn, reached, all, expanded, frontier)
      decreases reached - expanded
    {
      ghost var first := frontier[0];
      assert first in frontier && first !in expanded;
      var more;
      more, frontier, expanded := ExpandFrontier(tasks, dependsOn, reached, all, expanded, frontier);
      if more.None? {
        return None;
      }
      all := more.value;
      assert first in expanded;
    }
    AllIsReached(tasks, dependsOn, universe, all, expanded);
    r := Some(all);
  }

  /** Expands every task of the frontier; what is found new is the next one. */
  method ExpandFrontier(ghost tasks: Tasks, dependsOn: Listing, ghost bound: set<TaskId>, all: Tasks,
                        ghost expanded: set<TaskId>, frontier: seq<TaskId>)
    returns (r: Option<Tasks>, next: seq<TaskId>, ghost after: set<TaskId>)
    requires Bounds(tasks, dependsOn, bound) && expanded <= bound
    requires IsFrontier(tasks, dependsOn, bound, all, expanded, frontier)
    ensures r.None? ==> exists id :: id in bound && dependsOn(id).None?
    ensures r.Some? ==> after <= bound && IsFrontier(tasks, dependsOn, bound, r.value, after, next)
    ensures r.Some? ==> expanded <= after && AreExpanded(frontier, |frontier|, after)
  {
    next, after := [], expanded;
    r := Some(all);
    assert frontier[0..] + [] == frontier;
    for i := 0 to |frontier|
      invariant r.Some? && expanded <= after <= bound && AreExpanded(frontier, i, after)
      invariant IsFrontier(tasks, dependsOn, bound, r.value, after, frontier[i..] + next)
    {
      r, next := ExpandNext(tasks, dependsOn, bound, r.value, after, frontier, i, next);
      if r.None? {
        return;
      }
      after := after + {frontier[i]};
    }
    assert frontier[|frontier|..] + next == next;
  }

  ghost predicate AreExpanded(frontier: seq<TaskId>, n: nat, expanded: set<TaskId>) {
    forall k :: 0 <= k < n && k < |frontier| ==> frontier[k] in expanded
  }

  method ExpandNext(ghost tasks: Tasks, dependsOn: Listing, ghost bound: set<TaskId>, all: Tasks,
                    ghost expanded: set<TaskId>, frontier: seq<TaskId>, i: nat, next: seq<TaskId>)
    returns (r: Option<Tasks>, later: seq<TaskId>)
    requires Bounds(tasks, dependsOn, bound) && i < |frontier|
    requires IsFrontier(tasks, dependsOn, bound, all, expanded, frontier[i..] + next)
    ensures r.None? ==> exists id :: id in bound && dependsOn(id).None?
    ensures r.Some? ==> frontier[i] in bound
                        && IsFrontier(tasks, dependsOn, bound, r.value, expanded + {frontier[i]}, frontier[i + 1..] + later)
  {
    ghost var rest := frontier[i + 1..] + next;
    TakeFirst(frontier, i, next);
    assert frontier[i] in [frontier[i]] + rest;
    var found;
    r, found := ExpandOne(tasks, dependsOn, bound, all, expanded, frontier[i], rest);
    later := next + found;
    assert rest + found == frontier[i + 1..] + later;
  }

  lemma TakeFirst(frontier: seq<TaskId>, i: nat, next: seq<TaskId>)
    requires i < |frontier|
    ensures frontier[i..] + next == [frontier[i]] + (frontier[i + 1..] + next)
  {
  }

  method ExpandOne(ghost tasks: Tasks, dependsOn: Listing, ghost bound: set<TaskId>, all: Tasks,
                   ghost expanded: set<TaskId>, from: TaskId, ghost rest: seq<TaskId>)
    returns (r: Option<Tasks>, found: seq<TaskId>)
    requires Bounds(tasks, dependsOn, bound) && from in all
    requires IsFrontier(tasks, dependsOn, bound, all, expanded, [from] + rest)
    ensures r.None? ==> from in bound && dependsOn(from).None?
    ensures r.Some? ==> IsFrontier(tasks, dependsOn, bound, r.value, expanded + {from}, rest + found)
  {
    var listed := dependsOn(from);
    if listed.None? {
      return None, [];
    }
    var more;
    more, found := Expand(all, from, listed.value);
    ExpandedStep(tasks, dependsOn, bound, all, expanded, from, rest, more, found);
    r := Some(more);
  }

  /** The keys of a map in some order, each once. */
  method Order(ids: set<TaskId>) returns (ordered: seq<TaskId>)
    ensures Distinct(ordered) && forall id :: id in ordered <==> id in ids
  {
    ordered := [];
    var todo := ids;
    while todo != {}
      invariant Distinct(ordered) && todo <= ids
      invariant forall id :: id in ordered <==> id in ids && id !in todo
      decreases todo
    {
      var id :| id in todo;
      DistinctPlus(ordered, id);
      ordered, todo := ordered + [id], todo - {id};
    }
  }

  lemma DistinctPlus(ids: seq<TaskId>, id: TaskId)
    requires Distinct(ids) && id !in ids
    ensures Distinct(ids + [id])
  {
  }

  /** `more` is `all` with the dependencies of one task added, and the tasks among them that are new. */
  ghost predicate IsExpanded(all: Tasks, from: TaskId, listed: seq<TaskId>, more: Tasks, found: seq<TaskId>)
    requires from in all
  {
    && Distinct(found) && (forall id :: id in found <==> id in listed && id !in all)
    && (forall id :: id in more <==> id in all || id in found)
    && (forall id :: id in more ==> more[id] == MoreOf(all, from, listed, id))
  }

  function MoreOf(all: Tasks, from: TaskId, listed: seq<TaskId>, id: TaskId): Queried
    requires from in all
  {
    if id == from then Queried(all[from].dependencies + Elements(listed), all[from].requested)
    else if id in all then all[id]
    else Queried({}, false)
  }

  method Expand(all: Tasks, from: TaskId, listed: seq<TaskId>) returns (more: Tasks, found: seq<TaskId>)
    requires from in all
    ensures IsExpanded(all, from, listed, more, found)
  {
    more, found := all, [];
    for k := 0 to |listed|
      invariant IsExpanded(all, from, listed[..k], more, found)
    {
      var dependency := listed[k];
      assert listed[..k + 1] == listed[..k] + [dependency];
      assert Elements(listed[..k + 1]) == Elements(listed[..k]) + {dependency};
      if dependency !in more {
        more := more[dependency := Queried({}, false)];
        DistinctPlus(found, dependency);
        found := found + [dependency];
      }
      more := more[from := more[from].(dependencies := more[from].dependencies + {dependency})];
    }
    assert listed[..|listed|] == listed;
  }

  ghost function ReachedAmong(tasks: Tasks, dependsOn: Listing, universe: set<TaskId>): set<TaskId> {
    set id | id in universe && IsReached(tasks, ListedEdges(dependsOn, universe), id)
  }

  /** What a reached task lists is reached. */
  lemma ReachedBounds(tasks: Tasks, dependsOn: Listing, universe: set<TaskId>)
    requires tasks.Keys <= universe && AreListedIn(dependsOn, universe)
    ensures Bounds(tasks, dependsOn, ReachedAmong(tasks, dependsOn, universe))
  {
    var edges, reached := ListedEdges(dependsOn, universe), ReachedAmong(tasks, dependsOn, universe);
    forall a, b | a in reached && b in Listed(dependsOn, a) ensures b in reached {
      EdgeJoins(edges, a, b);
      if a !in tasks {
        var start :| start in tasks && Joined(edges, start, a);
        JoinedTransitive(edges, start, a, b);
      }
    }
  }

  /** Expanding the first pending task. */
  lemma ExpandedStep(tasks: Tasks, dependsOn: Listing, bound: set<TaskId>, all: Tasks, expanded: set<TaskId>,
                     from: TaskId, rest: seq<TaskId>, more: Tasks, found: seq<TaskId>)
    requires Bounds(tasks, dependsOn, bound) && from in all
    requires IsFrontier(tasks, dependsOn, bound, all, expanded, [from] + rest)
    requires dependsOn(from).Some? && IsExpanded(all, from, dependsOn(from).value, more, found)
    ensures IsFrontier(tasks, dependsOn, bound, more, expanded + {from}, rest + found)
  {
    var pending := [from] + rest;
    assert pending[0] == from && pending[1..] == rest;
    assert forall id :: id in pending <==> id == from || id in rest;
    StillDistinct(pending, rest, found, all);
    FromIsDone(pending, from, rest);
    forall id | id in more
      ensures id in bound && more[id] == EntryOf(tasks, dependsOn, id, id in expanded + {from})
    {
      EntryIsRight(tasks, dependsOn, bound, all, expanded, from, more, found, id);
    }
    forall id | id in expanded + {from} ensures IsExpandedIn(dependsOn, more, id) {
      if id != from {
        assert IsExpandedIn(dependsOn, all, id);
      }
    }
  }

  lemma EntryIsRight(tasks: Tasks, dependsOn: Listing, bound: set<TaskId>, all: Tasks, expanded: set<TaskId>,
                     from: TaskId, more: Tasks, found: seq<TaskId>, id: TaskId)
    requires Bounds(tasks, dependsOn, bound) && all.Keys <= bound && from in all && from !in expanded
    requires forall id :: id in all ==> all[id] == EntryOf(tasks, dependsOn, id, id in expanded)
    requires (forall id :: id in tasks ==> id in all) && (forall id :: id in expanded ==> id in all)
    requires dependsOn(from).Some? && IsExpanded(all, from, dependsOn(from).value, more, found) && id in more
    ensures id in bound && more[id] == EntryOf(tasks, dependsOn, id, id in expanded + {from})
  {
    assert more[id] == MoreOf(all, from, dependsOn(from).value, id);
    if id in all {
      assert all[id] == EntryOf(tasks, dependsOn, id, id in expanded);
    } else {
      assert id in Listed(dependsOn, from);
    }
  }

  lemma StillDistinct(pending: seq<TaskId>, rest: seq<TaskId>, found: seq<TaskId>, all: Tasks)
    requires pending != [] && rest == pending[1..] && Distinct(pending) && Distinct(found)
    requires (forall id :: id in pending ==> id in all) && forall id :: id in found ==> id !in all
    ensures Distinct(rest + found)
  {
    var both := rest + found;
    forall i, j | 0 <= i < j < |both| ensures both[i] != both[j] {
      if j < |rest| {
        assert pending[i + 1] != pending[j + 1];
      } else if i < |rest| {
        assert pending[i + 1] in pending && found[j - |rest|] in found;
      }
    }
  }

  lemma FromIsDone(pending: seq<TaskId>, from: TaskId, rest: seq<TaskId>)
    requires pending == [from] + rest && Distinct(pending)
    ensures from !in rest
  {
    forall k | 0 <= k < |rest| ensures rest[k] != from {
      assert pending[0] != pending[k + 1];
    }
  }

  lemma {:induction false} WalkStaysIn(edges: set<(TaskId, TaskId)>, ids: set<TaskId>, walk: seq<TaskId>)
    requires IsWalk(edges, walk) && walk[0] in ids
    requires forall a, b {:trigger (a, b) in edges} :: (a, b) in edges && a in ids ==> b in ids
    ensures walk[|walk| - 1] in ids
  {
    if |walk| > 1 {
      assert IsStep(edges, walk, 0);
      assert (walk[0], walk[1]) in edges;
      DropSteps(edges, walk, 1);
      WalkStaysIn(edges, ids, walk[1..]);
    }
  }

  /** With nothing pending, the tasks found are the tasks reached. */
  lemma AllIsReached(tasks: Tasks, dependsOn: Listing, universe: set<TaskId>, all: Tasks, expanded: set<TaskId>)
    requires IsFrontier(tasks, dependsOn, ReachedAmong(tasks, dependsOn, universe), all, expanded, []) && IsClosed(tasks)
    ensures IsExpansion(tasks, dependsOn, ListedEdges(dependsOn, universe), all) && IsClosed(all)
    ensures forall id :: IsReached(tasks, ListedEdges(dependsOn, universe), id) ==> dependsOn(id).Some?
  {
    var edges := ListedEdges(dependsOn, universe);
    forall a, b {:trigger (a, b) in edges} | (a, b) in edges && a in all.Keys ensures b in all.Keys {
      assert IsExpandedIn(dependsOn, all, a);
    }
    forall id | IsReached(tasks, edges, id) ensures id in all && dependsOn(id).Some? {
      if id !in tasks {
        var start :| start in tasks && Joined(edges, start, id);
        var walk :| IsWalkBetween(edges, walk, start, id);
        WalkStaysIn(edges, all.Keys, walk);
      }
      assert IsExpandedIn(dependsOn, all, id);
    }
    forall a, b | a in all && b in all[a].dependencies ensures b in all {
      assert IsExpandedIn(dependsOn, all, a);
    }
  }

  // ---------------------------------------------------------------- the whole query

  /** One of those, or one such a task depends on directly or through others. */
  ghost predicate IsNeeded(nodes: seq<nat>, name: string, lookup: TaskId -> Lookup, edges: set<(TaskId, TaskId)>, id: TaskId) {
    || IsSelected(nodes, name, lookup, id)
    || exists start :: IsSelected(nodes, name, lookup, start) && Joined(edges, start, id)
  }

  /** The tasks of a query whose packages are known, with or without what they list in `dependsOn`. */
  method QueryTasks(nodes: seq<nat>, packageEdges: seq<(nat, nat)>, name: string, includeExplicitDeps: bool,
                    lookup: TaskId -> Lookup, dependsOn: Listing, ghost universe: set<TaskId>)
    returns (r: Option<Tasks>)
    requires forall e :: e in packageEdges ==> e.0 in nodes && e.1 in nodes
    requires AreListedIn(dependsOn, universe) && forall id :: lookup(id) == Present ==> id in universe
    ensures r.None? <==>
              || (exists p :: p in nodes && lookup(TaskId(p, name)) == Unloadable)
              || (includeExplicitDeps
                  && exists id :: IsNeeded(nodes, name, lookup, ListedEdges(dependsOn, universe), id) && dependsOn(id).None?)
    ensures r.Some? ==> IsClosed(r.value)
    ensures r.Some? ==> forall id :: id in r.value <==>
                          if includeExplicitDeps then IsNeeded(nodes, name, lookup, ListedEdges(dependsOn, universe), id)
                          else IsSelected(nodes, name, lookup, id)
    ensures r.Some? ==> forall id :: id in r.value ==>
                          (r.value[id].requested <==> IsSelected(nodes, name, lookup, id))
    ensures r.Some? ==> exists mapped :: IsMapped(nodes, EdgesOf(packageEdges), name, lookup, mapped)
                                         && if includeExplicitDeps
                                            then IsExpansion(mapped, dependsOn, ListedEdges(dependsOn, universe), r.value)
                                            else r.value == mapped
  {
    r := MapSubgraphToTasks(nodes, packageEdges, name, lookup);
    if r.Some? && includeExplicitDeps {
      NeededIsReached(nodes, EdgesOf(packageEdges), name, lookup, r.value, ListedEdges(dependsOn, universe));
      r := AddDependencies(r.value, dependsOn, universe);
    }
  }

  lemma NeededIsReached(nodes: seq<nat>, packageEdges: set<(nat, nat)>, name: string, lookup: TaskId -> Lookup,
                        tasks: Tasks, edges: set<(TaskId, TaskId)>)
    requires IsMapped(nodes, packageEdges, name, lookup, tasks)
    ensures forall id :: IsReached(tasks, edges, id) <==> IsNeeded(nodes, name, lookup, edges, id)
  {
    assert forall id :: id in tasks <==> IsSelected(nodes, name, lookup, id);
  }

  /** The map as the list the planner walks: one entry for each task. */
  ghost predicate IsListOf(queried: seq<QueriedTask>, tasks: Tasks) {
    && Distinct(Ids(queried))
    && (forall id :: id in Ids(queried) <==> id in tasks)
    && forall task :: task in queried ==>
         task.id in tasks && Elements(task.dependencies) == tasks[task.id].dependencies && task.requested == tasks[task.id].requested
  }

  /** What a query yields is what planning takes: one entry per task, closed under dependencies, and ordered alike. */
  lemma QueryIsTaskMap(queried: seq<QueriedTask>, tasks: Tasks)
    requires IsListOf(queried, tasks) && IsClosed(tasks)
    ensures IsTaskMap(queried) && TaskEdges(queried) == DependencyEdges(tasks)
  {
    forall a, b ensures DependsOn(queried, a, b) <==> (a, b) in DependencyEdges(tasks) {
      if DependsOn(queried, a, b) {
        var task :| task in queried && task.id == a && b in task.dependencies;
        assert b in Elements(task.dependencies);
      }
      if a in tasks && b in tasks[a].dependencies {
        assert a in Ids(queried);
        var i :| 0 <= i < |queried| && Ids(queried)[i] == a;
        assert queried[i] in queried && b in Elements(queried[i].dependencies);
      }
    }
  }
}
