/** Planning a query: the mutual recursion between queries, tasks and their hooks. */
module Planner {
  import opened Wrappers
  import opened Digraph
  import opened ExecutionGraph
  import opened QueryGraph

  /** What a `run` command asks for. Two queries are the same if these fields are. */
  datatype TaskQuery = TaskQuery(packages: string, taskName: string, includeExplicitDeps: bool)
  datatype Request = Request(query: TaskQuery, extraArgs: seq<string>, parallel: bool)

  /** What a query selects: tasks in key order, out of how many packages. */
  datatype Selection = Selection(tasks: seq<QueriedTask>, packageCount: nat)

  /** One command of an `a && b` list. */
  datatype Part = Part(program: string, args: seq<string>)
  datatype Command = Shell | AndList(parts: seq<Part>)
  datatype Task = Task(isScript: bool, commands: seq<Command>)

  /**
   * One frame of the call stack: which part of which command of which task is being planned. A task
   * that is its own node and one that runs as the hook of another are different occasions.
   */
  datatype Frame = Frame(task: TaskId, command: nat, part: nat, asHook: bool)

  /** What the planner learns about one command from outside: the command parser and the file system. */
  datatype Reply =
    | Fails
    | Spawns
    | Runs(request: Request, lookup: bool)

  /**
   * The outside is asked once for each chain of frames, so any behaviour of it, constant or changing
   * from question to question, is some reply for each chain.
   */
  datatype Workspace = Workspace(
    tasks: map<TaskId, Task>, hooksEnabled: bool, hasHome: bool, select: TaskQuery -> Selection, replies: seq<Frame> -> Reply)
  {
    /** Queries select tasks of the workspace, closed under dependencies. */
    ghost predicate Valid() {
      forall query :: IsTaskMap(select(query).tasks)
                      && forall id :: id in Ids(select(query).tasks) ==> id in tasks
    }

    /** The `pre` or `post` script of a script. */
    function Hook(id: TaskId, prefix: string): (hook: Option<TaskId>)
      requires id in tasks
      ensures hook.Some? ==> hook.value in tasks && tasks[hook.value].isScript && tasks[id].isScript
      ensures hook.Some? ==> hook.value.package == id.package && hook.value.name == prefix + id.name
      ensures hook.None? && tasks[id].isScript ==>
                forall other :: other in tasks && other.package == id.package && other.name == prefix + id.name ==> !tasks[other].isScript
    {
      var hookId := TaskId(id.package, prefix + id.name);
      if tasks[id].isScript && hookId in tasks && tasks[hookId].isScript then Some(hookId) else None
    }
  }

  datatype Item = Item(owner: TaskId, command: nat, part: nat, extraArgs: seq<string>, kind: ItemKind)
  datatype ItemKind = Leaf | Expanded(request: Request, graph: DiGraph<TaskExecution>)
  datatype TaskExecution = TaskExecution(id: TaskId, items: seq<Item>)

  datatype PlanError =
    | Recursion(point: nat)
    | NoHomeDirectory
    | CdTooManyArgs
    | OutsideFailure
    | NoTasksMatched(taskName: string)
    | NestPlan(inner: PlanError)
    | CycleDependencyDetected(path: seq<TaskId>)

  // ---------------------------------------------------------------- what a good plan is

  predicate IsPosition(ws: Workspace, id: TaskId, command: nat, part: nat) {
    && id in ws.tasks && command < |ws.tasks[id].commands|
    && match ws.tasks[id].commands[command]
       case Shell => part == 0
       case AndList(parts) => part < |parts|
  }

  predicate IsLastPart(ws: Workspace, id: TaskId, command: nat, part: nat)
    requires id in ws.tasks
  {
    var commands := ws.tasks[id].commands;
    && command + 1 == |commands|
    && match commands[command]
       case Shell => part == 0
       case AndList(parts) => part + 1 == |parts|
  }

  predicate IsOnStack(id: TaskId, stack: seq<Frame>) {
    exists frame :: frame in stack && frame.task == id
  }

  /** Only the last part of a task gets the caller's extra arguments; hooks never do. */
  function ArgsAt(ws: Workspace, frame: Frame, args: seq<string>): seq<string>
    requires frame.task in ws.tasks
  {
    if !frame.asHook && IsLastPart(ws, frame.task, frame.command, frame.part) then args else []
  }

  predicate IsLeaf(item: Option<Item>) {
    item.Some? && item.value.kind.Leaf?
  }

  /** `cd` takes one directory, or none where there is a home directory. */
  predicate CanChangeTo(ws: Workspace, args: seq<string>) {
    |args| == 1 || (|args| == 0 && ws.hasHome)
  }

  /**
   * What the part at `frame` becomes: `cd` nothing, `echo` a leaf, a run of the query being expanded
   * nothing, a run of another query its expansion, and any other program a leaf.
   */
  predicate Answers(ws: Workspace, stack: seq<Frame>, frame: Frame, args: seq<string>, parent: TaskQuery, item: Option<Item>)
    requires IsPosition(ws, frame.task, frame.command, frame.part)
  {
    var reply := ws.replies(stack + [frame]);
    match ws.tasks[frame.task].commands[frame.command]
    case Shell => reply != Fails && IsLeaf(item)
    case AndList(parts) =>
      var part := parts[frame.part];
      if part.program == "cd" then item.None? && CanChangeTo(ws, part.args + ArgsAt(ws, frame, args))
      else if part.program == "echo" then IsLeaf(item)
      else match reply
           case Fails => false
           case Spawns => IsLeaf(item)
           case Runs(request, lookup) =>
             if request.query == parent then item.None?
             else lookup && item.Some? && item.value.kind.Expanded? && item.value.kind.request == request
  }

  function FrameOf(item: Item, asHook: bool): Frame {
    Frame(item.owner, item.command, item.part, asHook)
  }

  ghost predicate Precedes(a: Item, b: Item) {
    a.command < b.command || (a.command == b.command && a.part < b.part)
  }

  ghost predicate HasItem(items: seq<Item>, command: nat, part: nat) {
    exists item :: item in items && item.command == command && item.part == part
  }

  /** Every part either has an item or is one that yields none. */
  ghost predicate IsCovered(ws: Workspace, items: seq<Item>, stack: seq<Frame>, frame: Frame, args: seq<string>, parent: TaskQuery) {
    IsPosition(ws, frame.task, frame.command, frame.part)
    && (HasItem(items, frame.command, frame.part) || Answers(ws, stack, frame, args, parent, None))
  }

  /** `items` are the first `bound` commands of `owner` in order, without any part missing or doubled. */
  ghost predicate RunsCommands(ws: Workspace, owner: TaskId, asHook: bool, bound: nat, items: seq<Item>,
                               stack: seq<Frame>, args: seq<string>, parent: TaskQuery)
  {
    && (forall item :: item in items ==> item.owner == owner && item.command < bound)
    && IsOrdered(items)
    && (forall command: nat, part: nat :: command < bound && IsPosition(ws, owner, command, part) ==>
          IsCovered(ws, items, stack, Frame(owner, command, part, asHook), args, parent))
  }

  ghost predicate RunsTask(ws: Workspace, owner: TaskId, asHook: bool, items: seq<Item>,
                           stack: seq<Frame>, args: seq<string>, parent: TaskQuery)
  {
    && owner in ws.tasks && !IsOnStack(owner, stack)
    && RunsCommands(ws, owner, asHook, |ws.tasks[owner].commands|, items, stack, args, parent)
  }

  ghost predicate RunsHook(ws: Workspace, id: TaskId, prefix: string, items: seq<Item>, stack: seq<Frame>, parent: TaskQuery)
    requires id in ws.tasks
  {
    var hook := ws.Hook(id, prefix);
    if ws.hooksEnabled && hook.Some? then RunsTask(ws, hook.value, true, items, stack, [], parent) else items == []
  }

  ghost predicate RunsWithHooks(ws: Workspace, id: TaskId, before: seq<Item>, own: seq<Item>, after: seq<Item>,
                                stack: seq<Frame>, args: seq<string>, parent: TaskQuery)
    requires id in ws.tasks
  {
    && RunsHook(ws, id, "pre", before, stack, parent)
    && RunsTask(ws, id, false, own, stack, args, parent)
    && RunsHook(ws, id, "post", after, stack, parent)
  }

  function ArgsFor(queried: seq<QueriedTask>, request: Request, id: TaskId): seq<string> {
    if exists task :: task in queried && task.id == id && task.requested then request.extraArgs else []
  }

  function Pruned(queried: seq<QueriedTask>, stack: seq<Frame>): Option<TaskId> {
    if stack != [] && stack[|stack| - 1].task in Ids(queried) then Some(stack[|stack| - 1].task) else None
  }

  function Unpruned(queried: seq<QueriedTask>, pruned: Option<TaskId>): (ids: seq<TaskId>)
    ensures forall id :: id in ids <==> id in Ids(queried) && Some(id) != pruned
  {
    if queried == [] then []
    else
      var init, last := queried[..|queried| - 1], queried[|queried| - 1].id;
      assert Ids(queried) == Ids(init) + [last];
      Unpruned(init, pruned) + if Some(last) == pruned then [] else [last]
  }

  /** The nodes are the selected tasks but the pruned one, ordered as their dependencies order them. */
  ghost predicate KeepsOrder(queried: seq<QueriedTask>, pruned: Option<TaskId>, parallel: bool, graph: DiGraph<TaskExecution>) {
    && |graph.nodes| == |Unpruned(queried, pruned)|
    && (forall i :: 0 <= i < |graph.nodes| ==> graph.nodes[i].id == Unpruned(queried, pruned)[i])
    && (parallel ==> graph.edges == [])
    && (!parallel ==> forall i: nat, j: nat :: i < |graph.nodes| && j < |graph.nodes| ==>
          (Joined(graph.EdgeSet(), i, j) <==> Joined(TaskEdges(queried), graph.nodes[i].id, graph.nodes[j].id)))
  }

  /**
   * A plan made while the tasks of `stack` are being expanded for the query `parent`; `args` are the
   * caller's extra arguments.
   */
  ghost predicate IsPlan(ws: Workspace, plan: TaskExecution, stack: seq<Frame>, args: seq<string>, parent: TaskQuery)
    decreases plan
  {
    && plan.id in ws.tasks
    && (exists before, own, after :: plan.items == before + own + after
                                     && RunsWithHooks(ws, plan.id, before, own, after, stack, args, parent))
    && forall item :: item in plan.items ==> IsPlannedItem(ws, item, item.owner != plan.id, stack, args, parent)
  }

  /** A nested run is planned with its owner on the stack, and is empty only if its query selects no package. */
  ghost predicate IsPlannedItem(ws: Workspace, item: Item, asHook: bool, stack: seq<Frame>, args: seq<string>, parent: TaskQuery)
    decreases item
  {
    var frame := FrameOf(item, asHook);
    && IsPosition(ws, item.owner, item.command, item.part) && !IsOnStack(item.owner, stack)
    && item.extraArgs == ArgsAt(ws, frame, args)
    && Answers(ws, stack, frame, args, parent, Some(item))
    && (item.kind.Expanded? ==>
          && (item.kind.graph.nodes == [] ==> ws.select(item.kind.request.query).packageCount == 0)
          && IsPlannedGraph(ws, item.kind.request, stack + [frame], item.kind.graph))
  }

  ghost predicate IsPlannedGraph(ws: Workspace, request: Request, stack: seq<Frame>, graph: DiGraph<TaskExecution>)
    decreases graph
  {
    var queried := ws.select(request.query).tasks;
    && graph.Valid() && IsAcyclic(graph)
    && KeepsOrder(queried, Pruned(queried, stack), request.parallel, graph)
    && forall node :: node in graph.nodes ==> IsPlan(ws, node, stack, ArgsFor(queried, request, node.id), request.query)
  }

  // ---------------------------------------------------------------- nesting depth

  ghost function StackSet(stack: seq<Frame>): set<TaskId> {
    set frame | frame in stack :: frame.task
  }

  /** The tasks on a call stack are tasks of the workspace and pairwise distinct. */
  ghost predicate IsStack(ws: Workspace, stack: seq<Frame>) {
    && (forall i, j :: 0 <= i < j < |stack| ==> stack[i].task != stack[j].task)
    && forall frame :: frame in stack ==> frame.task in ws.tasks
  }

  lemma {:induction false} StackFits(ws: Workspace, stack: seq<Frame>)
    requires IsStack(ws, stack)
    ensures |stack| <= |ws.tasks|
    ensures |StackSet(stack)| == |stack|
  {
    assert StackSet(stack) <= ws.tasks.Keys;
    if stack != [] {
      var last := |stack| - 1;
      var rest := stack[..last];
      StackFits(ws, rest);
      assert stack == rest + [stack[last]];
      assert stack[last].task !in StackSet(rest);
      assert StackSet(stack) == StackSet(rest) + {stack[last].task};
    }
    SubsetIsSmaller(StackSet(stack), ws.tasks.Keys);
  }

  lemma {:induction false} SubsetIsSmaller<T>(a: set<T>, b: set<T>)
    requires a <= b
    ensures |a| <= |b|
  {
    if a != {} {
      var x :| x in a;
      SubsetIsSmaller(a - {x}, b - {x});
    }
  }

  lemma PushKeepsDistinct(ws: Workspace, stack: seq<Frame>, frame: Frame)
    requires IsStack(ws, stack) && frame.task in ws.tasks && !IsOnStack(frame.task, stack)
    ensures IsStack(ws, stack + [frame])
    ensures ws.tasks.Keys - StackSet(stack + [frame]) < ws.tasks.Keys - StackSet(stack)
  {
    assert frame in stack + [frame];
    assert frame.task in StackSet(stack + [frame]) && frame.task !in StackSet(stack);
    assert frame.task in ws.tasks.Keys - StackSet(stack);
    assert StackSet(stack) <= StackSet(stack + [frame]) by {
      assert forall f :: f in stack ==> f in stack + [frame];
    }
  }

  /** Nested runs inside one plan go at most `bound` levels deep. */
  ghost predicate NestsAtMost(plan: TaskExecution, bound: nat)
    decreases bound
  {
    forall item, node :: item in plan.items && item.kind.Expanded? && node in item.kind.graph.nodes ==>
      bound > 0 && NestsAtMost(node, bound - 1)
  }

  /** However commands are parsed, runs nest no deeper than there are tasks left outside the stack. */
  lemma {:induction false} NestingIsBounded(ws: Workspace, plan: TaskExecution, stack: seq<Frame>, args: seq<string>, parent: TaskQuery)
    requires IsStack(ws, stack) && IsPlan(ws, plan, stack, args, parent)
    ensures |stack| < |ws.tasks|
    ensures NestsAtMost(plan, |ws.tasks| - |stack| - 1)
    decreases plan
  {
    StackLeavesRoom(ws, stack, Frame(plan.id, 0, 0, false));
    NestsWithin(ws, plan, stack, args, parent, |ws.tasks| - |stack| - 1);
  }

  lemma {:induction false} NestsWithin(ws: Workspace, plan: TaskExecution, stack: seq<Frame>, args: seq<string>,
                                       parent: TaskQuery, bound: nat)
    requires IsStack(ws, stack) && IsPlan(ws, plan, stack, args, parent) && |ws.tasks| <= |stack| + 1 + bound
    ensures NestsAtMost(plan, bound)
    decreases plan, 1
  {
    forall item, node | item in plan.items && item.kind.Expanded? && node in item.kind.graph.nodes
      ensures bound > 0 && NestsAtMost(node, bound - 1)
    {
      NodeNestsWithin(ws, plan, item, node, stack, args, parent, bound);
    }
  }

  lemma {:induction false} NodeNestsWithin(ws: Workspace, plan: TaskExecution, item: Item, node: TaskExecution,
                                           stack: seq<Frame>, args: seq<string>, parent: TaskQuery, bound: nat)
    requires IsStack(ws, stack) && IsPlan(ws, plan, stack, args, parent) && |ws.tasks| <= |stack| + 1 + bound
    requires item in plan.items && item.kind.Expanded? && node in item.kind.graph.nodes
    ensures bound > 0 && NestsAtMost(node, bound - 1)
    decreases plan, 0
  {
    var asHook, inner, args', parent' := InnerContext(ws, plan, item, node, stack, args, parent);
    StackLeavesRoom(ws, inner, Frame(node.id, 0, 0, false));
    NestsWithin(ws, node, inner, args', parent', bound - 1);
  }

  /** Where a nested node is planned: one frame further down. */
  lemma InnerContext(ws: Workspace, plan: TaskExecution, item: Item, node: TaskExecution,
                     stack: seq<Frame>, args: seq<string>, parent: TaskQuery)
    returns (asHook: bool, inner: seq<Frame>, args': seq<string>, parent': TaskQuery)
    requires IsStack(ws, stack) && IsPlan(ws, plan, stack, args, parent)
    requires item in plan.items && item.kind.Expanded? && node in item.kind.graph.nodes
    ensures inner == stack + [FrameOf(item, asHook)] && |inner| == |stack| + 1 && IsStack(ws, inner)
    ensures IsPlan(ws, node, inner, args', parent')
    ensures node < plan
  {
    asHook := item.owner != plan.id;
    inner := stack + [FrameOf(item, asHook)];
    args' := ArgsFor(ws.select(item.kind.request.query).tasks, item.kind.request, node.id);
    parent' := item.kind.request.query;
    NodeOfItem(ws, item, asHook, stack, args, parent, node);
    StackLeavesRoom(ws, stack, FrameOf(item, asHook));
  }

  lemma StackLeavesRoom(ws: Workspace, stack: seq<Frame>, frame: Frame)
    requires IsStack(ws, stack) && frame.task in ws.tasks && !IsOnStack(frame.task, stack)
    ensures IsStack(ws, stack + [frame]) && |stack| < |ws.tasks|
  {
    PushKeepsDistinct(ws, stack, frame);
    StackFits(ws, stack + [frame]);
  }

  lemma NodeOfItem(ws: Workspace, item: Item, asHook: bool, stack: seq<Frame>, args: seq<string>, parent: TaskQuery, node: TaskExecution)
    requires IsPlannedItem(ws, item, asHook, stack, args, parent) && item.kind.Expanded? && node in item.kind.graph.nodes
    ensures node < item && item.owner in ws.tasks && !IsOnStack(item.owner, stack)
    ensures IsPlan(ws, node, stack + [FrameOf(item, asHook)],
                   ArgsFor(ws.select(item.kind.request.query).tasks, item.kind.request, node.id), item.kind.request.query)
  {
    assert IsPlannedGraph(ws, item.kind.request, stack + [FrameOf(item, asHook)], item.kind.graph);
  }

  // ---------------------------------------------------------------- a workspace has one plan

  /** Two plans that differ at most in which edges express the order of the nodes. */
  ghost predicate SamePlan(a: TaskExecution, b: TaskExecution)
    decreases a
  {
    && a.id == b.id && |a.items| == |b.items|
    && forall k :: 0 <= k < |a.items| ==> SameItem(a.items[k], b.items[k])
  }

  ghost predicate SameItem(a: Item, b: Item)
    decreases a
  {
    && a.owner == b.owner && SamePosition(a, b) && a.extraArgs == b.extraArgs
    && match a.kind
       case Leaf => b.kind.Leaf?
       case Expanded(request, graph) => b.kind.Expanded? && b.kind.request == request && SameGraph(graph, b.kind.graph)
  }

  ghost predicate SameGraph(a: DiGraph<TaskExecution>, b: DiGraph<TaskExecution>)
    decreases a
  {
    && |a.nodes| == |b.nodes|
    && (forall i :: 0 <= i < |a.nodes| ==> SamePlan(a.nodes[i], b.nodes[i]))
    && forall i: nat, j: nat :: i < |a.nodes| && j < |a.nodes| ==> (Joined(a.EdgeSet(), i, j) <==> Joined(b.EdgeSet(), i, j))
  }

  ghost predicate SamePosition(a: Item, b: Item) {
    a.command == b.command && a.part == b.part
  }

  ghost predicate AreAligned(a: seq<Item>, b: seq<Item>) {
    |a| == |b| && forall k :: 0 <= k < |a| ==> a[k].owner == b[k].owner && SamePosition(a[k], b[k])
  }

  ghost predicate IsOrdered(items: seq<Item>) {
    forall i, j :: 0 <= i < j < |items| ==> Precedes(items[i], items[j])
  }

  lemma {:induction false} OrderedListsMatch(a: seq<Item>, b: seq<Item>)
    requires IsOrdered(a) && IsOrdered(b)
    requires forall command, part :: HasItem(a, command, part) <==> HasItem(b, command, part)
    ensures |a| == |b|
    ensures forall k :: 0 <= k < |a| ==> SamePosition(a[k], b[k])
  {
    if a == [] {
      assert b != [] ==> b[0] in b && HasItem(b, b[0].command, b[0].part);
    } else {
      var last := a[|a| - 1];
      assert last in a && HasItem(b, last.command, last.part);
      LastMatches(a, b);
      LastMatches(b, a);
      var init, init' := a[..|a| - 1], b[..|b| - 1];
      forall command, part ensures HasItem(init, command, part) <==> HasItem(init', command, part) {
        WithoutLast(a, command, part);
        WithoutLast(b, command, part);
      }
      OrderedListsMatch(init, init');
    }
  }

  /** What is in `a` is not after the last item of `b`. */
  lemma LastMatches(a: seq<Item>, b: seq<Item>)
    requires IsOrdered(a) && IsOrdered(b) && a != [] && b != []
    requires forall command, part :: HasItem(a, command, part) <==> HasItem(b, command, part)
    ensures !Precedes(b[|b| - 1], a[|a| - 1])
  {
    var last := a[|a| - 1];
    assert last in a && HasItem(b, last.command, last.part);
    var item :| item in b && SamePosition(item, last);
    var k :| 0 <= k < |b| && b[k] == item;
  }

  lemma WithoutLast(items: seq<Item>, command: nat, part: nat)
    requires IsOrdered(items) && items != []
    ensures HasItem(items[..|items| - 1], command, part) <==>
            HasItem(items, command, part) && !(items[|items| - 1].command == command && items[|items| - 1].part == part)
  {
    var init, last := items[..|items| - 1], items[|items| - 1];
    assert items == init + [last];
    if item :| item in init && item.command == command && item.part == part {
      var k :| 0 <= k < |init| && init[k] == item;
      assert Precedes(items[k], last);
    }
  }

  /** The parts of a task decide which of them have an item. */
  lemma RunsMatch(ws: Workspace, owner: TaskId, asHook: bool, a: seq<Item>, b: seq<Item>,
                  stack: seq<Frame>, args: seq<string>, parent: TaskQuery)
    requires RunsTask(ws, owner, asHook, a, stack, args, parent) && ArePlannedItems(ws, a, asHook, stack, args, parent)
    requires RunsTask(ws, owner, asHook, b, stack, args, parent) && ArePlannedItems(ws, b, asHook, stack, args, parent)
    ensures AreAligned(a, b)
  {
    forall command, part ensures HasItem(a, command, part) <==> HasItem(b, command, part) {
      ItemIsNeeded(ws, owner, asHook, a, b, stack, args, parent, command, part);
      ItemIsNeeded(ws, owner, asHook, b, a, stack, args, parent, command, part);
    }
    OrderedListsMatch(a, b);
    forall k | 0 <= k < |a| ensures a[k].owner == b[k].owner {
      assert a[k] in a && b[k] in b;
    }
  }

  lemma ItemIsNeeded(ws: Workspace, owner: TaskId, asHook: bool, a: seq<Item>, b: seq<Item>,
                     stack: seq<Frame>, args: seq<string>, parent: TaskQuery, command: nat, part: nat)
    requires RunsTask(ws, owner, asHook, a, stack, args, parent) && ArePlannedItems(ws, a, asHook, stack, args, parent)
    requires RunsTask(ws, owner, asHook, b, stack, args, parent)
    ensures HasItem(a, command, part) ==> HasItem(b, command, part)
  {
    if item :| item in a && item.command == command && item.part == part {
      assert IsPlannedItem(ws, item, asHook, stack, args, parent);
      assert IsCovered(ws, b, stack, Frame(owner, command, part, asHook), args, parent);
    }
  }

  lemma HookRunsMatch(ws: Workspace, id: TaskId, prefix: string, a: seq<Item>, b: seq<Item>,
                      stack: seq<Frame>, args: seq<string>, parent: TaskQuery)
    requires id in ws.tasks && RunsHook(ws, id, prefix, a, stack, parent) && RunsHook(ws, id, prefix, b, stack, parent)
    requires ArePlannedItems(ws, a, true, stack, args, parent) && ArePlannedItems(ws, b, true, stack, args, parent)
    ensures AreAligned(a, b)
  {
    if ws.hooksEnabled && ws.Hook(id, prefix).Some? {
      HooksIgnoreArgs(ws, a, stack, args, [], parent);
      HooksIgnoreArgs(ws, b, stack, args, [], parent);
      RunsMatch(ws, ws.Hook(id, prefix).value, true, a, b, stack, [], parent);
    }
  }

  lemma AlignedPlus(a: seq<Item>, a': seq<Item>, b: seq<Item>, b': seq<Item>)
    requires AreAligned(a, a') && AreAligned(b, b')
    ensures AreAligned(a + b, a' + b')
  {
  }

  /** Any two plans of a task have items for the same parts, in the same order. */
  lemma ItemsMatch(ws: Workspace, a: TaskExecution, b: TaskExecution, stack: seq<Frame>, args: seq<string>, parent: TaskQuery)
    requires IsPlan(ws, a, stack, args, parent) && IsPlan(ws, b, stack, args, parent) && a.id == b.id
    ensures AreAligned(a.items, b.items)
  {
    var before: seq<Item>, own: seq<Item>, after: seq<Item> :| a.items == before + own + after
                              && RunsWithHooks(ws, a.id, before, own, after, stack, args, parent);
    var before': seq<Item>, own': seq<Item>, after': seq<Item> :| b.items == before' + own' + after'
                                 && RunsWithHooks(ws, b.id, before', own', after', stack, args, parent);
    OwnItemsArePlanned(ws, a, before, own, after, stack, args, parent);
    OwnItemsArePlanned(ws, b, before', own', after', stack, args, parent);
    HookRunsMatch(ws, a.id, "pre", before, before', stack, args, parent);
    RunsMatch(ws, a.id, false, own, own', stack, args, parent);
    HookRunsMatch(ws, a.id, "post", after, after', stack, args, parent);
    AlignedPlus(before, before', own, own');
    AlignedPlus(before + own, before' + own', after, after');
  }

  /** The workspace and what the outside answers determine the plan of a task. */
  lemma {:induction false} PlanIsUnique(ws: Workspace, a: TaskExecution, b: TaskExecution,
                                        stack: seq<Frame>, args: seq<string>, parent: TaskQuery)
    requires IsPlan(ws, a, stack, args, parent) && IsPlan(ws, b, stack, args, parent) && a.id == b.id
    ensures SamePlan(a, b)
    decreases a
  {
    ItemsMatch(ws, a, b, stack, args, parent);
    forall k | 0 <= k < |a.items| ensures SameItem(a.items[k], b.items[k]) {
      assert a.items[k] in a.items && b.items[k] in b.items;
      ItemIsUnique(ws, a.items[k], b.items[k], a.items[k].owner != a.id, stack, args, parent);
    }
  }

  lemma {:induction false} ItemIsUnique(ws: Workspace, a: Item, b: Item, asHook: bool,
                                        stack: seq<Frame>, args: seq<string>, parent: TaskQuery)
    requires IsPlannedItem(ws, a, asHook, stack, args, parent) && IsPlannedItem(ws, b, asHook, stack, args, parent)
    requires a.owner == b.owner && SamePosition(a, b)
    ensures SameItem(a, b)
    decreases a
  {
    assert FrameOf(a, asHook) == FrameOf(b, asHook);
    if a.kind.Expanded? {
      GraphIsUnique(ws, a.kind.request, stack + [FrameOf(a, asHook)], a.kind.graph, b.kind.graph);
    }
  }

  /** And they determine the planned graph, up to edges that order the same nodes. */
  lemma {:induction false} GraphIsUnique(ws: Workspace, request: Request, stack: seq<Frame>,
                                         a: DiGraph<TaskExecution>, b: DiGraph<TaskExecution>)
    requires IsPlannedGraph(ws, request, stack, a) && IsPlannedGraph(ws, request, stack, b)
    ensures SameGraph(a, b)
    decreases a
  {
    var queried := ws.select(request.query).tasks;
    forall i: nat | i < |a.nodes| ensures SamePlan(a.nodes[i], b.nodes[i]) {
      NodeIsPlanned(ws, request, stack, a, i);
      NodeIsPlanned(ws, request, stack, b, i);
      PlanIsUnique(ws, a.nodes[i], b.nodes[i], stack, ArgsFor(queried, request, a.nodes[i].id), request.query);
    }
  }

  /** A part lacks an item exactly if it is a `cd` or its own answer repeats the query being expanded. */
  lemma OnlyRepeatsAreMissing(ws: Workspace, plan: TaskExecution, stack: seq<Frame>, args: seq<string>, parent: TaskQuery,
                              command: nat, part: nat)
    requires IsPlan(ws, plan, stack, args, parent) && IsPosition(ws, plan.id, command, part)
    ensures (exists item :: item in plan.items && item.owner == plan.id && item.command == command && item.part == part)
            <==> !YieldsNothing(ws, stack, Frame(plan.id, command, part, false), parent)
  {
  }

  predicate YieldsNothing(ws: Workspace, stack: seq<Frame>, frame: Frame, parent: TaskQuery)
    requires IsPosition(ws, frame.task, frame.command, frame.part)
  {
    match ws.tasks[frame.task].commands[frame.command]
    case Shell => false
    case AndList(parts) =>
      var program, reply := parts[frame.part].program, ws.replies(stack + [frame]);
      program == "cd" || (program != "echo" && reply.Runs? && reply.request.query == parent)
  }

  // ---------------------------------------------------------------- what a plan consists of

  ghost predicate IsSelected(ws: Workspace, request: Request, id: TaskId) {
    exists task :: task in ws.select(request.query).tasks && task.id == id
  }

  /** A query run by the command at `frame` plans every task it selects but the one `frame` is about. */
  lemma NestedRunSkipsItsOwnTask(ws: Workspace, request: Request, stack: seq<Frame>, frame: Frame,
                                 graph: DiGraph<TaskExecution>, id: TaskId)
    requires IsPlannedGraph(ws, request, stack + [frame], graph)
    ensures (exists node :: node in graph.nodes && node.id == id) <==> IsSelected(ws, request, id) && id != frame.task
  {
    SelectedIds(ws, request, id);
    NodesAreUnpruned(ws, request, stack + [frame], graph, id);
  }

  /** A query run by the user plans every task it selects. */
  lemma OutermostRunSkipsNothing(ws: Workspace, request: Request, graph: DiGraph<TaskExecution>, id: TaskId)
    requires IsPlannedGraph(ws, request, [], graph)
    ensures (exists node :: node in graph.nodes && node.id == id) <==> IsSelected(ws, request, id)
  {
    SelectedIds(ws, request, id);
    NodesAreUnpruned(ws, request, [], graph, id);
  }

  /** The command of this task is what the query is run by. */
  predicate IsExpanding(stack: seq<Frame>, id: TaskId) {
    stack != [] && stack[|stack| - 1].task == id
  }

  /**
   * What keeps a query from being planned: a selected task without a plan, or without `--parallel` one
   * that depends on itself, be it through others. The task being expanded counts for neither.
   */
  ghost predicate IsUnplannable(ws: Workspace, request: Request, stack: seq<Frame>) {
    exists task :: IsInTheWay(ws, request, stack, task)
  }

  ghost predicate IsInTheWay(ws: Workspace, request: Request, stack: seq<Frame>, task: QueriedTask) {
    var queried := ws.select(request.query).tasks;
    && task in queried && !IsExpanding(stack, task.id)
    && (|| HasNoPlan(ws, task.id, stack, if task.requested then request.extraArgs else [], request.query)
        || (!request.parallel && Joined(TaskEdges(queried), task.id, task.id)))
  }

  /** What has a planned graph is not unplannable. */
  lemma PlannedIsPlannable(ws: Workspace, request: Request, stack: seq<Frame>, graph: DiGraph<TaskExecution>)
    requires ws.Valid() && IsPlannedGraph(ws, request, stack, graph)
    ensures !IsUnplannable(ws, request, stack)
  {
    var queried := ws.select(request.query).tasks;
    forall task | task in queried && !IsExpanding(stack, task.id) ensures !IsInTheWay(ws, request, stack, task) {
      var i: nat :| i < |queried| && queried[i] == task;
      RequestedArgs(queried, request, i);
      assert Ids(queried)[i] == task.id;
      NodesAreUnpruned(ws, request, stack, graph, task.id);
      var node :| node in graph.nodes && node.id == task.id;
      assert IsPlan(ws, node, stack, ArgsFor(queried, request, task.id), request.query);
      if !request.parallel {
        PlannedGraphRulesOutCycles(ws, request, stack, graph);
      }
    }
  }

  lemma TaskIsInTheWay(ws: Workspace, request: Request, stack: seq<Frame>, i: nat)
    requires i < |ws.select(request.query).tasks|
    requires var queried := ws.select(request.query).tasks;
             Some(queried[i].id) != Pruned(queried, stack)
             && HasNoPlan(ws, queried[i].id, stack, if queried[i].requested then request.extraArgs else [], request.query)
    ensures IsUnplannable(ws, request, stack)
  {
    var queried := ws.select(request.query).tasks;
    assert Ids(queried)[i] == queried[i].id;
    assert IsInTheWay(ws, request, stack, queried[i]);
  }

  lemma CycleIsInTheWay(ws: Workspace, request: Request, stack: seq<Frame>)
    requires !request.parallel
    requires HasCycleOutside(ws.select(request.query).tasks, Pruned(ws.select(request.query).tasks, stack))
    ensures IsUnplannable(ws, request, stack)
  {
    var queried := ws.select(request.query).tasks;
    var id :| id in Ids(queried) && Some(id) != Pruned(queried, stack) && Joined(TaskEdges(queried), id, id);
    var i :| 0 <= i < |queried| && Ids(queried)[i] == id;
    assert IsInTheWay(ws, request, stack, queried[i]);
  }

  lemma SelectedIds(ws: Workspace, request: Request, id: TaskId)
    ensures IsSelected(ws, request, id) <==> id in Ids(ws.select(request.query).tasks)
  {
    var queried := ws.select(request.query).tasks;
    if id in Ids(queried) {
      var i :| 0 <= i < |queried| && Ids(queried)[i] == id;
      assert queried[i] in queried;
    }
    if task :| task in queried && task.id == id {
      var i :| 0 <= i < |queried| && queried[i] == task;
      assert Ids(queried)[i] == id;
    }
  }

  lemma NodesAreUnpruned(ws: Workspace, request: Request, stack: seq<Frame>, graph: DiGraph<TaskExecution>, id: TaskId)
    requires IsPlannedGraph(ws, request, stack, graph)
    ensures var queried := ws.select(request.query).tasks;
            (exists node :: node in graph.nodes && node.id == id) <==> id in Ids(queried) && Some(id) != Pruned(queried, stack)
  {
    var queried := ws.select(request.query).tasks;
    var names := Unpruned(queried, Pruned(queried, stack));
    if node :| node in graph.nodes && node.id == id {
      var i: nat :| i < |graph.nodes| && graph.nodes[i] == node;
      NodeIsPlanned(ws, request, stack, graph, i);
      assert names[i] in names;
    }
    if id in names {
      var i: nat :| i < |names| && names[i] == id;
      NodeIsPlanned(ws, request, stack, graph, i);
      assert graph.nodes[i] in graph.nodes;
    }
  }

  /** Each node stands for another task, and the nodes come in the order of the selection. */
  lemma NodesAreInKeyOrder(ws: Workspace, request: Request, stack: seq<Frame>, graph: DiGraph<TaskExecution>,
                           i: nat, j: nat, a: nat, b: nat)
    requires ws.Valid() && IsPlannedGraph(ws, request, stack, graph) && i < j < |graph.nodes|
    requires a < |ws.select(request.query).tasks| && ws.select(request.query).tasks[a].id == graph.nodes[i].id
    requires b < |ws.select(request.query).tasks| && ws.select(request.query).tasks[b].id == graph.nodes[j].id
    ensures a < b
  {
    var queried := ws.select(request.query).tasks;
    NodeIsPlanned(ws, request, stack, graph, i);
    NodeIsPlanned(ws, request, stack, graph, j);
    UnprunedKeepsOrder(queried, Pruned(queried, stack), i, j, a, b);
  }

  lemma {:induction false} UnprunedKeepsOrder(queried: seq<QueriedTask>, pruned: Option<TaskId>, i: nat, j: nat, a: nat, b: nat)
    requires Distinct(Ids(queried)) && i < j < |Unpruned(queried, pruned)| && a < |queried| && b < |queried|
    requires queried[a].id == Unpruned(queried, pruned)[i] && queried[b].id == Unpruned(queried, pruned)[j]
    ensures a < b
    decreases |queried|
  {
    var last := |queried| - 1;
    var init := queried[..last];
    if i < |Unpruned(init, pruned)| {
      var k := UnprunedAt(init, pruned, i);
      SameIdSamePlace(queried, a, k);
      if j == |Unpruned(init, pruned)| {
        SameIdSamePlace(queried, b, last);
      } else if b < last {
        PrefixIsDistinct(queried);
        UnprunedKeepsOrder(init, pruned, i, j, a, b);
      }
    }
  }

  lemma PrefixIsDistinct(queried: seq<QueriedTask>)
    requires queried != [] && Distinct(Ids(queried))
    ensures Distinct(Ids(queried[..|queried| - 1]))
  {
    assert Ids(queried[..|queried| - 1]) == Ids(queried)[..|queried| - 1];
  }

  lemma UnprunedAt(queried: seq<QueriedTask>, pruned: Option<TaskId>, i: nat) returns (k: nat)
    requires i < |Unpruned(queried, pruned)|
    ensures k < |queried| && queried[k].id == Unpruned(queried, pruned)[i]
  {
    assert Unpruned(queried, pruned)[i] in Unpruned(queried, pruned);
    k :| k < |queried| && Ids(queried)[k] == Unpruned(queried, pruned)[i];
  }

  lemma SameIdSamePlace(queried: seq<QueriedTask>, a: nat, b: nat)
    requires Distinct(Ids(queried)) && a < |queried| && b < |queried| && queried[a].id == queried[b].id
    ensures a == b
  {
    assert Ids(queried)[a] == Ids(queried)[b];
  }

  predicate IsAtTheEnd(ws: Workspace, item: Item)
    requires IsPosition(ws, item.owner, item.command, item.part)
  {
    var commands := ws.tasks[item.owner].commands;
    item.command == |commands| - 1 && match commands[item.command] case Shell => true case AndList(parts) => item.part == |parts| - 1
  }

  /**
   * The extra arguments of a run reach the last part of every task it asked for by name, and nothing
   * else: no earlier part, no hook, and no task that is only there as a dependency.
   */
  lemma LastPartGetsTheArguments(ws: Workspace, request: Request, stack: seq<Frame>, graph: DiGraph<TaskExecution>,
                                 task: QueriedTask, node: TaskExecution, item: Item)
    requires ws.Valid() && IsPlannedGraph(ws, request, stack, graph) && node in graph.nodes && item in node.items
    requires task in ws.select(request.query).tasks && task.id == node.id
    ensures IsPosition(ws, item.owner, item.command, item.part)
    ensures item.extraArgs == if task.requested && item.owner == node.id && IsAtTheEnd(ws, item) then request.extraArgs else []
  {
    var queried := ws.select(request.query).tasks;
    var i: nat :| i < |queried| && queried[i] == task;
    RequestedArgs(queried, request, i);
    assert IsPlan(ws, node, stack, ArgsFor(queried, request, node.id), request.query);
  }

  /** Only a run of another query is expanded, and it is the run that the command asks for; everything else is a leaf. */
  lemma OnlyOtherRunsAreExpanded(ws: Workspace, plan: TaskExecution, stack: seq<Frame>, args: seq<string>, parent: TaskQuery, item: Item)
    requires IsPlan(ws, plan, stack, args, parent) && item in plan.items
    ensures IsPosition(ws, item.owner, item.command, item.part)
    ensures var command := ws.tasks[item.owner].commands[item.command];
            var reply := ws.replies(stack + [Frame(item.owner, item.command, item.part, item.owner != plan.id)]);
            && (item.kind.Expanded? <==> command.AndList? && command.parts[item.part].program != "echo" && reply.Runs?)
            && (item.kind.Expanded? ==> reply == Runs(item.kind.request, true) && item.kind.request.query != parent)
            && (command.AndList? ==> command.parts[item.part].program != "cd")
  {
    assert IsPlannedItem(ws, item, item.owner != plan.id, stack, args, parent);
  }

  /** In a planned task every `cd` names one directory, or none where there is a home directory. */
  lemma CdTakesOneDirectory(ws: Workspace, plan: TaskExecution, stack: seq<Frame>, args: seq<string>, parent: TaskQuery,
                            command: nat, part: nat)
    requires IsPlan(ws, plan, stack, args, parent) && IsPosition(ws, plan.id, command, part)
    requires ws.tasks[plan.id].commands[command].AndList? && ws.tasks[plan.id].commands[command].parts[part].program == "cd"
    ensures var parts := ws.tasks[plan.id].commands[command].parts;
            var count := |parts[part].args|
                         + if command + 1 == |ws.tasks[plan.id].commands| && part + 1 == |parts| then |args| else 0;
            count == 1 || (count == 0 && ws.hasHome)
  {
    var before: seq<Item>, own: seq<Item>, after: seq<Item> :| plan.items == before + own + after
                              && RunsWithHooks(ws, plan.id, before, own, after, stack, args, parent);
    var frame := Frame(plan.id, command, part, false);
    assert IsCovered(ws, own, stack, frame, args, parent);
    OwnItemsArePlanned(ws, plan, before, own, after, stack, args, parent);
    forall item | item in own ensures item.command != command || item.part != part {
      assert IsPlannedItem(ws, item, false, stack, args, parent);
    }
    assert Answers(ws, stack, frame, args, parent, None);
  }

  // ---------------------------------------------------------------- where no plan exists

  /** What planning one part may result in. */
  ghost predicate IsPartPlan(ws: Workspace, frame: Frame, item: Option<Item>, stack: seq<Frame>, args: seq<string>, parent: TaskQuery)
    requires IsPosition(ws, frame.task, frame.command, frame.part)
  {
    match item
    case None => Answers(ws, stack, frame, args, parent, None)
    case Some(made) => FrameOf(made, frame.asHook) == frame && IsPlannedItem(ws, made, frame.asHook, stack, args, parent)
  }

  ghost predicate IsStuckAt(ws: Workspace, frame: Frame, stack: seq<Frame>, args: seq<string>, parent: TaskQuery) {
    && IsPosition(ws, frame.task, frame.command, frame.part)
    && forall item :: !IsPartPlan(ws, frame, item, stack, args, parent)
  }

  /** The task is being expanded already, or one of its parts has no plan. */
  ghost predicate IsStuck(ws: Workspace, id: TaskId, asHook: bool, stack: seq<Frame>, args: seq<string>, parent: TaskQuery) {
    IsOnStack(id, stack)
    || exists command: nat, part: nat :: IsStuckAt(ws, Frame(id, command, part, asHook), stack, args, parent)
  }

  ghost predicate HasNoPlan(ws: Workspace, id: TaskId, stack: seq<Frame>, args: seq<string>, parent: TaskQuery) {
    forall plan: TaskExecution :: plan.id == id ==> !IsPlan(ws, plan, stack, args, parent)
  }

  ghost predicate HasNoPlannedGraph(ws: Workspace, request: Request, stack: seq<Frame>) {
    forall graph :: !IsPlannedGraph(ws, request, stack, graph)
  }

  /** A task whose parts are all covered by planned items is not stuck. */
  lemma RunsUnlessStuck(ws: Workspace, id: TaskId, asHook: bool, items: seq<Item>, stack: seq<Frame>, args: seq<string>, parent: TaskQuery)
    requires RunsTask(ws, id, asHook, items, stack, args, parent)
    requires ArePlannedItems(ws, items, asHook, stack, args, parent)
    ensures !IsStuck(ws, id, asHook, stack, args, parent)
  {
    forall command: nat, part: nat | IsPosition(ws, id, command, part)
      ensures !IsStuckAt(ws, Frame(id, command, part, asHook), stack, args, parent)
    {
      var frame := Frame(id, command, part, asHook);
      assert IsCovered(ws, items, stack, frame, args, parent);
      if HasItem(items, command, part) {
        var item :| item in items && item.command == command && item.part == part;
        assert IsPartPlan(ws, frame, Some(item), stack, args, parent);
      } else {
        assert IsPartPlan(ws, frame, None, stack, args, parent);
      }
    }
  }

  /** Extra arguments make no difference to a hook. */
  lemma HooksIgnoreArgs(ws: Workspace, items: seq<Item>, stack: seq<Frame>, args: seq<string>, other: seq<string>, parent: TaskQuery)
    requires ArePlannedItems(ws, items, true, stack, args, parent)
    ensures ArePlannedItems(ws, items, true, stack, other, parent)
  {
    forall item | item in items ensures IsPlannedItem(ws, item, true, stack, other, parent) {
      assert IsPlannedItem(ws, item, true, stack, args, parent);
    }
  }

  lemma StuckHasNoPlan(ws: Workspace, id: TaskId, stack: seq<Frame>, args: seq<string>, parent: TaskQuery)
    requires id in ws.tasks && IsStuck(ws, id, false, stack, args, parent)
    ensures HasNoPlan(ws, id, stack, args, parent)
  {
    forall plan: TaskExecution | plan.id == id && IsPlan(ws, plan, stack, args, parent) ensures false {
      var before, own, after :| plan.items == before + own + after
                                && RunsWithHooks(ws, id, before, own, after, stack, args, parent);
      OwnItemsArePlanned(ws, plan, before, own, after, stack, args, parent);
      RunsUnlessStuck(ws, id, false, own, stack, args, parent);
    }
  }

  lemma StuckHookHasNoPlan(ws: Workspace, id: TaskId, prefix: string, stack: seq<Frame>, args: seq<string>, parent: TaskQuery)
    requires id in ws.tasks && (prefix == "pre" || prefix == "post") && ws.hooksEnabled && ws.Hook(id, prefix).Some?
    requires IsStuck(ws, ws.Hook(id, prefix).value, true, stack, [], parent)
    ensures HasNoPlan(ws, id, stack, args, parent)
  {
    forall plan: TaskExecution | plan.id == id && IsPlan(ws, plan, stack, args, parent) ensures false {
      var before, own, after :| plan.items == before + own + after
                                && RunsWithHooks(ws, id, before, own, after, stack, args, parent);
      var items := if prefix == "pre" then before else after;
      OwnItemsArePlanned(ws, plan, before, own, after, stack, args, parent);
      HooksIgnoreArgs(ws, items, stack, args, [], parent);
      RunsUnlessStuck(ws, ws.Hook(id, prefix).value, true, items, stack, [], parent);
    }
  }

  /** Owners tell the items of a task from those of its hooks. */
  lemma OwnItemsArePlanned(ws: Workspace, plan: TaskExecution, before: seq<Item>, own: seq<Item>, after: seq<Item>,
                           stack: seq<Frame>, args: seq<string>, parent: TaskQuery)
    requires IsPlan(ws, plan, stack, args, parent) && plan.items == before + own + after
    requires RunsWithHooks(ws, plan.id, before, own, after, stack, args, parent)
    ensures ArePlannedItems(ws, own, false, stack, args, parent)
    ensures ArePlannedItems(ws, before, true, stack, args, parent)
    ensures ArePlannedItems(ws, after, true, stack, args, parent)
  {
    HookIsAnother(ws, plan.id, "pre");
    HookIsAnother(ws, plan.id, "post");
    forall item | item in own ensures IsPlannedItem(ws, item, false, stack, args, parent) {
      assert item in plan.items;
    }
    forall item | item in before ensures IsPlannedItem(ws, item, true, stack, args, parent) {
      assert item in plan.items && item.owner != plan.id;
    }
    forall item | item in after ensures IsPlannedItem(ws, item, true, stack, args, parent) {
      assert item in plan.items && item.owner != plan.id;
    }
  }

  lemma HookIsAnother(ws: Workspace, id: TaskId, prefix: string)
    requires id in ws.tasks && prefix != []
    ensures ws.Hook(id, prefix).Some? ==> ws.Hook(id, prefix).value != id
  {
    assert |prefix + id.name| > |id.name|;
  }

  // ---------------------------------------------------------------- planning

  /** The part of the planning context that decides what is expanded. */
  class PlanContext {
    var taskCallStack: seq<Frame>
    var extraArgs: seq<string>
    var parentQuery: TaskQuery

    constructor (parentQuery: TaskQuery)
      ensures taskCallStack == [] && extraArgs == [] && this.parentQuery == parentQuery
    {
      taskCallStack, extraArgs, this.parentQuery := [], [], parentQuery;
    }

    constructor Copy(other: PlanContext)
      ensures taskCallStack == other.taskCallStack && extraArgs == other.extraArgs && parentQuery == other.parentQuery
    {
      taskCallStack, extraArgs, parentQuery := other.taskCallStack, other.extraArgs, other.parentQuery;
    }

    method Duplicate() returns (copy: PlanContext)
      ensures fresh(copy)
      ensures copy.taskCallStack == taskCallStack && copy.extraArgs == extraArgs && copy.parentQuery == parentQuery
    {
      copy := new PlanContext.Copy(this);
    }

    /** Where `id` already is on the call stack, if it is. */
    method CheckRecursion(id: TaskId) returns (point: Option<nat>)
      ensures point.None? <==> !IsOnStack(id, taskCallStack)
      ensures point.Some? ==> point.value < |taskCallStack| && taskCallStack[point.value].task == id
                              && !IsOnStack(id, taskCallStack[..point.value])
    {
      for i := 0 to |taskCallStack|
        invariant !IsOnStack(id, taskCallStack[..i])
      {
        if taskCallStack[i].task == id {
          return Some(i);
        }
        assert taskCallStack[..i + 1] == taskCallStack[..i] + [taskCallStack[i]];
      }
      assert taskCallStack[..|taskCallStack|] == taskCallStack;
      return None;
    }

    method PushStackFrame(frame: Frame)
      modifies `taskCallStack
      ensures taskCallStack == old(taskCallStack) + [frame]
    {
      taskCallStack := taskCallStack + [frame];
    }

    method SetExtraArgs(extraArgs: seq<string>)
      modifies `extraArgs
      ensures this.extraArgs == extraArgs
    {
      this.extraArgs := extraArgs;
    }

    method SetParentQuery(query: TaskQuery)
      modifies `parentQuery
      ensures parentQuery == query
    {
      parentQuery := query;
    }
  }

  ghost predicate ArePlannedItems(ws: Workspace, items: seq<Item>, asHook: bool, stack: seq<Frame>, args: seq<string>,
                                  parent: TaskQuery)
  {
    forall item :: item in items ==> IsPlannedItem(ws, item, asHook, stack, args, parent)
  }

  /** Plans one part of an and-list. No item means it was a `cd` or repeated the query being expanded. */
  method PlanPart(ws: Workspace, frame: Frame, context: PlanContext) returns (r: Result<Option<Item>, PlanError>)
    requires ws.Valid() && !IsOnStack(frame.task, context.taskCallStack) && IsStack(ws, context.taskCallStack)
    requires IsPosition(ws, frame.task, frame.command, frame.part) && ws.tasks[frame.task].commands[frame.command].AndList?
    requires frame.asHook ==> context.extraArgs == []
    ensures r.Ok? ==> IsPartPlan(ws, frame, r.value, context.taskCallStack, context.extraArgs, context.parentQuery)
    ensures r.Err? ==> IsStuckAt(ws, frame, context.taskCallStack, context.extraArgs, context.parentQuery)
    ensures r.Err? ==> !r.error.CycleDependencyDetected?
    decreases ws.tasks.Keys - StackSet(context.taskCallStack), 0
  {
    var id, command, part := frame.task, frame.command, frame.part;
    var parts := ws.tasks[id].commands[command].parts;
    var itemContext := context.Duplicate();
    itemContext.PushStackFrame(frame);
    PushKeepsDistinct(ws, context.taskCallStack, frame);
    var isLast := command + 1 == |ws.tasks[id].commands| && part + 1 == |parts|;
    var extraArgs := if isLast then itemContext.extraArgs else [];
    var args := parts[part].args + extraArgs;
    if parts[part].program == "cd" {
      if |args| == 0 && !ws.hasHome {
        return Err(NoHomeDirectory);
      }
      if |args| > 1 {
        return Err(CdTooManyArgs);
      }
      return Ok(None);
    }
    if parts[part].program == "echo" {
      return Ok(Some(Item(id, command, part, extraArgs, Leaf)));
    }
    match ws.replies(itemContext.taskCallStack)
    case Fails =>
      return Err(OutsideFailure);
    case Spawns =>
      return Ok(Some(Item(id, command, part, extraArgs, Leaf)));
    case Runs(request, lookup) =>
      if request.query == itemContext.parentQuery {
        return Ok(None);
      }
      if !lookup {
        return Err(NestPlan(OutsideFailure));
      }
      var nested := PlanQuery(ws, request, itemContext);
      match nested
      case Err(error) =>
        NestedHasNoPlan(ws, frame, request, context.taskCallStack, context.extraArgs, context.parentQuery);
        return Err(NestPlan(error));
      case Ok(graph) =>
        if |graph.nodes| == 0 && ws.select(request.query).packageCount != 0 {
          NestedHasNoPlan(ws, frame, request, context.taskCallStack, context.extraArgs, context.parentQuery);
          return Err(NestPlan(NoTasksMatched(request.query.taskName)));
        }
        return Ok(Some(Item(id, command, part, extraArgs, Expanded(request, graph))));
  }

  /** A run whose query has no plan, or an empty one although packages were selected, is in the way. */
  lemma NestedHasNoPlan(ws: Workspace, frame: Frame, request: Request, stack: seq<Frame>, args: seq<string>, parent: TaskQuery)
    requires IsPosition(ws, frame.task, frame.command, frame.part) && ws.tasks[frame.task].commands[frame.command].AndList?
    requires ws.tasks[frame.task].commands[frame.command].parts[frame.part].program !in ["cd", "echo"]
    requires ws.replies(stack + [frame]) == Runs(request, true) && request.query != parent
    requires HasNoPlannedGraph(ws, request, stack + [frame])
             || (Unpruned(ws.select(request.query).tasks, Pruned(ws.select(request.query).tasks, stack + [frame])) == []
                 && ws.select(request.query).packageCount != 0)
    ensures IsStuckAt(ws, frame, stack, args, parent)
  {
    forall item | IsPartPlan(ws, frame, item, stack, args, parent) ensures false {
      NestedIsPlanned(ws, frame, request, item, stack, args, parent);
    }
  }

  lemma NestedIsPlanned(ws: Workspace, frame: Frame, request: Request, item: Option<Item>, stack: seq<Frame>, args: seq<string>, parent: TaskQuery)
    requires IsPosition(ws, frame.task, frame.command, frame.part) && ws.tasks[frame.task].commands[frame.command].AndList?
    requires ws.tasks[frame.task].commands[frame.command].parts[frame.part].program !in ["cd", "echo"]
    requires ws.replies(stack + [frame]) == Runs(request, true) && request.query != parent
    requires IsPartPlan(ws, frame, item, stack, args, parent)
    ensures item.Some? && item.value.kind.Expanded? && item.value.kind.request == request
    ensures IsPlannedGraph(ws, request, stack + [frame], item.value.kind.graph)
    ensures item.value.kind.graph.nodes == [] ==> ws.select(request.query).packageCount == 0
  {
    assert Answers(ws, stack, frame, args, parent, item);
  }

  /** The items of the first `bound` parts of one command. */
  ghost predicate RunsParts(ws: Workspace, owner: TaskId, asHook: bool, command: nat, bound: nat, items: seq<Item>,
                            stack: seq<Frame>, args: seq<string>, parent: TaskQuery)
  {
    && (forall item :: item in items ==> item.owner == owner && item.command == command && item.part < bound)
    && IsOrdered(items)
    && (forall part: nat :: part < bound && IsPosition(ws, owner, command, part) ==>
          IsCovered(ws, items, stack, Frame(owner, command, part, asHook), args, parent))
  }

  function PartCount(command: Command): nat {
    match command
    case Shell => 1
    case AndList(parts) => |parts|
  }

  /** Plans one command of a task. */
  method PlanCommand(ws: Workspace, id: TaskId, asHook: bool, command: nat, context: PlanContext)
    returns (r: Result<seq<Item>, PlanError>)
    requires ws.Valid() && id in ws.tasks && !IsOnStack(id, context.taskCallStack) && IsStack(ws, context.taskCallStack)
    requires command < |ws.tasks[id].commands| && (asHook ==> context.extraArgs == [])
    ensures r.Ok? ==> RunsParts(ws, id, asHook, command, PartCount(ws.tasks[id].commands[command]), r.value,
                                context.taskCallStack, context.extraArgs, context.parentQuery)
    ensures r.Ok? ==> ArePlannedItems(ws, r.value, asHook, context.taskCallStack, context.extraArgs, context.parentQuery)
    ensures r.Err? ==> IsStuck(ws, id, asHook, context.taskCallStack, context.extraArgs, context.parentQuery)
    ensures r.Err? ==> !r.error.CycleDependencyDetected?
    decreases ws.tasks.Keys - StackSet(context.taskCallStack), 1
  {
    match ws.tasks[id].commands[command]
    case Shell =>
      var frame := Frame(id, command, 0, asHook);
      var itemContext := context.Duplicate();
      itemContext.PushStackFrame(frame);
      if ws.replies(itemContext.taskCallStack) == Fails {
        assert IsStuckAt(ws, frame, context.taskCallStack, context.extraArgs, context.parentQuery);
        return Err(OutsideFailure);
      }
      var extraArgs := if command + 1 == |ws.tasks[id].commands| then itemContext.extraArgs else [];
      var item := Item(id, command, 0, extraArgs, Leaf);
      assert item in [item];
      return Ok([item]);
    case AndList(parts) =>
      var items := [];
      for part := 0 to |parts|
        invariant RunsParts(ws, id, asHook, command, part, items, context.taskCallStack, context.extraArgs, context.parentQuery)
        invariant ArePlannedItems(ws, items, asHook, context.taskCallStack, context.extraArgs, context.parentQuery)
      {
        var frame := Frame(id, command, part, asHook);
        var planned := PlanPart(ws, frame, context);
        if planned.Err? {
          return Err(planned.error);
        }
        ghost var before := items;
        if planned.value.Some? {
          items := items + [planned.value.value];
        }
        AppendPart(ws, frame, before, planned.value, items, context.taskCallStack, context.extraArgs, context.parentQuery);
      }
      return Ok(items);
  }

  lemma AppendPart(ws: Workspace, frame: Frame, items: seq<Item>, item: Option<Item>, all: seq<Item>,
                   stack: seq<Frame>, args: seq<string>, parent: TaskQuery)
    requires IsPosition(ws, frame.task, frame.command, frame.part)
    requires RunsParts(ws, frame.task, frame.asHook, frame.command, frame.part, items, stack, args, parent)
    requires IsPartPlan(ws, frame, item, stack, args, parent)
    requires all == if item.Some? then items + [item.value] else items
    ensures RunsParts(ws, frame.task, frame.asHook, frame.command, frame.part + 1, all, stack, args, parent)
  {
    forall i, j | 0 <= i < j < |all| ensures Precedes(all[i], all[j]) {
      assert items[i] in items;
    }
    forall part: nat | part < frame.part + 1 && IsPosition(ws, frame.task, frame.command, part)
      ensures IsCovered(ws, all, stack, frame.(part := part), args, parent)
    {
      if part < frame.part {
        assert IsCovered(ws, items, stack, frame.(part := part), args, parent);
        MoreItemsCover(ws, items, all, stack, frame.(part := part), args, parent);
      } else if item.Some? {
        assert item.value in all;
      }
    }
  }

  lemma MoreItemsCover(ws: Workspace, items: seq<Item>, all: seq<Item>, stack: seq<Frame>, frame: Frame, args: seq<string>, parent: TaskQuery)
    requires IsCovered(ws, items, stack, frame, args, parent)
    requires forall item :: item in items ==> item in all
    ensures IsCovered(ws, all, stack, frame, args, parent)
  {
    if HasItem(items, frame.command, frame.part) {
      var item :| item in items && item.command == frame.command && item.part == frame.part;
      assert item in all;
    }
  }

  lemma AppendCommand(ws: Workspace, id: TaskId, asHook: bool, command: nat, items: seq<Item>, more: seq<Item>,
                      stack: seq<Frame>, args: seq<string>, parent: TaskQuery)
    requires RunsCommands(ws, id, asHook, command, items, stack, args, parent)
    requires id in ws.tasks && command < |ws.tasks[id].commands|
    requires RunsParts(ws, id, asHook, command, PartCount(ws.tasks[id].commands[command]), more, stack, args, parent)
    ensures RunsCommands(ws, id, asHook, command + 1, items + more, stack, args, parent)
  {
    var all := items + more;
    forall i, j | 0 <= i < j < |all| ensures Precedes(all[i], all[j]) {
      if i < |items| && j >= |items| {
        assert items[i] in items && more[j - |items|] in more;
      }
    }
    forall c: nat, part: nat | c < command + 1 && IsPosition(ws, id, c, part)
      ensures IsCovered(ws, all, stack, Frame(id, c, part, asHook), args, parent)
    {
      MoreItemsCover(ws, if c < command then items else more, all, stack, Frame(id, c, part, asHook), args, parent);
    }
  }

  /** The commands of a task without its hooks. */
  method PlanOwnCommands(ws: Workspace, id: TaskId, asHook: bool, context: PlanContext)
    returns (r: Result<seq<Item>, PlanError>)
    requires ws.Valid() && id in ws.tasks && !IsOnStack(id, context.taskCallStack) && IsStack(ws, context.taskCallStack)
    requires asHook ==> context.extraArgs == []
    ensures r.Ok? ==> RunsTask(ws, id, asHook, r.value, context.taskCallStack, context.extraArgs, context.parentQuery)
    ensures r.Ok? ==> ArePlannedItems(ws, r.value, asHook, context.taskCallStack, context.extraArgs, context.parentQuery)
    ensures r.Err? ==> IsStuck(ws, id, asHook, context.taskCallStack, context.extraArgs, context.parentQuery)
    ensures r.Err? ==> !r.error.CycleDependencyDetected?
    decreases ws.tasks.Keys - StackSet(context.taskCallStack), 2
  {
    var items := [];
    for command := 0 to |ws.tasks[id].commands|
      invariant RunsCommands(ws, id, asHook, command, items, context.taskCallStack, context.extraArgs, context.parentQuery)
      invariant ArePlannedItems(ws, items, asHook, context.taskCallStack, context.extraArgs, context.parentQuery)
    {
      var planned := PlanCommand(ws, id, asHook, command, context);
      if planned.Err? {
        return planned;
      }
      AppendCommand(ws, id, asHook, command, items, planned.value, context.taskCallStack, context.extraArgs, context.parentQuery);
      items := items + planned.value;
    }
    return Ok(items);
  }

  /** The items of a `pre` or `post` hook, planned without extra arguments and without hooks of its own. */
  method PlanHook(ws: Workspace, id: TaskId, prefix: string, context: PlanContext)
    returns (r: Result<seq<Item>, PlanError>)
    requires ws.Valid() && id in ws.tasks && IsStack(ws, context.taskCallStack) && (prefix == "pre" || prefix == "post")
    ensures r.Ok? ==> RunsHook(ws, id, prefix, r.value, context.taskCallStack, context.parentQuery)
    ensures r.Ok? ==> ArePlannedItems(ws, r.value, true, context.taskCallStack, context.extraArgs, context.parentQuery)
    ensures r.Err? ==> HasNoPlan(ws, id, context.taskCallStack, context.extraArgs, context.parentQuery)
    ensures r.Err? ==> !r.error.CycleDependencyDetected?
    decreases ws.tasks.Keys - StackSet(context.taskCallStack), 4
  {
    var hook := ws.Hook(id, prefix);
    if !ws.hooksEnabled || hook.None? {
      return Ok([]);
    }
    var hookContext := context.Duplicate();
    hookContext.SetExtraArgs([]);
    var planned := PlanTask(ws, hook.value, hookContext, false);
    if planned.Err? {
      StuckHookHasNoPlan(ws, id, prefix, context.taskCallStack, context.extraArgs, context.parentQuery);
      return Err(planned.error);
    }
    HooksIgnoreArgs(ws, planned.value.items, context.taskCallStack, [], context.extraArgs, context.parentQuery);
    return Ok(planned.value.items);
  }

  /** Plans a task and, unless it is itself run as a hook, its hooks around it. */
  method PlanTask(ws: Workspace, id: TaskId, context: PlanContext, withHooks: bool)
    returns (r: Result<TaskExecution, PlanError>)
    requires ws.Valid() && id in ws.tasks && IsStack(ws, context.taskCallStack)
    requires !withHooks ==> context.extraArgs == []
    ensures IsOnStack(id, context.taskCallStack) ==>
              && r.Err? && r.error.Recursion? && r.error.point < |context.taskCallStack|
              && context.taskCallStack[r.error.point].task == id
    ensures r.Ok? ==> r.value.id == id
    ensures r.Ok? && !withHooks ==>
              && RunsTask(ws, id, true, r.value.items, context.taskCallStack, [], context.parentQuery)
              && ArePlannedItems(ws, r.value.items, true, context.taskCallStack, [], context.parentQuery)
    ensures r.Ok? && withHooks ==> IsPlan(ws, r.value, context.taskCallStack, context.extraArgs, context.parentQuery)
    ensures r.Err? && !withHooks ==> IsStuck(ws, id, true, context.taskCallStack, [], context.parentQuery)
    ensures r.Err? && withHooks ==> HasNoPlan(ws, id, context.taskCallStack, context.extraArgs, context.parentQuery)
    ensures r.Err? ==> !r.error.CycleDependencyDetected?
    decreases ws.tasks.Keys - StackSet(context.taskCallStack), if withHooks then 5 else 3
  {
    var point := context.CheckRecursion(id);
    if point.Some? {
      StuckUnlessHook(ws, id, !withHooks, context.taskCallStack, context.extraArgs, context.parentQuery);
      return Err(Recursion(point.value));
    }
    var before, after := [], [];
    if withHooks {
      var pre := PlanHook(ws, id, "pre", context);
      if pre.Err? {
        return Err(pre.error);
      }
      before := pre.value;
    }
    var own := PlanOwnCommands(ws, id, !withHooks, context);
    if own.Err? {
      StuckUnlessHook(ws, id, !withHooks, context.taskCallStack, context.extraArgs, context.parentQuery);
      return Err(own.error);
    }
    if withHooks {
      var post := PlanHook(ws, id, "post", context);
      if post.Err? {
        return Err(post.error);
      }
      after := post.value;
      JoinsHooks(ws, id, before, own.value, after, context.taskCallStack, context.extraArgs, context.parentQuery);
    }
    assert !withHooks ==> before + own.value + after == own.value;
    return Ok(TaskExecution(id, before + own.value + after));
  }

  lemma StuckUnlessHook(ws: Workspace, id: TaskId, asHook: bool, stack: seq<Frame>, args: seq<string>, parent: TaskQuery)
    requires id in ws.tasks && IsStuck(ws, id, asHook, stack, args, parent)
    ensures !asHook ==> HasNoPlan(ws, id, stack, args, parent)
  {
    if !asHook {
      StuckHasNoPlan(ws, id, stack, args, parent);
    }
  }

  lemma JoinsHooks(ws: Workspace, id: TaskId, before: seq<Item>, own: seq<Item>, after: seq<Item>,
                   stack: seq<Frame>, args: seq<string>, parent: TaskQuery)
    requires id in ws.tasks && RunsWithHooks(ws, id, before, own, after, stack, args, parent)
    requires ArePlannedItems(ws, before, true, stack, args, parent) && ArePlannedItems(ws, after, true, stack, args, parent)
    requires ArePlannedItems(ws, own, false, stack, args, parent)
    ensures IsPlan(ws, TaskExecution(id, before + own + after), stack, args, parent)
  {
    HookIsAnother(ws, id, "pre");
    HookIsAnother(ws, id, "post");
    var plan := TaskExecution(id, before + own + after);
    forall item | item in plan.items ensures IsPlannedItem(ws, item, item.owner != id, stack, args, parent) {
      assert item in before || item in own || item in after;
    }
  }

  /** Plans every selected task but the one being expanded, then connects and validates the graph. */
  method PlanQuery(ws: Workspace, request: Request, context: PlanContext)
    returns (r: Result<DiGraph<TaskExecution>, PlanError>)
    requires ws.Valid() && IsStack(ws, context.taskCallStack)
    modifies context
    ensures context.taskCallStack == old(context.taskCallStack)
    ensures r.Ok? ==> IsPlannedGraph(ws, request, context.taskCallStack, r.value)
    ensures r.Err? ==> HasNoPlannedGraph(ws, request, context.taskCallStack)
    ensures r.Err? <==> IsUnplannable(ws, request, context.taskCallStack)
    ensures r.Err? && r.error.CycleDependencyDetected? ==>
              !request.parallel && IsReportedCycle(ws.select(request.query).tasks, context.taskCallStack, r.error.path)
    decreases ws.tasks.Keys - StackSet(context.taskCallStack), 7
  {
    context.SetParentQuery(request.query);
    var queried := ws.select(request.query).tasks;
    var pruned := Pruned(queried, context.taskCallStack);
    var nodes: seq<TaskExecution> := [];
    var indices: map<TaskId, nat> := map[];
    ghost var stack := context.taskCallStack;
    for i := 0 to |queried|
      invariant context.taskCallStack == stack && context.parentQuery == request.query
      invariant AreNodesSoFar(ws, request, queried[..i], pruned, stack, nodes, indices)
    {
      NextIsNew(queried, i);
      ghost var before := queried[..i];
      if Some(queried[i].id) == pruned {
        SkipNode(ws, request, before, queried[i], pruned, stack, nodes, indices);
        continue;
      }
      RequestedArgs(queried, request, i);
      var planned := PlanNode(ws, request, queried[i], context);
      if planned.Err? {
        NodeHasNoPlan(ws, request, queried[i].id, stack);
        TaskIsInTheWay(ws, request, stack, i);
        return Err(planned.error);
      }
      AddNode(ws, request, before, queried[i], pruned, stack, nodes, indices, planned.value);
      indices := indices[queried[i].id := |nodes|];
      nodes := nodes + [planned.value];
    }
    assert queried[..|queried|] == queried;
    r := Validate(ws, request, context.taskCallStack, pruned, nodes, indices);
    if r.Err? {
      CycleHasNoGraph(ws, request, stack);
      CycleIsInTheWay(ws, request, stack);
    } else {
      PlannedIsPlannable(ws, request, stack, r.value);
    }
  }

  lemma NodeHasNoPlan(ws: Workspace, request: Request, id: TaskId, stack: seq<Frame>)
    requires var queried := ws.select(request.query).tasks;
             id in Ids(queried) && Some(id) != Pruned(queried, stack)
             && HasNoPlan(ws, id, stack, ArgsFor(queried, request, id), request.query)
    ensures HasNoPlannedGraph(ws, request, stack)
  {
    var queried := ws.select(request.query).tasks;
    var names := Unpruned(queried, Pruned(queried, stack));
    var i: nat :| i < |names| && names[i] == id;
    forall graph | IsPlannedGraph(ws, request, stack, graph) ensures false {
      NodeIsPlanned(ws, request, stack, graph, i);
    }
  }

  lemma NodeIsPlanned(ws: Workspace, request: Request, stack: seq<Frame>, graph: DiGraph<TaskExecution>, i: nat)
    requires IsPlannedGraph(ws, request, stack, graph) && i < |graph.nodes|
    ensures var queried := ws.select(request.query).tasks;
            && graph.nodes[i].id == Unpruned(queried, Pruned(queried, stack))[i]
            && IsPlan(ws, graph.nodes[i], stack, ArgsFor(queried, request, graph.nodes[i].id), request.query)
  {
    assert graph.nodes[i] in graph.nodes;
  }

  lemma CycleHasNoGraph(ws: Workspace, request: Request, stack: seq<Frame>)
    requires !request.parallel
    requires HasCycleOutside(ws.select(request.query).tasks, Pruned(ws.select(request.query).tasks, stack))
    ensures HasNoPlannedGraph(ws, request, stack)
  {
    forall graph | IsPlannedGraph(ws, request, stack, graph) ensures false {
      PlannedGraphRulesOutCycles(ws, request, stack, graph);
    }
  }

  /** Plans one selected task; only tasks the query named get its extra arguments. */
  method PlanNode(ws: Workspace, request: Request, task: QueriedTask, context: PlanContext)
    returns (r: Result<TaskExecution, PlanError>)
    requires ws.Valid() && IsStack(ws, context.taskCallStack) && task.id in ws.tasks
    ensures r.Ok? ==> r.value.id == task.id
                      && IsPlan(ws, r.value, context.taskCallStack, if task.requested then request.extraArgs else [], context.parentQuery)
    ensures r.Err? ==> HasNoPlan(ws, task.id, context.taskCallStack, if task.requested then request.extraArgs else [], context.parentQuery)
    ensures r.Err? ==> !r.error.CycleDependencyDetected?
    decreases ws.tasks.Keys - StackSet(context.taskCallStack), 6
  {
    var taskContext := context.Duplicate();
    taskContext.SetExtraArgs(if task.requested then request.extraArgs else []);
    r := PlanTask(ws, task.id, taskContext, true);
  }

  ghost predicate AreNodesSoFar(ws: Workspace, request: Request, queried: seq<QueriedTask>, pruned: Option<TaskId>,
                                stack: seq<Frame>, nodes: seq<TaskExecution>, indices: map<TaskId, nat>)
  {
    && AreNodes(queried, pruned, Unpruned(queried, pruned), indices)
    && ArePlannedNodes(ws, request, queried, pruned, stack, nodes)
  }

  lemma SkipNode(ws: Workspace, request: Request, before: seq<QueriedTask>, task: QueriedTask, pruned: Option<TaskId>,
                 stack: seq<Frame>, nodes: seq<TaskExecution>, indices: map<TaskId, nat>)
    requires AreNodesSoFar(ws, request, before, pruned, stack, nodes, indices)
    requires task.id !in Ids(before) && Some(task.id) == pruned
    ensures AreNodesSoFar(ws, request, before + [task], pruned, stack, nodes, indices)
  {
    UnprunedAppend(before, pruned, task);
    ExtendNodes(before, task, pruned, Unpruned(before, pruned), indices);
  }

  lemma AddNode(ws: Workspace, request: Request, before: seq<QueriedTask>, task: QueriedTask, pruned: Option<TaskId>,
                stack: seq<Frame>, nodes: seq<TaskExecution>, indices: map<TaskId, nat>, plan: TaskExecution)
    requires AreNodesSoFar(ws, request, before, pruned, stack, nodes, indices)
    requires task.id !in Ids(before) && Some(task.id) != pruned && plan.id == task.id
    requires IsPlan(ws, plan, stack, ArgsFor(ws.select(request.query).tasks, request, task.id), request.query)
    ensures AreNodesSoFar(ws, request, before + [task], pruned, stack, nodes + [plan], indices[task.id := |nodes|])
  {
    UnprunedAppend(before, pruned, task);
    ExtendNodes(before, task, pruned, Unpruned(before, pruned), indices);
    ExtendPlans(ws, request, before, task, pruned, stack, nodes, plan);
  }

  lemma ExtendPlans(ws: Workspace, request: Request, before: seq<QueriedTask>, task: QueriedTask, pruned: Option<TaskId>,
                    stack: seq<Frame>, nodes: seq<TaskExecution>, plan: TaskExecution)
    requires ArePlannedNodes(ws, request, before, pruned, stack, nodes)
    requires Some(task.id) != pruned && plan.id == task.id
    requires IsPlan(ws, plan, stack, ArgsFor(ws.select(request.query).tasks, request, task.id), request.query)
    ensures ArePlannedNodes(ws, request, before + [task], pruned, stack, nodes + [plan])
  {
    UnprunedAppend(before, pruned, task);
    assert forall node :: node in nodes + [plan] <==> node in nodes || node == plan;
  }

  ghost predicate ArePlannedNodes(ws: Workspace, request: Request, queried: seq<QueriedTask>, pruned: Option<TaskId>,
                                  stack: seq<Frame>, nodes: seq<TaskExecution>)
  {
    var names := Unpruned(queried, pruned);
    && |nodes| == |names|
    && (forall i :: 0 <= i < |nodes| ==> nodes[i].id == names[i])
    && forall node :: node in nodes ==>
         IsPlan(ws, node, stack, ArgsFor(ws.select(request.query).tasks, request, node.id), request.query)
  }

  lemma RequestedArgs(queried: seq<QueriedTask>, request: Request, i: nat)
    requires i < |queried| && Distinct(Ids(queried))
    ensures ArgsFor(queried, request, queried[i].id) == if queried[i].requested then request.extraArgs else []
  {
    assert queried[i] in queried;
    if task :| task in queried && task.id == queried[i].id && task.requested {
      var j :| 0 <= j < |queried| && queried[j] == task;
      assert Ids(queried)[i] == Ids(queried)[j];
    }
  }

  lemma UnprunedAppend(queried: seq<QueriedTask>, pruned: Option<TaskId>, task: QueriedTask)
    ensures Unpruned(queried + [task], pruned) ==
            Unpruned(queried, pruned) + if Some(task.id) == pruned then [] else [task.id]
  {
    assert (queried + [task])[..|queried|] == queried;
  }

  lemma ExtendNodes(queried: seq<QueriedTask>, task: QueriedTask, pruned: Option<TaskId>,
                    names: seq<TaskId>, indices: map<TaskId, nat>)
    requires AreNodes(queried, pruned, names, indices) && task.id !in Ids(queried)
    ensures Some(task.id) == pruned ==> AreNodes(queried + [task], pruned, names, indices)
    ensures Some(task.id) != pruned ==>
              AreNodes(queried + [task], pruned, names + [task.id], indices[task.id := |names|])
  {
    assert Ids(queried + [task]) == Ids(queried) + [task.id];
  }

  lemma NextIsNew(queried: seq<QueriedTask>, i: nat)
    requires i < |queried| && Distinct(Ids(queried))
    ensures queried[..i + 1] == queried[..i] + [queried[i]] && queried[i].id !in Ids(queried[..i])
    ensures queried[i].id in Ids(queried)
  {
    forall k | 0 <= k < i ensures Ids(queried[..i])[k] != queried[i].id {
      assert Ids(queried)[k] != Ids(queried)[i];
    }
    assert Ids(queried)[i] == queried[i].id;
  }

  /** A closed walk through tasks that were not pruned; each step is a dependency or a bridge over the pruned task. */
  ghost predicate IsReportedCycle(queried: seq<QueriedTask>, stack: seq<Frame>, path: seq<TaskId>) {
    var pruned := Pruned(queried, stack);
    && |path| >= 2 && path[0] == path[|path| - 1]
    && IsWalk(PrunedEdges(queried, pruned), path)
    && forall id :: id in path ==> id in Unpruned(queried, pruned)
  }

  /** Some selected task that is not pruned depends on itself, directly or through others. */
  ghost predicate HasCycleOutside(queried: seq<QueriedTask>, pruned: Option<TaskId>) {
    exists id :: id in Ids(queried) && Some(id) != pruned && Joined(TaskEdges(queried), id, id)
  }

  /** A graph planned without `--parallel` proves that no task outside the pruned one is on a cycle. */
  lemma PlannedGraphRulesOutCycles(ws: Workspace, request: Request, stack: seq<Frame>, graph: DiGraph<TaskExecution>)
    requires IsPlannedGraph(ws, request, stack, graph) && !request.parallel
    ensures !HasCycleOutside(ws.select(request.query).tasks, Pruned(ws.select(request.query).tasks, stack))
  {
    var queried := ws.select(request.query).tasks;
    var pruned := Pruned(queried, stack);
    forall id | id in Ids(queried) && Some(id) != pruned ensures !Joined(TaskEdges(queried), id, id) {
      var i: nat :| i < |Unpruned(queried, pruned)| && Unpruned(queried, pruned)[i] == id;
      assert graph.nodes[i].id == id;
      assert IsAcyclic(graph);
      assert !Joined(graph.EdgeSet(), i, i);
    }
  }

  /** The cycle an error shows is one of the original dependencies. */
  lemma ReportedCycleIsReal(queried: seq<QueriedTask>, stack: seq<Frame>, path: seq<TaskId>)
    requires IsReportedCycle(queried, stack, path)
    ensures Joined(TaskEdges(queried), path[0], path[0])
    ensures HasCycleOutside(queried, Pruned(queried, stack))
  {
    var pruned := Pruned(queried, stack);
    assert path[0] in path;
    assert IsWalkBetween(PrunedEdges(queried, pruned), path, path[0], path[0]);
    if pruned.Some? {
      ContractPreservesJoined(TaskEdges(queried), pruned.value, path[0], path[0]);
    }
  }

  /** Connects the planned tasks as their dependencies say and rejects the graph if that makes a cycle. */
  method Validate(ws: Workspace, request: Request, ghost stack: seq<Frame>, pruned: Option<TaskId>,
                  nodes: seq<TaskExecution>, indices: map<TaskId, nat>)
    returns (r: Result<DiGraph<TaskExecution>, PlanError>)
    requires ws.Valid() && pruned == Pruned(ws.select(request.query).tasks, stack)
    requires var queried := ws.select(request.query).tasks;
             AreNodes(queried, pruned, Unpruned(queried, pruned), indices)
             && ArePlannedNodes(ws, request, queried, pruned, stack, nodes)
    ensures r.Ok? ==> IsPlannedGraph(ws, request, stack, r.value)
    ensures r.Err? ==> r.error.CycleDependencyDetected? && !request.parallel
                       && IsReportedCycle(ws.select(request.query).tasks, stack, r.error.path)
    ensures r.Err? <==> !request.parallel && HasCycleOutside(ws.select(request.query).tasks, pruned)
  {
    var queried := ws.select(request.query).tasks;
    ghost var names := Unpruned(queried, pruned);
    var graph := Connect(queried, pruned, nodes, names, indices);
    CyclesAreKept(queried, pruned, names, indices, graph);
    if request.parallel {
      graph := graph.(edges := []);
    }
    var cycle := FindCyclePath(graph);
    if cycle.Some? {
      assert !request.parallel by {
        CycleNode(graph, cycle.value, 0);
      }
      var path := NameCycle(queried, pruned, names, indices, graph, cycle.value);
      return Err(CycleDependencyDetected(path));
    }
    forall i: nat, j: nat | !request.parallel && i < |nodes| && j < |nodes|
      ensures Joined(graph.EdgeSet(), i, j) <==> Joined(TaskEdges(queried), nodes[i].id, nodes[j].id)
    {
      OrderIsKept(queried, pruned, names, indices, graph, i, j);
    }
    return Ok(graph);
  }

  /** Looks up the task of every node on the cycle; each lookup succeeds. */
  method NameCycle(queried: seq<QueriedTask>, pruned: Option<TaskId>, ghost names: seq<TaskId>,
                   indices: map<TaskId, nat>, ghost graph: DiGraph<TaskExecution>, cycle: seq<nat>)
    returns (path: seq<TaskId>)
    requires AreNodes(queried, pruned, names, indices)
    requires graph.edges == [] || Realises(queried, pruned, names, graph)
    requires graph.Valid() && IsCyclePath(graph.EdgeSet(), cycle)
    ensures graph.edges != []
    ensures |path| == |cycle| && path[0] == path[|path| - 1]
    ensures IsWalk(PrunedEdges(queried, pruned), path)
    ensures forall id :: id in path ==> id in names
  {
    CycleNode(graph, cycle, 0);
    path := [];
    for k := 0 to |cycle|
      invariant |path| == k && forall i :: 0 <= i < k ==> cycle[i] < |names| && path[i] == names[cycle[i]]
    {
      CycleNode(graph, cycle, k);
      assert names[cycle[k]] in indices;
      var id :| id in indices && indices[id] == cycle[k];
      path := path + [id];
    }
    forall i: nat | i + 1 < |path| ensures IsStep(PrunedEdges(queried, pruned), path, i) {
      assert IsStep(graph.EdgeSet(), cycle, i);
      assert (cycle[i], cycle[i + 1]) in graph.edges;
    }
  }

  lemma CycleNode(graph: Graph<TaskExecution>, cycle: seq<nat>, k: nat)
    requires IsCyclePath(graph.EdgeSet(), cycle) && k < |cycle|
    ensures cycle[k] < |graph.nodes| && graph.edges != []
  {
    assert IsStep(graph.EdgeSet(), cycle, if k == 0 then 0 else k - 1);
    assert (cycle[if k == 0 then 0 else k - 1], cycle[if k == 0 then 1 else k]) in graph.edges;
  }
}
