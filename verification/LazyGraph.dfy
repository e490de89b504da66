/**
 * A graph that loads its partitions on first access, read by any number of concurrent calls.
 *
 * Each step of a call runs between two suspension points. A cell that some call is initialising
 * makes the others wait; a failed or dropped initialiser leaves the cell empty for the next one.
 */
module LazyGraph {
  import opened Wrappers
  import QueryGraph

  /** The graph of tasks: a key is a task's id, a partition is a package. */
  type Key = QueryGraph.TaskId
  type Partition = nat
  datatype Node = Node(key: Key, body: nat)

  /** What a resolver reads before it answers: single nodes and whole partitions, never edges. */
  datatype Question = AskNode(key: Key) | AskNodes(partition: Partition) | Finish(keys: seq<Key>) | Abort
  datatype Reply = Found(node: Option<Node>) | Listed(nodes: seq<Node>)

  /**
   * `content` is what a successful load returns; any load may also fail. `resolve` is the next
   * move of the edge resolution of a node, given the replies so far; any move may also fail.
   */
  datatype Loader = Loader(
    partitions: set<Partition>,
    partitionOf: Key -> Partition,
    content: Partition -> seq<Node>,
    resolve: (Key, seq<Reply>) -> Question)

  // ---------------------------------------------------------------- the fully loaded graph

  function Find(nodes: seq<Node>, key: Key): (node: Option<Node>)
    ensures node.Some? ==> node.value in nodes && node.value.key == key
    ensures node.None? ==> forall n :: n in nodes ==> n.key != key
  {
    if nodes == [] then None
    else if nodes[0].key == key then Some(nodes[0])
    else Find(nodes[1..], key)
  }

  function EagerNode(loader: Loader, key: Key): Option<Node> {
    Find(loader.content(loader.partitionOf(key)), key)
  }

  function Keys(nodes: seq<Node>): (keys: seq<Key>)
    ensures |keys| == |nodes| && forall i :: 0 <= i < |nodes| ==> keys[i] == nodes[i].key
  {
    seq(|nodes|, i requires 0 <= i < |nodes| => nodes[i].key)
  }

  /** `replies` are what the fully loaded graph answers to the resolver's first questions. */
  ghost predicate AreEagerReplies(loader: Loader, source: Key, replies: seq<Reply>)
    decreases |replies|
  {
    replies == [] ||
    var before, last := replies[..|replies| - 1], replies[|replies| - 1];
    && AreEagerReplies(loader, source, before)
    && match loader.resolve(source, before)
       case AskNode(key) => last == Found(EagerNode(loader, key))
       case AskNodes(partition) => last == Listed(loader.content(partition))
       case _ => false
  }

  /** On the fully loaded graph, the edges of `source` resolve to `keys`. */
  ghost predicate ResolvesTo(loader: Loader, source: Key, keys: seq<Key>) {
    exists replies :: AreEagerReplies(loader, source, replies) && loader.resolve(source, replies) == Finish(keys)
  }

  /** The conditions a loader promises to the graph. */
  ghost predicate MeetsContract(loader: Loader) {
    && (forall p :: p in loader.partitions ==> LoadsProperly(loader, p))
    && (forall source, replies :: AsksProperly(loader, loader.resolve(source, replies)))
    && (forall source, keys, key :: ResolvesTo(loader, source, keys) && key in keys ==>
          loader.partitionOf(key) in loader.partitions && EagerNode(loader, key).Some?)
  }

  ghost predicate LoadsProperly(loader: Loader, p: Partition) {
    var nodes := loader.content(p);
    && (forall node :: node in nodes ==> loader.partitionOf(node.key) == p)
    && (forall i, j :: 0 <= i < j < |nodes| ==> nodes[i].key != nodes[j].key)
  }

  ghost predicate AsksProperly(loader: Loader, question: Question) {
    match question
    case AskNode(key) => loader.partitionOf(key) in loader.partitions
    case AskNodes(p) => p in loader.partitions
    case _ => true
  }

  predicate Asks(question: Question) {
    question.AskNode? || question.AskNodes?
  }

  /** Each key once, where it first occurs. */
  function Dedup(keys: seq<Key>): (unique: seq<Key>)
    ensures forall key :: key in unique <==> key in keys
    ensures forall i, j :: 0 <= i < j < |unique| ==> unique[i] != unique[j]
  {
    if keys == [] then []
    else
      var before, last := keys[..|keys| - 1], keys[|keys| - 1];
      assert keys == before + [last];
      if last in Dedup(before) then Dedup(before) else Dedup(before) + [last]
  }

  /** Where a key first occurs. */
  function FirstIndex(keys: seq<Key>, key: Key): (i: nat)
    requires key in keys
    ensures i < |keys| && keys[i] == key && forall j :: 0 <= j < i ==> keys[j] != key
  {
    if keys[0] == key then 0 else 1 + FirstIndex(keys[1..], key)
  }

  /** What is kept stays in the order of first occurrence. */
  lemma {:induction false} DedupKeepsOrder(keys: seq<Key>, i: nat, j: nat)
    requires i < j < |Dedup(keys)|
    ensures FirstIndex(keys, Dedup(keys)[i]) < FirstIndex(keys, Dedup(keys)[j])
  {
    var before, last := keys[..|keys| - 1], keys[|keys| - 1];
    var unique := Dedup(before);
    assert keys == before + [last];
    FirstIndexOfPrefix(before, last, unique[i]);
    if j < |unique| {
      DedupKeepsOrder(before, i, j);
      FirstIndexOfPrefix(before, last, unique[j]);
    }
  }

  lemma FirstIndexOfPrefix(before: seq<Key>, last: Key, key: Key)
    requires key in before
    ensures FirstIndex(before + [last], key) == FirstIndex(before, key)
  {
    var keys := before + [last];
    assert keys[FirstIndex(before, key)] == key;
    assert forall j :: 0 <= j < |before| ==> keys[j] == before[j];
  }

  function EagerNodes(loader: Loader, keys: seq<Key>): seq<Node>
    requires forall key :: key in keys ==> EagerNode(loader, key).Some?
  {
    seq(|keys|, i requires 0 <= i < |keys| => EagerNode(loader, keys[i]).value)
  }

  // ---------------------------------------------------------------- the lazy graph

  datatype Goal = GetNode(key: Key) | ListNodes(partition: Partition) | ListNeighbors(key: Key)
  datatype Answer = OneNode(node: Option<Node>) | ManyNodes(nodes: seq<Node>)

  /** Why a call needs a partition: for its own start, for the resolver, or to check a resolved key. */
  datatype Purpose =
    | Start
    | Asked(replies: seq<Reply>)
    | Checked(keys: seq<Key>, i: nat, edges: seq<Key>)

  datatype Phase =
    | Wants(p: Partition, purpose: Purpose)
    | Loads(p: Partition, purpose: Purpose)
    | WantsEdges
    | Resolves(replies: seq<Reply>)
    | Checks(keys: seq<Key>, i: nat, edges: seq<Key>)
    | Done(answer: Answer)
    | Failed
    | Panicked

  datatype Call = Call(goal: Goal, phase: Phase)

  /** A cell that is not in its map is empty. */
  datatype Cell = Busy(call: nat) | Ready(keys: seq<Key>)

  datatype State = State(
    cells: map<Partition, Cell>,
    nodes: map<Key, Node>,
    edges: map<Key, Cell>,
    calls: seq<Call>,
    loads: map<Partition, nat>)

  function Initial(): State {
    State(map[], map[], map[], [], map[])
  }

  datatype Action = Begin(goal: Goal) | Advance(c: nat, succeeds: bool) | Drop(c: nat)

  predicate IsUnfinished(phase: Phase) {
    !phase.Done? && !phase.Failed? && !phase.Panicked?
  }

  function GoalPartition(loader: Loader, goal: Goal): Partition {
    match goal
    case GetNode(key) => loader.partitionOf(key)
    case ListNodes(p) => p
    case ListNeighbors(key) => loader.partitionOf(key)
  }

  predicate IsBlocked(s: State, call: Call) {
    match call.phase
    case Wants(p, _) => p in s.cells && s.cells[p].Busy?
    case WantsEdges => call.goal.ListNeighbors? && call.goal.key in s.edges && s.edges[call.goal.key].Busy?
    case _ => false
  }

  predicate Enabled(loader: Loader, s: State, a: Action) {
    match a
    case Begin(goal) => GoalPartition(loader, goal) in loader.partitions
    case Advance(c, _) => c < |s.calls| && IsUnfinished(s.calls[c].phase) && !IsBlocked(s, s.calls[c])
    case Drop(c) => c < |s.calls| && IsUnfinished(s.calls[c].phase)
  }

  /** The partition cell a call is initialising. */
  function HeldPartition(call: Call): Option<Partition> {
    if call.phase.Loads? then Some(call.phase.p) else None
  }

  /** The edge cell a call is initialising. */
  function HeldEdges(call: Call): Option<Key> {
    if !call.goal.ListNeighbors? then None
    else match call.phase
         case Wants(_, purpose) => if purpose.Start? then None else Some(call.goal.key)
         case Loads(_, purpose) => if purpose.Start? then None else Some(call.goal.key)
         case Resolves(_) => Some(call.goal.key)
         case Checks(_, _, _) => Some(call.goal.key)
         case _ => None
  }

  datatype Effect =
    | Nothing
    | TakesPartition(p: Partition)
    | FillsPartition(p: Partition)
    | TakesEdges(key: Key)
    | FillsEdges(key: Key, edges: seq<Key>)
    | Releases

  datatype Outcome = Outcome(phase: Phase, effect: Effect)

  function Lookup(nodes: map<Key, Node>, key: Key): Option<Node> {
    if key in nodes then Some(nodes[key]) else None
  }

  /** The nodes of keys the graph handed out earlier; a missing one is a panic. */
  function AllLoaded(nodes: map<Key, Node>, keys: seq<Key>): Phase {
    if forall key :: key in keys ==> key in nodes then
      Done(ManyNodes(seq(|keys|, i requires 0 <= i < |keys| => nodes[keys[i]])))
    else Panicked
  }

  /** Continues once the partition has loaded; `keys` and `nodes` are what the graph then holds. */
  function Arrive(goal: Goal, p: Partition, purpose: Purpose, keys: seq<Key>, nodes: map<Key, Node>): Phase {
    match purpose
    case Start =>
      (match goal
       case GetNode(key) => Done(OneNode(Lookup(nodes, key)))
       case ListNodes(_) => AllLoaded(nodes, keys)
       case ListNeighbors(key) => if key in nodes then WantsEdges else Done(ManyNodes([])))
    case Asked(replies) => Resolves(replies)
    case Checked(ks, i, edges) =>
      if i < |ks| && ks[i] in nodes then Checks(ks, i + 1, edges + [ks[i]]) else Panicked
  }

  /** The reply a resolver gets once the partition it asked about has loaded. */
  function ReplyTo(loader: Loader, source: Key, replies: seq<Reply>, keys: seq<Key>, nodes: map<Key, Node>): Phase {
    match loader.resolve(source, replies)
    case AskNode(key) => Resolves(replies + [Found(Lookup(nodes, key))])
    case AskNodes(_) =>
      var listed := AllLoaded(nodes, keys);
      if listed.Done? && listed.answer.ManyNodes? then Resolves(replies + [Listed(listed.answer.nodes)]) else Panicked
    case _ => Panicked
  }

  function Continue(loader: Loader, goal: Goal, p: Partition, purpose: Purpose, keys: seq<Key>, nodes: map<Key, Node>): Phase {
    if purpose.Asked? && goal.ListNeighbors? then ReplyTo(loader, goal.key, purpose.replies, keys, nodes)
    else Arrive(goal, p, purpose, keys, nodes)
  }

  function Insert(nodes: map<Key, Node>, added: seq<Node>): map<Key, Node> {
    if added == [] then nodes
    else
      var last := added[|added| - 1];
      Insert(nodes, added[..|added| - 1])[last.key := last]
  }

  function WithPartition(loader: Loader, nodes: map<Key, Node>, p: Partition): map<Key, Node> {
    Insert(nodes, loader.content(p))
  }

  function OutcomeOf(loader: Loader, s: State, c: nat, succeeds: bool): Outcome
    requires c < |s.calls|
  {
    var goal := s.calls[c].goal;
    match s.calls[c].phase
    case Wants(p, purpose) =>
      if p !in loader.partitions then Outcome(Panicked, Nothing)
      else if p !in s.cells then Outcome(Loads(p, purpose), TakesPartition(p))
      else if s.cells[p].Busy? then Outcome(Wants(p, purpose), Nothing)
      else Outcome(Continue(loader, goal, p, purpose, s.cells[p].keys, s.nodes), Nothing)
    case Loads(p, purpose) =>
      if !succeeds then Outcome(Failed, Releases)
      else
        var nodes := WithPartition(loader, s.nodes, p);
        Outcome(Continue(loader, goal, p, purpose, Keys(loader.content(p)), nodes), FillsPartition(p))
    case WantsEdges =>
      if !goal.ListNeighbors? then Outcome(Panicked, Nothing)
      else if goal.key !in s.edges then Outcome(Resolves([]), TakesEdges(goal.key))
      else if s.edges[goal.key].Busy? then Outcome(WantsEdges, Nothing)
      else Outcome(AllLoaded(s.nodes, s.edges[goal.key].keys), Nothing)
    case Resolves(replies) =>
      if !succeeds || !goal.ListNeighbors? then Outcome(Failed, Releases)
      else (match loader.resolve(goal.key, replies)
            case AskNode(key) => Outcome(Wants(loader.partitionOf(key), Asked(replies)), Nothing)
            case AskNodes(p) => Outcome(Wants(p, Asked(replies)), Nothing)
            case Finish(keys) => Outcome(Checks(keys, 0, []), Nothing)
            case Abort => Outcome(Failed, Releases))
    case Checks(keys, i, edges) =>
      if !goal.ListNeighbors? then Outcome(Panicked, Nothing)
      else if i >= |keys| then Outcome(AllLoaded(s.nodes, edges), FillsEdges(goal.key, edges))
      else if keys[i] in edges then Outcome(Checks(keys, i + 1, edges), Nothing)
      else Outcome(Wants(loader.partitionOf(keys[i]), Checked(keys, i, edges)), Nothing)
    case phase => Outcome(phase, Nothing)
  }

  function Apply(loader: Loader, s: State, c: nat, outcome: Outcome): State
    requires c < |s.calls|
  {
    var call := s.calls[c];
    var moved := s.(calls := s.calls[c := Call(call.goal, outcome.phase)]);
    match outcome.effect
    case Nothing => moved
    case TakesPartition(p) => moved.(cells := s.cells[p := Busy(c)])
    case FillsPartition(p) =>
      moved.(cells := s.cells[p := Ready(Keys(loader.content(p)))],
             nodes := WithPartition(loader, s.nodes, p),
             loads := s.loads[p := (if p in s.loads then s.loads[p] else 0) + 1])
    case TakesEdges(key) => moved.(edges := s.edges[key := Busy(c)])
    case FillsEdges(key, edges) => moved.(edges := s.edges[key := Ready(edges)])
    case Releases =>
      var p, key := HeldPartition(call), HeldEdges(call);
      moved.(cells := if p.Some? then s.cells - {p.value} else s.cells,
             edges := if key.Some? then s.edges - {key.value} else s.edges)
  }

  function Next(loader: Loader, s: State, a: Action): State
    requires Enabled(loader, s, a)
  {
    match a
    case Begin(goal) => s.(calls := s.calls + [Call(goal, Wants(GoalPartition(loader, goal), Start))])
    case Advance(c, succeeds) => Apply(loader, s, c, OutcomeOf(loader, s, c, succeeds))
    case Drop(c) => Apply(loader, s, c, Outcome(Failed, Releases))
  }

  // ---------------------------------------------------------------- what holds in every state

  ghost predicate IsLoaded(s: State, p: Partition) {
    p in s.cells && s.cells[p].Ready?
  }

  /** Loaded partitions are exactly as in the full graph, and each was loaded once. */
  ghost predicate NodesAreEager(loader: Loader, s: State) {
    && (forall p :: p in s.cells ==> p in loader.partitions)
    && (forall p :: IsLoaded(s, p) ==> s.cells[p].keys == Keys(loader.content(p)))
    && (forall p :: p in s.loads <==> IsLoaded(s, p))
    && (forall p :: p in s.loads ==> s.loads[p] == 1)
    && (forall key :: key in s.nodes <==> IsLoaded(s, loader.partitionOf(key)) && EagerNode(loader, key).Some?)
    && (forall key :: key in s.nodes ==> EagerNode(loader, key) == Some(s.nodes[key]))
  }

  ghost predicate EdgesAreEager(loader: Loader, s: State) {
    forall key :: key in s.edges && s.edges[key].Ready? ==> AreEdges(loader, s.nodes, key, s.edges[key].keys)
  }

  /** `edges` are the resolved keys of a loaded node, each once, and their nodes are loaded. */
  ghost predicate AreEdges(loader: Loader, nodes: map<Key, Node>, source: Key, edges: seq<Key>) {
    && EagerNode(loader, source).Some?
    && (forall key :: key in edges ==> key in nodes)
    && (exists keys :: ResolvesTo(loader, source, keys) && edges == Dedup(keys))
  }

  /** A busy cell and the call that initialises it know each other. */
  ghost predicate HoldersMatch(s: State) {
    && (forall p :: p in s.cells && s.cells[p].Busy? ==>
          s.cells[p].call < |s.calls| && HeldPartition(s.calls[s.cells[p].call]) == Some(p))
    && (forall key :: key in s.edges && s.edges[key].Busy? ==>
          s.edges[key].call < |s.calls| && HeldEdges(s.calls[s.edges[key].call]) == Some(key))
    && (forall c: nat :: c < |s.calls| ==> IsHolder(s, c))
  }

  ghost predicate IsHolder(s: State, c: nat)
    requires c < |s.calls|
  {
    var p, key := HeldPartition(s.calls[c]), HeldEdges(s.calls[c]);
    && (p.Some? ==> p.value in s.cells && s.cells[p.value] == Busy(c))
    && (key.Some? ==> key.value in s.edges && s.edges[key.value] == Busy(c))
  }

  /** The answer of the fully loaded graph. */
  ghost predicate IsEagerAnswer(loader: Loader, goal: Goal, answer: Answer) {
    match goal
    case GetNode(key) => answer == OneNode(EagerNode(loader, key))
    case ListNodes(p) => answer == ManyNodes(loader.content(p))
    case ListNeighbors(key) =>
      if EagerNode(loader, key).None? then answer == ManyNodes([])
      else exists keys :: ResolvesTo(loader, key, keys)
                          && (forall k :: k in Dedup(keys) ==> EagerNode(loader, k).Some?)
                          && answer == ManyNodes(EagerNodes(loader, Dedup(keys)))
  }

  ghost predicate IsChecking(loader: Loader, nodes: map<Key, Node>, source: Key, keys: seq<Key>, i: nat, edges: seq<Key>) {
    && ResolvesTo(loader, source, keys) && i <= |keys| && edges == Dedup(keys[..i])
    && forall key :: key in edges ==> key in nodes
  }

  ghost predicate IsOnPurpose(loader: Loader, nodes: map<Key, Node>, goal: Goal, p: Partition, purpose: Purpose) {
    && p in loader.partitions
    && match purpose
       case Start => p == GoalPartition(loader, goal)
       case Asked(replies) =>
         && goal.ListNeighbors? && goal.key in nodes && AreEagerReplies(loader, goal.key, replies)
         && (match loader.resolve(goal.key, replies)
             case AskNode(key) => p == loader.partitionOf(key)
             case AskNodes(q) => p == q
             case _ => false)
       case Checked(keys, i, edges) =>
         && goal.ListNeighbors? && goal.key in nodes && IsChecking(loader, nodes, goal.key, keys, i, edges)
         && i < |keys| && keys[i] !in edges && p == loader.partitionOf(keys[i])
  }

  ghost predicate IsOnTrack(loader: Loader, nodes: map<Key, Node>, call: Call) {
    match call.phase
    case Wants(p, purpose) => IsOnPurpose(loader, nodes, call.goal, p, purpose)
    case Loads(p, purpose) => IsOnPurpose(loader, nodes, call.goal, p, purpose)
    case WantsEdges => call.goal.ListNeighbors? && call.goal.key in nodes
    case Resolves(replies) =>
      call.goal.ListNeighbors? && call.goal.key in nodes && AreEagerReplies(loader, call.goal.key, replies)
    case Checks(keys, i, edges) =>
      call.goal.ListNeighbors? && call.goal.key in nodes && IsChecking(loader, nodes, call.goal.key, keys, i, edges)
    case Done(answer) => IsEagerAnswer(loader, call.goal, answer)
    case Failed => true
    case Panicked => false
  }

  ghost predicate Invariant(loader: Loader, s: State) {
    && NodesAreEager(loader, s) && EdgesAreEager(loader, s) && HoldersMatch(s)
    && forall c: nat :: c < |s.calls| ==> IsOnTrack(loader, s.nodes, s.calls[c])
  }

  // ---------------------------------------------------------------- steps keep it

  lemma {:induction false} FindInLoaded(nodes: seq<Node>, node: Node)
    requires node in nodes && forall i, j :: 0 <= i < j < |nodes| ==> nodes[i].key != nodes[j].key
    ensures Find(nodes, node.key) == Some(node)
  {
    if nodes[0] != node {
      var rest := nodes[1..];
      forall i, j | 0 <= i < j < |rest| ensures rest[i].key != rest[j].key {
        assert nodes[i + 1].key != nodes[j + 1].key;
      }
      var k :| 0 <= k < |nodes| && nodes[k] == node;
      assert nodes[0].key != nodes[k].key;
      FindInLoaded(rest, node);
    }
  }

  lemma {:induction false} InsertedNodes(nodes: map<Key, Node>, added: seq<Node>, key: Key)
    requires forall i, j :: 0 <= i < j < |added| ==> added[i].key != added[j].key
    ensures key in Insert(nodes, added) <==> key in nodes || exists node :: node in added && node.key == key
    ensures forall node :: node in added && node.key == key ==> Insert(nodes, added)[key] == node
    ensures key in nodes && (forall node :: node in added ==> node.key != key) ==> Insert(nodes, added)[key] == nodes[key]
  {
    if added != [] {
      var before, last := added[..|added| - 1], added[|added| - 1];
      assert added == before + [last];
      InsertedNodes(nodes, before, key);
      forall node | node in before ensures node.key != last.key {
        var k :| 0 <= k < |before| && before[k] == node;
        assert added[k].key != added[|added| - 1].key;
      }
    }
  }

  /** Loading a partition adds exactly its nodes. */
  lemma LoadedNodes(loader: Loader, nodes: map<Key, Node>, p: Partition, key: Key)
    requires LoadsProperly(loader, p)
    ensures key in WithPartition(loader, nodes, p) <==>
              key in nodes || (loader.partitionOf(key) == p && EagerNode(loader, key).Some?)
    ensures loader.partitionOf(key) == p && EagerNode(loader, key).Some? ==>
              WithPartition(loader, nodes, p)[key] == EagerNode(loader, key).value
    ensures loader.partitionOf(key) != p && key in nodes ==> WithPartition(loader, nodes, p)[key] == nodes[key]
  {
    InsertedNodes(nodes, loader.content(p), key);
  }

  /** The graph only grows: `now` has every node of `was`, unchanged. */
  ghost predicate Extends(was: map<Key, Node>, now: map<Key, Node>) {
    forall key :: key in was ==> key in now && now[key] == was[key]
  }

  lemma FillKeepsNodesEager(loader: Loader, s: State, c: nat, phase: Phase, p: Partition)
    requires MeetsContract(loader) && NodesAreEager(loader, s) && c < |s.calls|
    requires p in loader.partitions && p in s.cells && s.cells[p].Busy?
    ensures NodesAreEager(loader, Apply(loader, s, c, Outcome(phase, FillsPartition(p))))
    ensures Extends(s.nodes, WithPartition(loader, s.nodes, p))
  {
    assert LoadsProperly(loader, p);
    var next := Apply(loader, s, c, Outcome(phase, FillsPartition(p)));
    FillLoads(loader, s, c, phase, p);
    forall key
      ensures key in next.nodes <==> IsLoaded(next, loader.partitionOf(key)) && EagerNode(loader, key).Some?
      ensures key in next.nodes ==> EagerNode(loader, key) == Some(next.nodes[key])
      ensures key in s.nodes ==> key in next.nodes && next.nodes[key] == s.nodes[key]
    {
      LoadedNodes(loader, s.nodes, p, key);
    }
  }

  lemma FillLoads(loader: Loader, s: State, c: nat, phase: Phase, p: Partition)
    requires NodesAreEager(loader, s) && c < |s.calls| && p in loader.partitions && p in s.cells && s.cells[p].Busy?
    ensures var next := Apply(loader, s, c, Outcome(phase, FillsPartition(p)));
            && (forall q :: q in next.cells ==> q in loader.partitions)
            && (forall q :: IsLoaded(next, q) <==> q == p || IsLoaded(s, q))
            && (forall q :: IsLoaded(next, q) ==> next.cells[q].keys == Keys(loader.content(q)))
            && (forall q :: q in next.loads <==> IsLoaded(next, q))
            && (forall q :: q in next.loads ==> next.loads[q] == 1)
            && next.nodes == WithPartition(loader, s.nodes, p)
  {
  }

  /** What an outcome must be like to keep the invariant. */
  ghost predicate IsSound(loader: Loader, s: State, c: nat, outcome: Outcome)
    requires c < |s.calls|
  {
    var call := s.calls[c];
    var nodes := if outcome.effect.FillsPartition? then WithPartition(loader, s.nodes, outcome.effect.p) else s.nodes;
    var then' := Call(call.goal, outcome.phase);
    && IsOnTrack(loader, nodes, then')
    && match outcome.effect
       case Nothing => HeldPartition(then') == HeldPartition(call) && HeldEdges(then') == HeldEdges(call)
       case TakesPartition(p) =>
         p in loader.partitions && p !in s.cells && HeldPartition(call) == None
         && HeldPartition(then') == Some(p) && HeldEdges(then') == HeldEdges(call)
       case FillsPartition(p) =>
         p in loader.partitions && HeldPartition(call) == Some(p)
         && HeldPartition(then') == None && HeldEdges(then') == HeldEdges(call)
       case TakesEdges(key) =>
         key !in s.edges && HeldEdges(call) == None && HeldPartition(call) == None
         && HeldPartition(then') == None && HeldEdges(then') == Some(key)
       case FillsEdges(key, edges) =>
         HeldEdges(call) == Some(key) && HeldPartition(call) == None && AreEdges(loader, s.nodes, key, edges)
         && HeldPartition(then') == None && HeldEdges(then') == None
       case Releases => HeldPartition(then') == None && HeldEdges(then') == None
  }

  lemma OnTrackStays(loader: Loader, was: map<Key, Node>, now: map<Key, Node>, call: Call)
    requires Extends(was, now) && IsOnTrack(loader, was, call)
    ensures IsOnTrack(loader, now, call)
  {
  }

  lemma SoundKeepsPartitionHolders(loader: Loader, s: State, c: nat, outcome: Outcome)
    requires HoldersMatch(s) && c < |s.calls| && IsSound(loader, s, c, outcome)
    ensures var next := Apply(loader, s, c, outcome);
            forall p :: p in next.cells && next.cells[p].Busy? ==>
              next.cells[p].call < |next.calls| && HeldPartition(next.calls[next.cells[p].call]) == Some(p)
  {
    assert IsHolder(s, c);
  }

  lemma SoundKeepsEdgeHolders(loader: Loader, s: State, c: nat, outcome: Outcome)
    requires HoldersMatch(s) && c < |s.calls| && IsSound(loader, s, c, outcome)
    ensures var next := Apply(loader, s, c, outcome);
            forall key :: key in next.edges && next.edges[key].Busy? ==>
              next.edges[key].call < |next.calls| && HeldEdges(next.calls[next.edges[key].call]) == Some(key)
  {
    assert IsHolder(s, c);
  }

  lemma SoundKeepsHolder(loader: Loader, s: State, c: nat, outcome: Outcome, d: nat)
    requires HoldersMatch(s) && c < |s.calls| && IsSound(loader, s, c, outcome) && d < |s.calls|
    ensures IsHolder(Apply(loader, s, c, outcome), d)
  {
    assert IsHolder(s, c) && IsHolder(s, d);
  }

  lemma SoundKeepsHolders(loader: Loader, s: State, c: nat, outcome: Outcome)
    requires HoldersMatch(s) && c < |s.calls| && IsSound(loader, s, c, outcome)
    ensures HoldersMatch(Apply(loader, s, c, outcome))
  {
    SoundKeepsPartitionHolders(loader, s, c, outcome);
    SoundKeepsEdgeHolders(loader, s, c, outcome);
    forall d: nat | d < |s.calls| ensures IsHolder(Apply(loader, s, c, outcome), d) {
      SoundKeepsHolder(loader, s, c, outcome, d);
    }
  }

  /** Taking or releasing a cell loads and unloads nothing. */
  lemma SameLoadedNodes(loader: Loader, s: State, next: State)
    requires NodesAreEager(loader, s) && next.nodes == s.nodes && next.loads == s.loads
    requires forall p :: p in next.cells ==> p in loader.partitions
    requires forall p :: IsLoaded(next, p) <==> IsLoaded(s, p)
    requires forall p :: IsLoaded(s, p) ==> p in next.cells && next.cells[p] == s.cells[p]
    ensures NodesAreEager(loader, next)
  {
  }

  lemma SoundKeepsNodes(loader: Loader, s: State, c: nat, outcome: Outcome)
    requires MeetsContract(loader) && NodesAreEager(loader, s) && HoldersMatch(s)
    requires c < |s.calls| && IsSound(loader, s, c, outcome)
    ensures NodesAreEager(loader, Apply(loader, s, c, outcome))
    ensures Extends(s.nodes, Apply(loader, s, c, outcome).nodes)
  {
    assert IsHolder(s, c);
    if outcome.effect.FillsPartition? {
      FillKeepsNodesEager(loader, s, c, outcome.phase, outcome.effect.p);
    } else {
      SameLoadedCells(loader, s, c, outcome);
      SameLoadedNodes(loader, s, Apply(loader, s, c, outcome));
    }
  }

  lemma SameLoadedCells(loader: Loader, s: State, c: nat, outcome: Outcome)
    requires NodesAreEager(loader, s) && c < |s.calls| && IsHolder(s, c)
    requires IsSound(loader, s, c, outcome) && !outcome.effect.FillsPartition?
    ensures var next := Apply(loader, s, c, outcome);
            && next.nodes == s.nodes && next.loads == s.loads
            && (forall p :: p in next.cells ==> p in loader.partitions)
            && (forall p :: IsLoaded(next, p) <==> IsLoaded(s, p))
            && (forall p :: IsLoaded(s, p) ==> p in next.cells && next.cells[p] == s.cells[p])
  {
  }

  lemma SoundKeepsEdges(loader: Loader, s: State, c: nat, outcome: Outcome)
    requires EdgesAreEager(loader, s) && c < |s.calls| && IsSound(loader, s, c, outcome)
    requires Extends(s.nodes, Apply(loader, s, c, outcome).nodes)
    ensures EdgesAreEager(loader, Apply(loader, s, c, outcome))
  {
    var next := Apply(loader, s, c, outcome);
    forall key | key in next.edges && next.edges[key].Ready?
      ensures AreEdges(loader, next.nodes, key, next.edges[key].keys)
    {
      assert AreEdges(loader, s.nodes, key, next.edges[key].keys);
    }
  }

  lemma SoundKeepsInvariant(loader: Loader, s: State, c: nat, outcome: Outcome)
    requires MeetsContract(loader) && Invariant(loader, s) && c < |s.calls| && IsSound(loader, s, c, outcome)
    ensures Invariant(loader, Apply(loader, s, c, outcome))
  {
    SoundKeepsHolders(loader, s, c, outcome);
    SoundKeepsNodes(loader, s, c, outcome);
    SoundKeepsEdges(loader, s, c, outcome);
    var next := Apply(loader, s, c, outcome);
    forall d: nat | d < |next.calls| ensures IsOnTrack(loader, next.nodes, next.calls[d]) {
      if d != c {
        OnTrackStays(loader, s.nodes, next.nodes, s.calls[d]);
      }
    }
  }

  // ---------------------------------------------------------------- every move is sound

  lemma {:induction false} EagerRepliesAgree(loader: Loader, source: Key, a: seq<Reply>, b: seq<Reply>)
    requires AreEagerReplies(loader, source, a) && AreEagerReplies(loader, source, b) && |a| <= |b|
    ensures a == b[..|a|]
    ensures |a| < |b| ==> Asks(loader.resolve(source, a))
    decreases |b|
  {
    if |a| < |b| {
      EagerRepliesAgree(loader, source, a, b[..|b| - 1]);
      assert b[..|b| - 1][..|a|] == b[..|a|];
      if |a| == |b| - 1 {
        assert a == b[..|b| - 1];
      }
    } else if a != [] {
      EagerRepliesAgree(loader, source, a[..|a| - 1], b[..|b| - 1]);
      assert a[..|a| - 1] == b[..|b| - 1];
      assert a == a[..|a| - 1] + [a[|a| - 1]] && b == b[..|b| - 1] + [b[|b| - 1]];
    }
  }

  /** The edges of a node are the same whenever and however often they are resolved. */
  lemma ResolutionIsUnique(loader: Loader, source: Key, a: seq<Key>, b: seq<Key>)
    requires ResolvesTo(loader, source, a) && ResolvesTo(loader, source, b)
    ensures a == b
  {
    var ra :| AreEagerReplies(loader, source, ra) && loader.resolve(source, ra) == Finish(a);
    var rb :| AreEagerReplies(loader, source, rb) && loader.resolve(source, rb) == Finish(b);
    if |ra| <= |rb| {
      EagerRepliesAgree(loader, source, ra, rb);
    } else {
      EagerRepliesAgree(loader, source, rb, ra);
    }
    assert rb[..|rb|] == rb && ra[..|ra|] == ra;
  }

  /** Once its partition is loaded, the graph answers for a key as the full graph does. */
  ghost predicate AnswersFor(loader: Loader, nodes: map<Key, Node>, p: Partition) {
    forall key :: loader.partitionOf(key) == p ==> Lookup(nodes, key) == EagerNode(loader, key)
  }

  lemma LoadedPartitionAnswers(loader: Loader, s: State, p: Partition)
    requires NodesAreEager(loader, s) && IsLoaded(s, p)
    ensures AnswersFor(loader, s.nodes, p)
  {
  }

  lemma FreshPartitionAnswers(loader: Loader, s: State, p: Partition)
    requires MeetsContract(loader) && NodesAreEager(loader, s) && p in loader.partitions
    ensures AnswersFor(loader, WithPartition(loader, s.nodes, p), p)
  {
    assert LoadsProperly(loader, p);
    forall key | loader.partitionOf(key) == p
      ensures Lookup(WithPartition(loader, s.nodes, p), key) == EagerNode(loader, key)
    {
      LoadedNodes(loader, s.nodes, p, key);
    }
  }

  lemma PartitionListsItself(loader: Loader, nodes: map<Key, Node>, p: Partition)
    requires LoadsProperly(loader, p) && AnswersFor(loader, nodes, p)
    ensures AllLoaded(nodes, Keys(loader.content(p))) == Done(ManyNodes(loader.content(p)))
  {
    var content := loader.content(p);
    var keys := Keys(content);
    forall i | 0 <= i < |keys| ensures keys[i] in nodes && nodes[keys[i]] == content[i] {
      assert content[i] in content;
      FindInLoaded(content, content[i]);
      assert Lookup(nodes, keys[i]) == EagerNode(loader, keys[i]);
    }
    assert forall key :: key in keys ==> key in nodes;
    assert seq(|keys|, i requires 0 <= i < |keys| => nodes[keys[i]]) == content;
  }

  /** A call that gets its partition moves on as it should, whatever it wanted it for. */
  lemma ContinuesOnTrack(loader: Loader, nodes: map<Key, Node>, goal: Goal, p: Partition, purpose: Purpose)
    requires MeetsContract(loader) && IsOnPurpose(loader, nodes, goal, p, purpose) && AnswersFor(loader, nodes, p)
    ensures var phase := Continue(loader, goal, p, purpose, Keys(loader.content(p)), nodes);
            && IsOnTrack(loader, nodes, Call(goal, phase))
            && HeldPartition(Call(goal, phase)) == None
            && HeldEdges(Call(goal, phase)) == HeldEdges(Call(goal, Wants(p, purpose)))
  {
    assert LoadsProperly(loader, p);
    PartitionListsItself(loader, nodes, p);
    match purpose {
      case Start =>
      case Asked(replies) => RepliesOnTrack(loader, nodes, goal, p, replies);
      case Checked(keys, i, edges) => ChecksOnTrack(loader, nodes, goal, p, keys, i, edges);
    }
  }

  lemma RepliesOnTrack(loader: Loader, nodes: map<Key, Node>, goal: Goal, p: Partition, replies: seq<Reply>)
    requires MeetsContract(loader) && IsOnPurpose(loader, nodes, goal, p, Asked(replies)) && AnswersFor(loader, nodes, p)
    ensures ReplyTo(loader, goal.key, replies, Keys(loader.content(p)), nodes).Resolves?
    ensures IsOnTrack(loader, nodes, Call(goal, ReplyTo(loader, goal.key, replies, Keys(loader.content(p)), nodes)))
  {
    assert LoadsProperly(loader, p);
    PartitionListsItself(loader, nodes, p);
    var phase := ReplyTo(loader, goal.key, replies, Keys(loader.content(p)), nodes);
    assert phase.replies[..|phase.replies| - 1] == replies;
  }

  lemma ChecksOnTrack(loader: Loader, nodes: map<Key, Node>, goal: Goal, p: Partition,
                      keys: seq<Key>, i: nat, edges: seq<Key>)
    requires MeetsContract(loader) && IsOnPurpose(loader, nodes, goal, p, Checked(keys, i, edges))
    requires AnswersFor(loader, nodes, p)
    ensures keys[i] in nodes
    ensures IsOnTrack(loader, nodes, Call(goal, Checks(keys, i + 1, edges + [keys[i]])))
  {
    assert keys[i] in keys;
    assert Lookup(nodes, keys[i]) == EagerNode(loader, keys[i]);
    assert keys[..i + 1][..i] == keys[..i];
  }

  /** Resolved edges, all checked, are the answer of the full graph. */
  lemma EdgesAnswer(loader: Loader, s: State, goal: Goal, edges: seq<Key>)
    requires NodesAreEager(loader, s) && goal.ListNeighbors? && goal.key in s.nodes
    requires AreEdges(loader, s.nodes, goal.key, edges)
    ensures AllLoaded(s.nodes, edges).Done?
    ensures IsOnTrack(loader, s.nodes, Call(goal, AllLoaded(s.nodes, edges)))
  {
    var keys :| ResolvesTo(loader, goal.key, keys) && edges == Dedup(keys);
    assert seq(|edges|, i requires 0 <= i < |edges| => s.nodes[edges[i]]) == EagerNodes(loader, Dedup(keys));
  }

  lemma WantsIsSound(loader: Loader, s: State, c: nat, succeeds: bool)
    requires MeetsContract(loader) && Invariant(loader, s)
    requires Enabled(loader, s, Advance(c, succeeds)) && s.calls[c].phase.Wants?
    ensures IsSound(loader, s, c, OutcomeOf(loader, s, c, succeeds))
  {
    var call := s.calls[c];
    assert IsOnTrack(loader, s.nodes, call);
    if call.phase.p in s.cells {
      LoadedPartitionAnswers(loader, s, call.phase.p);
      ContinuesOnTrack(loader, s.nodes, call.goal, call.phase.p, call.phase.purpose);
    }
  }

  lemma LoadsIsSound(loader: Loader, s: State, c: nat, succeeds: bool)
    requires MeetsContract(loader) && Invariant(loader, s)
    requires Enabled(loader, s, Advance(c, succeeds)) && s.calls[c].phase.Loads?
    ensures IsSound(loader, s, c, OutcomeOf(loader, s, c, succeeds))
  {
    var call := s.calls[c];
    assert IsOnTrack(loader, s.nodes, call) && IsHolder(s, c);
    if succeeds {
      var nodes := WithPartition(loader, s.nodes, call.phase.p);
      FreshPartitionAnswers(loader, s, call.phase.p);
      FillKeepsNodesEager(loader, s, c, call.phase, call.phase.p);
      OnTrackStays(loader, s.nodes, nodes, call);
      ContinuesOnTrack(loader, nodes, call.goal, call.phase.p, call.phase.purpose);
    }
  }

  lemma WantsEdgesIsSound(loader: Loader, s: State, c: nat, succeeds: bool)
    requires MeetsContract(loader) && Invariant(loader, s)
    requires Enabled(loader, s, Advance(c, succeeds)) && s.calls[c].phase.WantsEdges?
    ensures IsSound(loader, s, c, OutcomeOf(loader, s, c, succeeds))
  {
    var goal := s.calls[c].goal;
    assert IsOnTrack(loader, s.nodes, s.calls[c]) && IsHolder(s, c);
    if goal.key in s.edges && s.edges[goal.key].Ready? {
      EdgesAnswer(loader, s, goal, s.edges[goal.key].keys);
    }
    WantsEdgesMovesOn(loader, s, c, succeeds);
  }

  lemma WantsEdgesMovesOn(loader: Loader, s: State, c: nat, succeeds: bool)
    requires c < |s.calls| && s.calls[c].phase.WantsEdges? && IsOnTrack(loader, s.nodes, s.calls[c]) && IsHolder(s, c)
    requires s.calls[c].goal.ListNeighbors?
    requires var key := s.calls[c].goal.key;
             key in s.edges && s.edges[key].Ready? ==>
               IsOnTrack(loader, s.nodes, Call(s.calls[c].goal, AllLoaded(s.nodes, s.edges[key].keys)))
               && !IsUnfinished(AllLoaded(s.nodes, s.edges[key].keys))
    ensures IsSound(loader, s, c, OutcomeOf(loader, s, c, succeeds))
  {
  }

  lemma ResolvesIsSound(loader: Loader, s: State, c: nat, succeeds: bool)
    requires MeetsContract(loader) && Invariant(loader, s)
    requires Enabled(loader, s, Advance(c, succeeds)) && s.calls[c].phase.Resolves?
    ensures IsSound(loader, s, c, OutcomeOf(loader, s, c, succeeds))
  {
    var call := s.calls[c];
    assert IsOnTrack(loader, s.nodes, call) && IsHolder(s, c);
    var question := loader.resolve(call.goal.key, call.phase.replies);
    assert AsksProperly(loader, question);
    if question.Finish? {
      assert question.keys[..0] == [];
      assert ResolvesTo(loader, call.goal.key, question.keys);
    }
    ResolveMovesOn(loader, s, c, succeeds);
  }

  lemma ResolveMovesOn(loader: Loader, s: State, c: nat, succeeds: bool)
    requires c < |s.calls| && s.calls[c].phase.Resolves? && IsOnTrack(loader, s.nodes, s.calls[c])
    requires var question := loader.resolve(s.calls[c].goal.key, s.calls[c].phase.replies);
             && AsksProperly(loader, question)
             && (question.Finish? ==> IsChecking(loader, s.nodes, s.calls[c].goal.key, question.keys, 0, []))
    ensures IsSound(loader, s, c, OutcomeOf(loader, s, c, succeeds))
  {
  }

  lemma LastCheckIsSound(loader: Loader, s: State, c: nat, succeeds: bool)
    requires MeetsContract(loader) && Invariant(loader, s)
    requires Enabled(loader, s, Advance(c, succeeds)) && s.calls[c].phase.Checks?
    requires s.calls[c].phase.i >= |s.calls[c].phase.keys|
    ensures IsSound(loader, s, c, OutcomeOf(loader, s, c, succeeds))
  {
    var call := s.calls[c];
    assert IsOnTrack(loader, s.nodes, call);
    AllChecked(loader, s, call.goal.key, call.phase.keys, call.phase.i, call.phase.edges);
    EdgesAnswer(loader, s, call.goal, call.phase.edges);
  }

  lemma ChecksIsSound(loader: Loader, s: State, c: nat, succeeds: bool)
    requires MeetsContract(loader) && Invariant(loader, s)
    requires Enabled(loader, s, Advance(c, succeeds)) && s.calls[c].phase.Checks?
    requires s.calls[c].phase.i < |s.calls[c].phase.keys|
    ensures IsSound(loader, s, c, OutcomeOf(loader, s, c, succeeds))
  {
    assert IsOnTrack(loader, s.nodes, s.calls[c]);
    CheckStepIsSound(loader, s, c, succeeds);
  }

  lemma CheckStepIsSound(loader: Loader, s: State, c: nat, succeeds: bool)
    requires MeetsContract(loader) && c < |s.calls| && s.calls[c].phase.Checks? && IsOnTrack(loader, s.nodes, s.calls[c])
    requires s.calls[c].phase.i < |s.calls[c].phase.keys|
    ensures IsSound(loader, s, c, OutcomeOf(loader, s, c, succeeds))
  {
    var call := s.calls[c];
    NextCheck(loader, s.nodes, call.goal.key, call.phase.keys, call.phase.i, call.phase.edges);
    CheckMovesOn(loader, s, c, succeeds);
  }

  lemma CheckMovesOn(loader: Loader, s: State, c: nat, succeeds: bool)
    requires c < |s.calls| && s.calls[c].phase.Checks? && IsOnTrack(loader, s.nodes, s.calls[c])
    requires var (keys, i, edges) := (s.calls[c].phase.keys, s.calls[c].phase.i, s.calls[c].phase.edges);
             && i < |keys| && loader.partitionOf(keys[i]) in loader.partitions
             && (keys[i] in edges ==> IsChecking(loader, s.nodes, s.calls[c].goal.key, keys, i + 1, edges))
    ensures IsSound(loader, s, c, OutcomeOf(loader, s, c, succeeds))
  {
  }

  lemma AllChecked(loader: Loader, s: State, source: Key, keys: seq<Key>, i: nat, edges: seq<Key>)
    requires NodesAreEager(loader, s) && source in s.nodes && IsChecking(loader, s.nodes, source, keys, i, edges)
    requires i >= |keys|
    ensures AreEdges(loader, s.nodes, source, edges)
  {
    assert keys[..i] == keys;
  }

  lemma NextCheck(loader: Loader, nodes: map<Key, Node>, source: Key, keys: seq<Key>, i: nat, edges: seq<Key>)
    requires MeetsContract(loader) && IsChecking(loader, nodes, source, keys, i, edges) && i < |keys|
    ensures keys[i] in edges ==> IsChecking(loader, nodes, source, keys, i + 1, edges)
    ensures loader.partitionOf(keys[i]) in loader.partitions
  {
    assert keys[i] in keys;
    assert keys[..i + 1][..i] == keys[..i];
  }

  lemma InvariantStays(loader: Loader, s: State, a: Action)
    requires MeetsContract(loader) && Invariant(loader, s) && Enabled(loader, s, a)
    ensures Invariant(loader, Next(loader, s, a))
  {
    match a {
      case Begin(goal) => BeginKeepsInvariant(loader, s, goal);
      case Advance(c, succeeds) =>
        if s.calls[c].phase.Wants? {
          WantsIsSound(loader, s, c, succeeds);
        } else if s.calls[c].phase.Loads? {
          LoadsIsSound(loader, s, c, succeeds);
        } else if s.calls[c].phase.WantsEdges? {
          WantsEdgesIsSound(loader, s, c, succeeds);
        } else if s.calls[c].phase.Resolves? {
          ResolvesIsSound(loader, s, c, succeeds);
        } else if s.calls[c].phase.i < |s.calls[c].phase.keys| {
          ChecksIsSound(loader, s, c, succeeds);
        } else {
          LastCheckIsSound(loader, s, c, succeeds);
        }
        SoundKeepsInvariant(loader, s, c, OutcomeOf(loader, s, c, succeeds));
      case Drop(c) =>
        SoundKeepsInvariant(loader, s, c, Outcome(Failed, Releases));
    }
  }

  lemma BeginKeepsInvariant(loader: Loader, s: State, goal: Goal)
    requires Invariant(loader, s) && GoalPartition(loader, goal) in loader.partitions
    ensures Invariant(loader, Next(loader, s, Begin(goal)))
  {
    var next := Next(loader, s, Begin(goal));
    forall c: nat | c < |next.calls| ensures IsHolder(next, c) && IsOnTrack(loader, next.nodes, next.calls[c]) {
      if c < |s.calls| {
        assert IsHolder(s, c) && IsOnTrack(loader, s.nodes, s.calls[c]);
      }
    }
  }

  // ---------------------------------------------------------------- whole runs

  predicate IsRun(loader: Loader, s: State, actions: seq<Action>)
    decreases |actions|
  {
    actions == [] || (Enabled(loader, s, actions[0]) && IsRun(loader, Next(loader, s, actions[0]), actions[1..]))
  }

  function After(loader: Loader, s: State, actions: seq<Action>): State
    requires IsRun(loader, s, actions)
    decreases |actions|
  {
    if actions == [] then s else After(loader, Next(loader, s, actions[0]), actions[1..])
  }

  lemma {:induction false} RunKeepsInvariant(loader: Loader, s: State, actions: seq<Action>)
    requires MeetsContract(loader) && Invariant(loader, s) && IsRun(loader, s, actions)
    ensures Invariant(loader, After(loader, s, actions))
    decreases |actions|
  {
    if actions != [] {
      InvariantStays(loader, s, actions[0]);
      RunKeepsInvariant(loader, Next(loader, s, actions[0]), actions[1..]);
    }
  }

  ghost predicate Reachable(loader: Loader, s: State) {
    exists actions :: IsRun(loader, Initial(), actions) && s == After(loader, Initial(), actions)
  }

  lemma ReachableStatesAreSound(loader: Loader, s: State)
    requires MeetsContract(loader) && Reachable(loader, s)
    ensures Invariant(loader, s)
  {
    var actions :| IsRun(loader, Initial(), actions) && s == After(loader, Initial(), actions);
    RunKeepsInvariant(loader, Initial(), actions);
  }

  /**
   * The lazy graph refines the eager one: after any history of calls, failures, drops and
   * interleavings, every answer is the full graph's, every partition has loaded at most once,
   * and no assertion or `expect` has fired.
   */
  lemma LazyRefinesEager(loader: Loader, s: State, c: nat)
    requires MeetsContract(loader) && Reachable(loader, s) && c < |s.calls|
    ensures s.calls[c].phase.Done? ==> IsEagerAnswer(loader, s.calls[c].goal, s.calls[c].phase.answer)
    ensures !s.calls[c].phase.Panicked?
    ensures forall p :: p in s.loads ==> s.loads[p] == 1
  {
    ReachableStatesAreSound(loader, s);
    assert IsOnTrack(loader, s.nodes, s.calls[c]);
  }

  /**
   * While any call is unfinished some call can go on: whoever holds an edge cell waits only for a
   * partition, and whoever holds a partition waits for nobody, even if edges cycle across partitions.
   */
  lemma SomeCallCanGoOn(loader: Loader, s: State, c: nat, succeeds: bool) returns (d: nat)
    requires MeetsContract(loader) && Reachable(loader, s)
    requires c < |s.calls| && IsUnfinished(s.calls[c].phase)
    ensures Enabled(loader, s, Advance(d, succeeds))
  {
    ReachableStatesAreSound(loader, s);
    d := NotStuck(loader, s, c, succeeds);
  }

  lemma NotStuck(loader: Loader, s: State, c: nat, succeeds: bool) returns (d: nat)
    requires Invariant(loader, s) && c < |s.calls| && IsUnfinished(s.calls[c].phase)
    ensures Enabled(loader, s, Advance(d, succeeds))
  {
    d := c;
    if s.calls[c].phase.WantsEdges? && IsBlocked(s, s.calls[c]) {
      d := EdgeHolder(loader, s, s.calls[c].goal.key);
    }
    d := NotStuckOnPartition(loader, s, d, succeeds);
  }

  lemma EdgeHolder(loader: Loader, s: State, key: Key) returns (d: nat)
    requires Invariant(loader, s) && key in s.edges && s.edges[key].Busy?
    ensures d < |s.calls| && IsUnfinished(s.calls[d].phase) && !s.calls[d].phase.WantsEdges?
  {
    d := s.edges[key].call;
  }

  /** A call that waits for a partition waits for a call that can go on. */
  lemma NotStuckOnPartition(loader: Loader, s: State, c: nat, succeeds: bool) returns (d: nat)
    requires Invariant(loader, s) && c < |s.calls| && IsUnfinished(s.calls[c].phase)
    requires s.calls[c].phase.WantsEdges? ==> !IsBlocked(s, s.calls[c])
    ensures Enabled(loader, s, Advance(d, succeeds))
  {
    d := if IsBlocked(s, s.calls[c]) then s.cells[s.calls[c].phase.p].call else c;
  }

  /** The step completes a load of the partition. */
  predicate IsLoadOf(s: State, a: Action, p: Partition) {
    a.Advance? && a.succeeds && a.c < |s.calls| && s.calls[a.c].phase.Loads? && s.calls[a.c].phase.p == p
  }

  function LoadsOf(loader: Loader, s: State, actions: seq<Action>, p: Partition): nat
    requires IsRun(loader, s, actions)
    decreases |actions|
  {
    if actions == [] then 0
    else (if IsLoadOf(s, actions[0], p) then 1 else 0) + LoadsOf(loader, Next(loader, s, actions[0]), actions[1..], p)
  }

  function One(b: bool): nat {
    if b then 1 else 0
  }

  lemma EffectLoads(loader: Loader, s: State, c: nat, outcome: Outcome, p: Partition)
    requires c < |s.calls| && IsHolder(s, c)
    requires outcome.effect.TakesPartition? ==> outcome.effect.p !in s.cells
    ensures IsLoaded(Apply(loader, s, c, outcome), p) <==> IsLoaded(s, p) || outcome.effect == FillsPartition(p)
  {
  }

  lemma LoadHasItsEffect(loader: Loader, s: State, c: nat, succeeds: bool, p: Partition)
    requires Enabled(loader, s, Advance(c, succeeds))
    ensures OutcomeOf(loader, s, c, succeeds).effect == FillsPartition(p) <==> IsLoadOf(s, Advance(c, succeeds), p)
    ensures OutcomeOf(loader, s, c, succeeds).effect.TakesPartition? ==> OutcomeOf(loader, s, c, succeeds).effect.p !in s.cells
  {
  }

  lemma StepLoads(loader: Loader, s: State, a: Action, p: Partition)
    requires Invariant(loader, s) && Enabled(loader, s, a)
    ensures One(IsLoaded(Next(loader, s, a), p)) == One(IsLoaded(s, p)) + One(IsLoadOf(s, a, p))
  {
    match a
    case Begin(_) =>
    case Advance(c, succeeds) =>
      assert IsHolder(s, c);
      LoadHasItsEffect(loader, s, c, succeeds, p);
      EffectLoads(loader, s, c, OutcomeOf(loader, s, c, succeeds), p);
    case Drop(c) =>
      assert IsHolder(s, c);
      EffectLoads(loader, s, c, Outcome(Failed, Releases), p);
  }

  lemma {:induction false} RunLoads(loader: Loader, s: State, actions: seq<Action>, p: Partition)
    requires MeetsContract(loader) && Invariant(loader, s) && IsRun(loader, s, actions)
    ensures One(IsLoaded(After(loader, s, actions), p)) == One(IsLoaded(s, p)) + LoadsOf(loader, s, actions, p)
    decreases |actions|
  {
    if actions != [] {
      StepLoads(loader, s, actions[0], p);
      InvariantStays(loader, s, actions[0]);
      RunLoads(loader, Next(loader, s, actions[0]), actions[1..], p);
    }
  }

  /** In every run a partition is loaded successfully at most once, and just then its nodes are there for good. */
  lemma EachPartitionLoadsOnce(loader: Loader, actions: seq<Action>, p: Partition)
    requires MeetsContract(loader) && IsRun(loader, Initial(), actions)
    ensures LoadsOf(loader, Initial(), actions, p) <= 1
    ensures var s := After(loader, Initial(), actions);
            forall key :: loader.partitionOf(key) == p ==>
              (key in s.nodes <==> LoadsOf(loader, Initial(), actions, p) == 1 && EagerNode(loader, key).Some?)
  {
    assert Invariant(loader, Initial());
    RunLoads(loader, Initial(), actions, p);
    RunKeepsInvariant(loader, Initial(), actions);
  }

  // ---------------------------------------------------------------- calls end, and why they fail

  /** On the fully loaded graph, the resolver is done after these replies, with keys or with an error. */
  ghost predicate Ends(loader: Loader, source: Key, replies: seq<Reply>) {
    AreEagerReplies(loader, source, replies) && !Asks(loader.resolve(source, replies))
  }

  /** The goal takes a resolution: it is about the neighbors of a node that exists. */
  predicate HasEdges(loader: Loader, goal: Goal) {
    goal.ListNeighbors? && EagerNode(loader, goal.key).Some?
  }

  /** The resolver does not ask for ever. */
  ghost predicate Settles(loader: Loader, goal: Goal) {
    HasEdges(loader, goal) ==> exists replies :: Ends(loader, goal.key, replies)
  }

  /** How many questions the resolution of the goal's edges takes, and how many keys it ends with. */
  ghost function Questions(loader: Loader, goal: Goal): nat {
    if goal.ListNeighbors? && exists replies :: Ends(loader, goal.key, replies) then
      var replies :| Ends(loader, goal.key, replies); |replies|
    else 0
  }

  ghost function Targets(loader: Loader, goal: Goal): nat {
    if goal.ListNeighbors? && exists keys :: ResolvesTo(loader, goal.key, keys) then
      var keys :| ResolvesTo(loader, goal.key, keys); |keys|
    else 0
  }

  lemma TargetsOf(loader: Loader, goal: Goal, keys: seq<Key>)
    requires goal.ListNeighbors? && ResolvesTo(loader, goal.key, keys)
    ensures Targets(loader, goal) == |keys|
  {
    var chosen :| ResolvesTo(loader, goal.key, chosen) && |chosen| == Targets(loader, goal);
    ResolutionIsUnique(loader, goal.key, keys, chosen);
  }

  /** The resolver asks as long as it has not had all its replies. */
  lemma AsksUntilTheEnd(loader: Loader, goal: Goal, replies: seq<Reply>)
    requires goal.ListNeighbors? && AreEagerReplies(loader, goal.key, replies)
    requires exists all :: Ends(loader, goal.key, all)
    ensures |replies| <= Questions(loader, goal)
    ensures Asks(loader.resolve(goal.key, replies)) <==> |replies| < Questions(loader, goal)
  {
    var all :| Ends(loader, goal.key, all) && |all| == Questions(loader, goal);
    if |replies| <= |all| {
      EagerRepliesAgree(loader, goal.key, replies, all);
      assert all[..|all|] == all;
    } else {
      EagerRepliesAgree(loader, goal.key, all, replies);
    }
  }

  function Rest(n: nat, i: nat): nat {
    if i <= n then n - i else 0
  }

  /** The most steps a call has left once the partition it wants has loaded. */
  ghost function StepsAfter(loader: Loader, goal: Goal, purpose: Purpose): nat {
    match purpose
    case Start => if HasEdges(loader, goal) then 3 * Questions(loader, goal) + 3 * Targets(loader, goal) + 3 else 0
    case Asked(replies) => 3 * Rest(Questions(loader, goal), |replies| + 1) + 3 * Targets(loader, goal) + 2
    case Checked(keys, i, _) => 3 * Rest(|keys|, i + 1) + 1
  }

  /** The most steps a call has left, whatever the others do. */
  ghost function StepsLeft(loader: Loader, call: Call): nat {
    match call.phase
    case Wants(_, purpose) => StepsAfter(loader, call.goal, purpose) + 2
    case Loads(_, purpose) => StepsAfter(loader, call.goal, purpose) + 1
    case WantsEdges => 3 * Questions(loader, call.goal) + 3 * Targets(loader, call.goal) + 3
    case Resolves(replies) => 3 * Rest(Questions(loader, call.goal), |replies|) + 3 * Targets(loader, call.goal) + 2
    case Checks(keys, i, _) => 3 * Rest(|keys|, i) + 1
    case _ => 0
  }

  lemma ContinuesTowardsItsEnd(loader: Loader, goal: Goal, p: Partition, purpose: Purpose, keys: seq<Key>, nodes: map<Key, Node>)
    requires goal.ListNeighbors? && goal.key in nodes ==> HasEdges(loader, goal)
    ensures StepsLeft(loader, Call(goal, Continue(loader, goal, p, purpose, keys, nodes))) <= StepsAfter(loader, goal, purpose)
    ensures !Continue(loader, goal, p, purpose, keys, nodes).Failed?
  {
    if goal.ListNeighbors? && purpose.Asked? {
      var phase := ReplyTo(loader, goal.key, purpose.replies, keys, nodes);
      assert phase.Resolves? ==> |phase.replies| == |purpose.replies| + 1;
    }
  }

  lemma LoadsTowardsItsEnd(loader: Loader, s: State, goal: Goal, p: Partition, purpose: Purpose)
    requires MeetsContract(loader) && NodesAreEager(loader, s) && p in loader.partitions
    ensures var phase := Continue(loader, goal, p, purpose, Keys(loader.content(p)), WithPartition(loader, s.nodes, p));
            StepsLeft(loader, Call(goal, phase)) <= StepsAfter(loader, goal, purpose) && !phase.Failed?
  {
    assert LoadsProperly(loader, p);
    if goal.ListNeighbors? {
      LoadedNodes(loader, s.nodes, p, goal.key);
    }
    ContinuesTowardsItsEnd(loader, goal, p, purpose, Keys(loader.content(p)), WithPartition(loader, s.nodes, p));
  }

  lemma ResolvesTowardsItsEnd(loader: Loader, s: State, c: nat, succeeds: bool)
    requires c < |s.calls| && s.calls[c].phase.Resolves? && IsOnTrack(loader, s.nodes, s.calls[c])
    requires exists replies :: Ends(loader, s.calls[c].goal.key, replies)
    ensures StepsLeft(loader, Call(s.calls[c].goal, OutcomeOf(loader, s, c, succeeds).phase)) < StepsLeft(loader, s.calls[c])
  {
    var goal, replies := s.calls[c].goal, s.calls[c].phase.replies;
    AsksUntilTheEnd(loader, goal, replies);
    var question := loader.resolve(goal.key, replies);
    if question.Finish? {
      TargetsOf(loader, goal, question.keys);
    }
  }

  lemma WantsTowardsItsEnd(loader: Loader, s: State, c: nat, succeeds: bool)
    requires NodesAreEager(loader, s) && c < |s.calls| && s.calls[c].phase.Wants? && !IsBlocked(s, s.calls[c])
    ensures var phase := OutcomeOf(loader, s, c, succeeds).phase;
            StepsLeft(loader, Call(s.calls[c].goal, phase)) < StepsLeft(loader, s.calls[c]) && !phase.Failed?
  {
    var goal, p, purpose := s.calls[c].goal, s.calls[c].phase.p, s.calls[c].phase.purpose;
    if p in s.cells {
      ContinuesTowardsItsEnd(loader, goal, p, purpose, s.cells[p].keys, s.nodes);
    }
  }

  lemma EdgesTowardsItsEnd(loader: Loader, s: State, c: nat, succeeds: bool)
    requires c < |s.calls| && (s.calls[c].phase.WantsEdges? || s.calls[c].phase.Checks?) && !IsBlocked(s, s.calls[c])
    ensures var phase := OutcomeOf(loader, s, c, succeeds).phase;
            StepsLeft(loader, Call(s.calls[c].goal, phase)) < StepsLeft(loader, s.calls[c]) && !phase.Failed?
  {
  }

  /** Each step of a call brings it closer to its end. */
  lemma StepGoesOn(loader: Loader, s: State, c: nat, succeeds: bool)
    requires MeetsContract(loader) && Invariant(loader, s) && Enabled(loader, s, Advance(c, succeeds)) && Settles(loader, s.calls[c].goal)
    ensures StepsLeft(loader, Call(s.calls[c].goal, OutcomeOf(loader, s, c, succeeds).phase)) < StepsLeft(loader, s.calls[c])
  {
    var call := s.calls[c];
    assert IsOnTrack(loader, s.nodes, call);
    if call.phase.Wants? {
      WantsTowardsItsEnd(loader, s, c, succeeds);
    } else if call.phase.Loads? {
      LoadsTowardsItsEnd(loader, s, call.goal, call.phase.p, call.phase.purpose);
    } else if call.phase.Resolves? {
      ResolvesTowardsItsEnd(loader, s, c, succeeds);
    } else {
      EdgesTowardsItsEnd(loader, s, c, succeeds);
    }
  }

  /** A step that does not fail leaves the call failed only if the resolver gave up on what the full graph told it. */
  lemma StepFailsForAReason(loader: Loader, s: State, c: nat, succeeds: bool)
    requires MeetsContract(loader) && Invariant(loader, s) && Enabled(loader, s, Advance(c, succeeds))
    requires OutcomeOf(loader, s, c, succeeds).phase.Failed?
    ensures !succeeds || GivesUp(loader, s.calls[c].goal)
  {
    var call := s.calls[c];
    assert IsOnTrack(loader, s.nodes, call);
    if call.phase.Wants? {
      WantsTowardsItsEnd(loader, s, c, succeeds);
    } else if call.phase.Loads? {
      LoadsTowardsItsEnd(loader, s, call.goal, call.phase.p, call.phase.purpose);
    } else if !call.phase.Resolves? {
      EdgesTowardsItsEnd(loader, s, c, succeeds);
    }
  }

  /** On the fully loaded graph, the edges of the goal resolve to an error. */
  ghost predicate GivesUp(loader: Loader, goal: Goal) {
    HasEdges(loader, goal)
    && exists replies :: AreEagerReplies(loader, goal.key, replies) && loader.resolve(goal.key, replies).Abort?
  }

  /** How many steps of a run are the call's own. */
  function OwnSteps(actions: seq<Action>, c: nat): nat {
    if actions == [] then 0 else (if actions[0].Advance? && actions[0].c == c then 1 else 0) + OwnSteps(actions[1..], c)
  }

  lemma ApplyMoves(loader: Loader, s: State, c: nat, outcome: Outcome)
    requires c < |s.calls|
    ensures Apply(loader, s, c, outcome).calls == s.calls[c := Call(s.calls[c].goal, outcome.phase)]
  {
  }

  lemma AdvanceMoves(loader: Loader, s: State, c: nat, succeeds: bool)
    requires Enabled(loader, s, Advance(c, succeeds))
    ensures Next(loader, s, Advance(c, succeeds)).calls ==
            s.calls[c := Call(s.calls[c].goal, OutcomeOf(loader, s, c, succeeds).phase)]
  {
    ApplyMoves(loader, s, c, OutcomeOf(loader, s, c, succeeds));
  }

  /** The others' actions leave a call where it is. */
  lemma OthersLeaveAlone(loader: Loader, s: State, a: Action, c: nat)
    requires Enabled(loader, s, a) && c < |s.calls| && (a.Begin? || a.c != c)
    ensures c < |Next(loader, s, a).calls| && Next(loader, s, a).calls[c] == s.calls[c]
  {
  }

  lemma ActionCostsAStep(loader: Loader, s: State, a: Action, c: nat)
    requires MeetsContract(loader) && Invariant(loader, s) && Enabled(loader, s, a)
    requires c < |s.calls| && Settles(loader, s.calls[c].goal)
    ensures c < |Next(loader, s, a).calls| && Next(loader, s, a).calls[c].goal == s.calls[c].goal
    ensures (if a.Advance? && a.c == c then 1 else 0) + StepsLeft(loader, Next(loader, s, a).calls[c]) <= StepsLeft(loader, s.calls[c])
  {
    if a.Begin? || a.c != c {
      OthersLeaveAlone(loader, s, a, c);
    } else if a.Advance? {
      AdvanceMoves(loader, s, c, a.succeeds);
      StepGoesOn(loader, s, c, a.succeeds);
    }
  }

  /** Every run: a call whose resolver settles takes no more steps than it had left. */
  lemma {:induction false} OwnStepsAreBounded(loader: Loader, s: State, actions: seq<Action>, c: nat)
    requires MeetsContract(loader) && Invariant(loader, s) && IsRun(loader, s, actions)
    requires c < |s.calls| && Settles(loader, s.calls[c].goal)
    ensures c < |After(loader, s, actions).calls| && After(loader, s, actions).calls[c].goal == s.calls[c].goal
    ensures OwnSteps(actions, c) + StepsLeft(loader, After(loader, s, actions).calls[c]) <= StepsLeft(loader, s.calls[c])
    decreases |actions|
  {
    if actions != [] {
      ActionCostsAStep(loader, s, actions[0], c);
      InvariantStays(loader, s, actions[0]);
      OwnStepsAreBounded(loader, Next(loader, s, actions[0]), actions[1..], c);
    }
  }

  /** Every run: a call fails only if it is dropped, a step of its own fails, or the full graph has no answer either. */
  lemma {:induction false} CallsFailForAReason(loader: Loader, s: State, actions: seq<Action>, c: nat)
    requires MeetsContract(loader) && Invariant(loader, s) && IsRun(loader, s, actions)
    requires c < |After(loader, s, actions).calls| && After(loader, s, actions).calls[c].phase.Failed?
    requires c < |s.calls| ==> !s.calls[c].phase.Failed?
    ensures Drop(c) in actions || Advance(c, false) in actions || GivesUp(loader, After(loader, s, actions).calls[c].goal)
    decreases |actions|
  {
    if actions != [] {
      var a := actions[0];
      var next := Next(loader, s, a);
      InvariantStays(loader, s, a);
      assert actions == [a] + actions[1..];
      if c < |next.calls| && next.calls[c].phase.Failed? {
        FailsNow(loader, s, a, c);
        GoalStays(loader, next, actions[1..], c);
      } else {
        CallsFailForAReason(loader, next, actions[1..], c);
      }
    }
  }

  lemma FailsNow(loader: Loader, s: State, a: Action, c: nat)
    requires MeetsContract(loader) && Invariant(loader, s) && Enabled(loader, s, a)
    requires c < |Next(loader, s, a).calls| && Next(loader, s, a).calls[c].phase.Failed?
    requires c < |s.calls| ==> !s.calls[c].phase.Failed?
    ensures a == Drop(c) || a == Advance(c, false) || GivesUp(loader, Next(loader, s, a).calls[c].goal)
  {
    if a.Advance? {
      AdvanceMoves(loader, s, a.c, a.succeeds);
      if a.c == c && OutcomeOf(loader, s, c, a.succeeds).phase.Failed? {
        StepFailsForAReason(loader, s, c, a.succeeds);
      }
    } else if c < |s.calls| && (a.Begin? || a.c != c) {
      OthersLeaveAlone(loader, s, a, c);
    }
  }

  lemma {:induction false} GoalStays(loader: Loader, s: State, actions: seq<Action>, c: nat)
    requires IsRun(loader, s, actions) && c < |s.calls|
    ensures c < |After(loader, s, actions).calls| && After(loader, s, actions).calls[c].goal == s.calls[c].goal
    decreases |actions|
  {
    if actions != [] {
      GoalStays(loader, Next(loader, s, actions[0]), actions[1..], c);
    }
  }

  /** The full graph has an answer to the goal. */
  ghost predicate HasEagerAnswer(loader: Loader, goal: Goal) {
    HasEdges(loader, goal) ==> exists keys :: ResolvesTo(loader, goal.key, keys)
  }

  lemma AnsweredDoesNotGiveUp(loader: Loader, goal: Goal)
    requires HasEagerAnswer(loader, goal)
    ensures Settles(loader, goal) && !GivesUp(loader, goal)
  {
    if HasEdges(loader, goal) {
      var keys :| ResolvesTo(loader, goal.key, keys);
      var all :| AreEagerReplies(loader, goal.key, all) && loader.resolve(goal.key, all) == Finish(keys);
      assert Ends(loader, goal.key, all);
      forall replies | AreEagerReplies(loader, goal.key, replies) ensures !loader.resolve(goal.key, replies).Abort? {
        if |replies| <= |all| {
          EagerRepliesAgree(loader, goal.key, replies, all);
          assert all[..|all|] == all;
        } else {
          EagerRepliesAgree(loader, goal.key, all, replies);
        }
      }
    }
  }

  lemma WholeCall(loader: Loader, goal: Goal, replies: seq<Reply>, keys: seq<Key>)
    requires HasEdges(loader, goal) ==>
               AreEagerReplies(loader, goal.key, replies) && loader.resolve(goal.key, replies) == Finish(keys)
    ensures StepsLeft(loader, Call(goal, Wants(GoalPartition(loader, goal), Start))) ==
            if HasEdges(loader, goal) then 5 + 3 * |replies| + 3 * |keys| else 2
  {
    if HasEdges(loader, goal) {
      assert Ends(loader, goal.key, replies);
      AsksUntilTheEnd(loader, goal, replies);
      TargetsOf(loader, goal, keys);
    }
  }

  /**
   * The other half of the refinement: wherever the full graph has an answer, so has the lazy one. In any
   * run with any number of other calls, failing and dropped ones included, a call that is not dropped
   * and whose own steps succeed does not fail, and has that answer after two steps, or for neighbors
   * after five and three for each question of the resolver and each key it names.
   */
  lemma LazyAnswersWhatEagerAnswers(loader: Loader, s: State, actions: seq<Action>, goal: Goal, replies: seq<Reply>, keys: seq<Key>)
    requires MeetsContract(loader) && Reachable(loader, s) && Enabled(loader, s, Begin(goal))
    requires IsRun(loader, Next(loader, s, Begin(goal)), actions)
    requires HasEdges(loader, goal) ==>
               AreEagerReplies(loader, goal.key, replies) && loader.resolve(goal.key, replies) == Finish(keys)
    requires Drop(|s.calls|) !in actions && Advance(|s.calls|, false) !in actions
    ensures var after := After(loader, Next(loader, s, Begin(goal)), actions);
            && |s.calls| < |after.calls|
            && !after.calls[|s.calls|].phase.Failed?
            && (OwnSteps(actions, |s.calls|) >= (if HasEdges(loader, goal) then 5 + 3 * |replies| + 3 * |keys| else 2)
                ==> after.calls[|s.calls|].phase.Done? && IsEagerAnswer(loader, goal, after.calls[|s.calls|].phase.answer))
  {
    var c, begun := |s.calls|, Next(loader, s, Begin(goal));
    ReachableStatesAreSound(loader, s);
    InvariantStays(loader, s, Begin(goal));
    RunKeepsInvariant(loader, begun, actions);
    assert HasEdges(loader, goal) ==> ResolvesTo(loader, goal.key, keys);
    AnsweredDoesNotGiveUp(loader, goal);
    OwnStepsAreBounded(loader, begun, actions, c);
    var after := After(loader, begun, actions);
    if after.calls[c].phase.Failed? {
      CallsFailForAReason(loader, begun, actions, c);
    }
    assert IsOnTrack(loader, after.nodes, after.calls[c]);
    WholeCall(loader, goal, replies, keys);
  }

  /** How many steps all calls together have left. */
  ghost function AllStepsLeft(loader: Loader, calls: seq<Call>): nat {
    if calls == [] then 0 else StepsLeft(loader, calls[0]) + AllStepsLeft(loader, calls[1..])
  }

  lemma {:induction false} OneStepLess(loader: Loader, calls: seq<Call>, c: nat, call: Call)
    requires c < |calls| && StepsLeft(loader, call) < StepsLeft(loader, calls[c])
    ensures AllStepsLeft(loader, calls[c := call]) < AllStepsLeft(loader, calls)
  {
    if c > 0 {
      OneStepLess(loader, calls[1..], c - 1, call);
      assert calls[c := call][1..] == calls[1..][c - 1 := call];
    } else {
      assert calls[c := call][1..] == calls[1..];
    }
  }

  /**
   * If no further step fails, every history can be completed, whoever is chosen whenever there is a
   * choice: steps run out, and when they do no call is left waiting.
   */
  lemma {:induction false} EveryCallCanFinish(loader: Loader, s: State, schedule: (State, nat) -> nat) returns (actions: seq<Action>)
    requires MeetsContract(loader) && Invariant(loader, s)
    requires forall c: nat :: c < |s.calls| ==> Settles(loader, s.calls[c].goal)
    requires forall t, d :: Enabled(loader, t, Advance(d, true)) ==> Enabled(loader, t, Advance(schedule(t, d), true))
    ensures IsRun(loader, s, actions) && |actions| <= AllStepsLeft(loader, s.calls)
    ensures forall a :: a in actions ==> a.Advance? && a.succeeds
    ensures var after := After(loader, s, actions);
            |after.calls| == |s.calls| && forall c: nat :: c < |after.calls| ==> !IsUnfinished(after.calls[c].phase)
    decreases AllStepsLeft(loader, s.calls)
  {
    actions := [];
    if c: nat :| c < |s.calls| && IsUnfinished(s.calls[c].phase) {
      var d := NotStuck(loader, s, c, true);
      var a := Advance(schedule(s, d), true);
      var next := Next(loader, s, a);
      AdvanceMoves(loader, s, a.c, true);
      StepGoesOn(loader, s, a.c, true);
      OneStepLess(loader, s.calls, a.c, next.calls[a.c]);
      InvariantStays(loader, s, a);
      var rest := EveryCallCanFinish(loader, next, schedule);
      actions := [a] + rest;
      assert actions[1..] == rest;
    }
  }
}
