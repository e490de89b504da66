/**
 * The chunk pool shared by all threads, as a machine whose steps are single atomic accesses.
 *
 * A load is only a hint: it is relaxed, so a step may see any stale value, and nothing below
 * relies on what it returns. A signal handler counts as one more thread. A forked child
 * goes on from a copy of the slots in which all other threads have vanished.
 */
module ChunkPool {
  import opened Wrappers

  /** The address of a chunk of the underlying allocator. */
  type Chunk = nat

  /** Where a thread is inside the pool. A chunk it carries belongs to no one else. */
  datatype Place =
    | Idle
    | AllocLoad(i: nat)
    | AllocSwap(i: nat)
    | AllocFresh
    | AllocReturn(taken: Chunk)
    | FreeLoad(i: nat, given: Chunk)
    | FreeExchange(i: nat, given: Chunk)
    | FreeOut(given: Chunk)
    | Vanished
  {
    function Carried(): Option<Chunk> {
      match this
      case AllocReturn(chunk) => Some(chunk)
      case FreeLoad(_, chunk) => Some(chunk)
      case FreeExchange(_, chunk) => Some(chunk)
      case FreeOut(chunk) => Some(chunk)
      case _ => None
    }
  }

  /** The slots that the call under way, or the last one, has looked at so far, and how many of them it tried to change. */
  datatype Thread = Thread(place: Place, looked: seq<nat>, tries: nat) {
    function Accesses(): nat {
      |looked| + tries
    }
  }

  datatype State = State(
    slots: seq<Option<Chunk>>,
    threads: seq<Thread>,
    owned: set<Chunk>,
    stranded: set<Chunk>,
    live: set<Chunk>,
    obtained: nat,
    returned: nat)

  datatype Action =
    | Start
    | CallAllocate(t: nat)
    | CallDeallocate(t: nat, chunk: Chunk)
    | Step(t: nat, looksFull: bool, supplied: Option<Chunk>)
    | Vanish(t: nat)

  function EmptySlots(n: nat): seq<Option<Chunk>> {
    seq(n, _ => None)
  }

  function Initial(slotCount: nat): State {
    State(EmptySlots(slotCount), [], {}, {}, {}, 0, 0)
  }

  /** Callers free only chunks they own, once; the underlying allocator hands out only blocks not in use. */
  predicate Enabled(s: State, a: Action) {
    match a
    case Start => true
    case CallAllocate(t) => t < |s.threads| && s.threads[t].place.Idle?
    case CallDeallocate(t, chunk) => t < |s.threads| && s.threads[t].place.Idle? && chunk in s.owned
    case Step(t, _, supplied) =>
      t < |s.threads| && !s.threads[t].place.Idle? && !s.threads[t].place.Vanished?
      && (supplied.Some? ==> supplied.value !in s.live)
    case Vanish(t) => t < |s.threads| && !s.threads[t].place.Vanished?
  }

  function AllocFrom(s: State, i: nat): Place {
    if i < |s.slots| then AllocLoad(i) else AllocFresh
  }

  function FreeFrom(s: State, i: nat, chunk: Chunk): Place {
    if i < |s.slots| then FreeLoad(i, chunk) else FreeOut(chunk)
  }

  function At(s: State, t: nat, place: Place, looked: seq<nat>, tries: nat): State
    requires t < |s.threads|
  {
    s.(threads := s.threads[t := Thread(place, looked, tries)])
  }

  function Next(s: State, a: Action): State
    requires Enabled(s, a)
  {
    match a
    case Start => s.(threads := s.threads + [Thread(Idle, [], 0)])
    case CallAllocate(t) => At(s, t, AllocFrom(s, 0), [], 0)
    case CallDeallocate(t, chunk) => At(s, t, FreeFrom(s, 0, chunk), [], 0).(owned := s.owned - {chunk})
    case Vanish(t) =>
      var carried := s.threads[t].place.Carried();
      At(s, t, Vanished, s.threads[t].looked, s.threads[t].tries)
        .(stranded := s.stranded + if carried.Some? then {carried.value} else {})
    case Step(t, looksFull, supplied) => NextStep(s, t, looksFull, supplied)
  }

  /** One atomic access, one call of the underlying allocator, or the return to the caller. */
  function NextStep(s: State, t: nat, looksFull: bool, supplied: Option<Chunk>): State
    requires t < |s.threads|
  {
    var looked, tries := s.threads[t].looked, s.threads[t].tries;
    match s.threads[t].place
    case Idle => s
    case Vanished => s
    case AllocLoad(i) =>
      At(s, t, if looksFull then AllocSwap(i) else AllocFrom(s, i + 1), looked + [i], tries)
    case AllocSwap(i) =>
      if i < |s.slots| && s.slots[i].Some? then
        At(s, t, AllocReturn(s.slots[i].value), looked, tries + 1).(slots := s.slots[i := None])
      else
        At(s, t, AllocFrom(s, i + 1), looked, tries + 1)
    case AllocFresh =>
      if supplied.Some? then
        At(s, t, AllocReturn(supplied.value), looked, tries).(live := s.live + {supplied.value}, obtained := s.obtained + 1)
      else
        At(s, t, Idle, looked, tries)
    case AllocReturn(chunk) =>
      At(s, t, Idle, looked, tries).(owned := s.owned + {chunk})
    case FreeLoad(i, chunk) =>
      At(s, t, if looksFull then FreeFrom(s, i + 1, chunk) else FreeExchange(i, chunk), looked + [i], tries)
    case FreeExchange(i, chunk) =>
      if i < |s.slots| && s.slots[i].None? then
        At(s, t, Idle, looked, tries + 1).(slots := s.slots[i := Some(chunk)])
      else
        At(s, t, FreeFrom(s, i + 1, chunk), looked, tries + 1)
    case FreeOut(chunk) =>
      At(s, t, Idle, looked, tries).(live := s.live - {chunk}, returned := s.returned + 1)
  }

  // ---------------------------------------------------------------- every chunk is in one place

  datatype Holder = InSlot(i: nat) | InFlight(t: nat) | WithOwner | Stranded

  predicate Holds(s: State, holder: Holder, chunk: Chunk) {
    match holder
    case InSlot(i) => i < |s.slots| && s.slots[i] == Some(chunk)
    case InFlight(t) => t < |s.threads| && s.threads[t].place.Carried() == Some(chunk)
    case WithOwner => chunk in s.owned
    case Stranded => chunk in s.stranded
  }

  ghost predicate HeldOnce(s: State) {
    && (forall chunk, a, b :: Holds(s, a, chunk) && Holds(s, b, chunk) ==> a == b)
    && (forall chunk, holder :: Holds(s, holder, chunk) ==> chunk in s.live)
    && (forall chunk :: chunk in s.live ==> exists holder :: Holds(s, holder, chunk))
  }

  /** What an action does to the chunks: at most one of them changes hands. */
  datatype Transfer =
    | Nothing
    | Moves(chunk: Chunk, source: Holder, target: Holder)
    | Obtains(chunk: Chunk, target: Holder)
    | Returns(chunk: Chunk, source: Holder)

  function TransferOf(s: State, a: Action): Transfer
    requires Enabled(s, a)
  {
    match a
    case Start => Nothing
    case CallAllocate(_) => Nothing
    case CallDeallocate(t, chunk) => Moves(chunk, WithOwner, InFlight(t))
    case Vanish(t) =>
      var carried := s.threads[t].place.Carried();
      if carried.Some? then Moves(carried.value, InFlight(t), Stranded) else Nothing
    case Step(t, _, supplied) =>
      match s.threads[t].place
      case AllocSwap(i) =>
        if i < |s.slots| && s.slots[i].Some? then Moves(s.slots[i].value, InSlot(i), InFlight(t)) else Nothing
      case AllocFresh => if supplied.Some? then Obtains(supplied.value, InFlight(t)) else Nothing
      case AllocReturn(chunk) => Moves(chunk, InFlight(t), WithOwner)
      case FreeExchange(i, chunk) =>
        if i < |s.slots| && s.slots[i].None? then Moves(chunk, InFlight(t), InSlot(i)) else Nothing
      case FreeOut(chunk) => Returns(chunk, InFlight(t))
      case _ => Nothing
  }

  /** Who holds a chunk after a transfer. */
  predicate HoldsAfter(s: State, transfer: Transfer, holder: Holder, chunk: Chunk) {
    match transfer
    case Nothing => Holds(s, holder, chunk)
    case Moves(moved, _, target) => if chunk == moved then holder == target else Holds(s, holder, chunk)
    case Obtains(moved, target) => if chunk == moved then holder == target else Holds(s, holder, chunk)
    case Returns(moved, _) => chunk != moved && Holds(s, holder, chunk)
  }

  lemma SourceHolds(s: State, a: Action)
    requires Enabled(s, a)
    ensures var transfer := TransferOf(s, a);
            transfer.Moves? || transfer.Returns? ==> Holds(s, transfer.source, transfer.chunk)
  {
  }

  lemma StepTransferIsRight(s: State, a: Action, holder: Holder, chunk: Chunk)
    requires Enabled(s, a) && HeldOnce(s) && a.Step?
    ensures Holds(Next(s, a), holder, chunk) <==> HoldsAfter(s, TransferOf(s, a), holder, chunk)
  {
    SourceHolds(s, a);
    if Holds(s, holder, chunk) {
      assert chunk in s.live;
    }
    match holder {
      case InFlight(t) => StepMovesFlight(s, a, t, chunk);
      case InSlot(i) => StepMovesSlot(s, a, i, chunk);
      case _ =>
    }
  }

  lemma StepMovesFlight(s: State, a: Action, t: nat, chunk: Chunk)
    requires Enabled(s, a) && HeldOnce(s) && a.Step?
    ensures Holds(Next(s, a), InFlight(t), chunk) <==> HoldsAfter(s, TransferOf(s, a), InFlight(t), chunk)
  {
    SourceHolds(s, a);
    if Holds(s, InFlight(t), chunk) {
      assert chunk in s.live;
    }
    if t != a.t {
      OthersLeaveAlone(s, a, t);
    }
  }

  lemma StepMovesSlot(s: State, a: Action, i: nat, chunk: Chunk)
    requires Enabled(s, a) && HeldOnce(s) && a.Step?
    ensures Holds(Next(s, a), InSlot(i), chunk) <==> HoldsAfter(s, TransferOf(s, a), InSlot(i), chunk)
  {
    SourceHolds(s, a);
    if Holds(s, InSlot(i), chunk) {
      assert chunk in s.live;
    }
  }

  lemma TransferIsRight(s: State, a: Action, holder: Holder, chunk: Chunk)
    requires Enabled(s, a) && HeldOnce(s)
    ensures Holds(Next(s, a), holder, chunk) <==> HoldsAfter(s, TransferOf(s, a), holder, chunk)
  {
    if a.Step? {
      StepTransferIsRight(s, a, holder, chunk);
    } else {
      SourceHolds(s, a);
      if Holds(s, holder, chunk) {
        assert chunk in s.live;
      }
    }
  }

  lemma StepKeepsHeldOnce(s: State, a: Action)
    requires Enabled(s, a) && HeldOnce(s)
    ensures HeldOnce(Next(s, a))
  {
    var next, transfer := Next(s, a), TransferOf(s, a);
    SourceHolds(s, a);
    forall chunk, holder ensures Holds(next, holder, chunk) <==> HoldsAfter(s, transfer, holder, chunk) {
      TransferIsRight(s, a, holder, chunk);
    }
    forall chunk | chunk in next.live ensures exists holder :: Holds(next, holder, chunk) {
      if (transfer.Moves? || transfer.Obtains?) && chunk == transfer.chunk {
        assert Holds(next, transfer.target, chunk);
      } else {
        var holder :| Holds(s, holder, chunk);
        assert Holds(next, holder, chunk);
      }
    }
  }

  // ---------------------------------------------------------------- conservation

  function Cached(slots: seq<Option<Chunk>>): (count: nat)
    ensures count <= |slots|
  {
    if slots == [] then 0 else (if slots[0].Some? then 1 else 0) + Cached(slots[1..])
  }

  function Flying(threads: seq<Thread>): nat {
    if threads == [] then 0 else (if threads[0].place.Carried().Some? then 1 else 0) + Flying(threads[1..])
  }

  function Gone(threads: seq<Thread>): nat {
    if threads == [] then 0 else (if threads[0].place.Vanished? then 1 else 0) + Gone(threads[1..])
  }

  lemma {:induction false} CachedUpdate(slots: seq<Option<Chunk>>, i: nat, slot: Option<Chunk>)
    requires i < |slots|
    ensures Cached(slots[i := slot]) == Cached(slots) - (if slots[i].Some? then 1 else 0) + if slot.Some? then 1 else 0
  {
    if i == 0 {
      assert slots[i := slot] == [slot] + slots[1..];
    } else {
      CachedUpdate(slots[1..], i - 1, slot);
      assert slots[i := slot][1..] == slots[1..][i - 1 := slot];
    }
  }

  lemma {:induction false} ThreadUpdate(threads: seq<Thread>, t: nat, thread: Thread)
    requires t < |threads|
    ensures Flying(threads[t := thread]) == Flying(threads)
              - (if threads[t].place.Carried().Some? then 1 else 0) + if thread.place.Carried().Some? then 1 else 0
    ensures Gone(threads[t := thread]) == Gone(threads)
              - (if threads[t].place.Vanished? then 1 else 0) + if thread.place.Vanished? then 1 else 0
  {
    if t == 0 {
      assert threads[t := thread] == [thread] + threads[1..];
    } else {
      ThreadUpdate(threads[1..], t - 1, thread);
      assert threads[t := thread][1..] == threads[1..][t - 1 := thread];
    }
  }

  lemma {:induction false} ThreadAdded(threads: seq<Thread>, thread: Thread)
    requires thread.place.Idle?
    ensures Flying(threads + [thread]) == Flying(threads) && Gone(threads + [thread]) == Gone(threads)
  {
    if threads != [] {
      assert (threads + [thread])[1..] == threads[1..] + [thread];
      ThreadAdded(threads[1..], thread);
    }
  }

  /** Chunks obtained and not returned are the cached, the carried, the owned and the stranded ones. */
  ghost predicate Conserves(s: State) {
    && s.obtained - s.returned == Cached(s.slots) + Flying(s.threads) + |s.owned| + |s.stranded|
    && |s.stranded| <= Gone(s.threads)
  }

  function One(b: bool): nat {
    if b then 1 else 0
  }

  /** The sums over threads change with the one that acts. */
  lemma ThreadsAfter(s: State, a: Action)
    requires Enabled(s, a)
    ensures a.Start? ==> Flying(Next(s, a).threads) == Flying(s.threads) && Gone(Next(s, a).threads) == Gone(s.threads)
    ensures !a.Start? ==>
              var was, now := s.threads[a.t].place, Next(s, a).threads[a.t].place;
              && Flying(Next(s, a).threads) == Flying(s.threads) - One(was.Carried().Some?) + One(now.Carried().Some?)
              && Gone(Next(s, a).threads) == Gone(s.threads) + One(now.Vanished?)
  {
    if a.Start? {
      ThreadAdded(s.threads, Thread(Idle, [], 0));
    } else {
      var next := Next(s, a);
      ThreadUpdate(s.threads, a.t, next.threads[a.t]);
      assert next.threads == s.threads[a.t := next.threads[a.t]];
    }
  }

  /** Chunks fly in and out of threads as they change hands. */
  lemma FlyingAfter(s: State, a: Action)
    requires Enabled(s, a)
    ensures Flying(Next(s, a).threads) ==
            match TransferOf(s, a)
            case Nothing => Flying(s.threads)
            case Moves(_, source, target) => Flying(s.threads) - One(source.InFlight?) + One(target.InFlight?)
            case Obtains(_, _) => Flying(s.threads) + 1
            case Returns(_, _) => Flying(s.threads) - 1
  {
    ThreadsAfter(s, a);
  }

  lemma CountsAfter(s: State, a: Action)
    requires Enabled(s, a)
    ensures Gone(Next(s, a).threads) == Gone(s.threads) + One(a.Vanish?)
    ensures Next(s, a).obtained == s.obtained + One(TransferOf(s, a).Obtains?)
    ensures Next(s, a).returned == s.returned + One(TransferOf(s, a).Returns?)
  {
    ThreadsAfter(s, a);
  }

  lemma CachedAfter(s: State, a: Action)
    requires Enabled(s, a)
    ensures Cached(Next(s, a).slots) ==
            match TransferOf(s, a)
            case Moves(_, source, target) => Cached(s.slots) - One(source.InSlot?) + One(target.InSlot?)
            case _ => Cached(s.slots)
  {
    if a.Step? {
      var place := s.threads[a.t].place;
      if place.AllocSwap? && place.i < |s.slots| {
        CachedUpdate(s.slots, place.i, None);
      } else if place.FreeExchange? && place.i < |s.slots| {
        CachedUpdate(s.slots, place.i, Some(place.given));
      }
    }
  }

  /** The owned and the stranded change by the chunk that moves. */
  lemma OwnedAfter(s: State, a: Action)
    requires Enabled(s, a) && HeldOnce(s)
    ensures |Next(s, a).owned| ==
            match TransferOf(s, a)
            case Moves(_, source, target) => |s.owned| - One(source.WithOwner?) + One(target.WithOwner?)
            case _ => |s.owned|
  {
    SourceHolds(s, a);
    var transfer := TransferOf(s, a);
    if transfer.Moves? {
      assert transfer.target.WithOwner? ==> !Holds(s, WithOwner, transfer.chunk);
    }
  }

  lemma OnlyVanishingStrands(s: State, a: Action)
    requires Enabled(s, a)
    ensures TransferOf(s, a).Moves? ==> !TransferOf(s, a).source.Stranded? && (TransferOf(s, a).target.Stranded? ==> a.Vanish?)
    ensures !a.Vanish? ==> Next(s, a).stranded == s.stranded
  {
  }

  lemma StrandedAfter(s: State, a: Action)
    requires Enabled(s, a) && HeldOnce(s)
    ensures |Next(s, a).stranded| ==
            match TransferOf(s, a)
            case Moves(_, _, target) => |s.stranded| + One(target.Stranded?)
            case _ => |s.stranded|
  {
    if a.Vanish? {
      VanishedIsStranded(s, a.t);
    } else {
      OnlyVanishingStrands(s, a);
    }
  }

  lemma VanishedIsStranded(s: State, t: nat)
    requires Enabled(s, Vanish(t)) && HeldOnce(s)
    ensures |Next(s, Vanish(t)).stranded| == |s.stranded| + One(s.threads[t].place.Carried().Some?)
  {
    var carried := s.threads[t].place.Carried();
    if carried.Some? {
      assert Holds(s, InFlight(t), carried.value) && !Holds(s, Stranded, carried.value);
    }
  }

  lemma StepConserves(s: State, a: Action)
    requires Enabled(s, a) && HeldOnce(s) && Conserves(s)
    ensures Conserves(Next(s, a))
    ensures |Next(s, a).stranded| <= |s.stranded| + One(a.Vanish?)
  {
    FlyingAfter(s, a);
    CountsAfter(s, a);
    CachedAfter(s, a);
    OwnedAfter(s, a);
    StrandedAfter(s, a);
    OnlyVanishingStrands(s, a);
  }

  // ---------------------------------------------------------------- bounded calls

  /** The first `i` slots, in order. */
  ghost predicate AreFirst(looked: seq<nat>, i: nat) {
    |looked| == i && forall k :: 0 <= k < i ==> looked[k] == k
  }

  /**
   * A call visits the slots one after the other, each with one access or two; `n` is the number of
   * slots. Only after the last does it turn to the underlying allocator.
   */
  ghost predicate IsBounded(thread: Thread, n: nat) {
    match thread.place
    case AllocLoad(i) => i < n && AreFirst(thread.looked, i) && thread.tries <= i
    case AllocSwap(i) => i < n && AreFirst(thread.looked, i + 1) && thread.tries <= i
    case AllocFresh => AreFirst(thread.looked, n) && thread.tries <= n
    case FreeLoad(i, _) => i < n && AreFirst(thread.looked, i) && thread.tries <= i
    case FreeExchange(i, _) => i < n && AreFirst(thread.looked, i + 1) && thread.tries <= i
    case FreeOut(_) => AreFirst(thread.looked, n) && thread.tries <= n
    case _ => |thread.looked| <= n && AreFirst(thread.looked, |thread.looked|) && thread.tries <= |thread.looked|
  }

  /** How many more steps a call can take, whatever the other threads do meanwhile. */
  function StepsLeft(thread: Thread, n: nat): nat {
    match thread.place
    case Idle => 0
    case Vanished => 0
    case AllocLoad(i) => if i < n then 2 * (n - i) + 2 else 0
    case AllocSwap(i) => if i < n then 2 * (n - i) + 1 else 0
    case AllocFresh => 2
    case AllocReturn(_) => 1
    case FreeLoad(i, _) => if i < n then 2 * (n - i) + 1 else 0
    case FreeExchange(i, _) => if i < n then 2 * (n - i) else 0
    case FreeOut(_) => 1
  }

  ghost predicate AreBounded(s: State) {
    forall t :: 0 <= t < |s.threads| ==> IsBounded(s.threads[t], |s.slots|)
  }

  lemma OwnStepStaysBounded(s: State, a: Action)
    requires Enabled(s, a) && !a.Start? && IsBounded(s.threads[a.t], |s.slots|)
    ensures |Next(s, a).slots| == |s.slots| && IsBounded(Next(s, a).threads[a.t], |s.slots|)
  {
  }

  lemma StepKeepsBounds(s: State, a: Action)
    requires Enabled(s, a) && AreBounded(s)
    ensures AreBounded(Next(s, a)) && |Next(s, a).slots| == |s.slots|
  {
    if !a.Start? {
      OwnStepStaysBounded(s, a);
      forall t | 0 <= t < |s.threads| && t != a.t ensures IsBounded(Next(s, a).threads[t], |s.slots|) {
        OthersLeaveAlone(s, a, t);
      }
      assert |Next(s, a).threads| == |s.threads|;
    }
  }

  /** Calls are wait-free: a started call can always step, and each own step brings it closer to its end. */
  lemma CallsAreWaitFree(s: State, t: nat, looksFull: bool)
    requires AreBounded(s) && t < |s.threads| && !s.threads[t].place.Idle? && !s.threads[t].place.Vanished?
    ensures Enabled(s, Step(t, looksFull, None))
    ensures StepsLeft(s.threads[t], |s.slots|) > 0
    ensures forall supplied :: Enabled(s, Step(t, looksFull, supplied)) ==>
              StepsLeft(Next(s, Step(t, looksFull, supplied)).threads[t], |s.slots|) < StepsLeft(s.threads[t], |s.slots|)
    ensures forall other: Action :: Enabled(s, other) && !other.Start? && other.t != t ==>
              Next(s, other).threads[t] == s.threads[t]
  {
    assert IsBounded(s.threads[t], |s.slots|);
    forall other: Action | Enabled(s, other) && !other.Start? && other.t != t
      ensures Next(s, other).threads[t] == s.threads[t]
    {
      OthersLeaveAlone(s, other, t);
    }
  }

  lemma OthersLeaveAlone(s: State, other: Action, t: nat)
    requires Enabled(s, other) && !other.Start? && other.t != t
    ensures |Next(s, other).threads| == |s.threads| && (t < |s.threads| ==> Next(s, other).threads[t] == s.threads[t])
  {
  }

  // ---------------------------------------------------------------- whole runs

  predicate IsRun(s: State, actions: seq<Action>)
    decreases |actions|
  {
    actions == [] || (Enabled(s, actions[0]) && IsRun(Next(s, actions[0]), actions[1..]))
  }

  function After(s: State, actions: seq<Action>): State
    requires IsRun(s, actions)
    decreases |actions|
  {
    if actions == [] then s else After(Next(s, actions[0]), actions[1..])
  }

  ghost predicate Invariant(s: State) {
    HeldOnce(s) && Conserves(s) && AreBounded(s)
  }

  lemma {:induction false} RunKeepsInvariant(s: State, actions: seq<Action>)
    requires Invariant(s) && IsRun(s, actions)
    ensures Invariant(After(s, actions)) && |After(s, actions).slots| == |s.slots|
    decreases |actions|
  {
    if actions != [] {
      StepKeepsHeldOnce(s, actions[0]);
      StepConserves(s, actions[0]);
      StepKeepsBounds(s, actions[0]);
      RunKeepsInvariant(Next(s, actions[0]), actions[1..]);
    }
  }

  lemma {:induction false} NothingCached(n: nat)
    ensures Cached(EmptySlots(n)) == 0
  {
    if n > 0 {
      NothingCached(n - 1);
      assert EmptySlots(n)[1..] == EmptySlots(n - 1);
    }
  }

  lemma {:induction false} NoMoreGoneThanThreads(threads: seq<Thread>)
    ensures Gone(threads) <= |threads|
  {
    if threads != [] {
      NoMoreGoneThanThreads(threads[1..]);
    }
  }

  /**
   * In every interleaving: each chunk in use has exactly one holder, none is lost or counted twice,
   * the cache stays within its slots, no more chunks are stranded than threads vanished, no call has made
   * more than two accesses per slot, and none turns to the underlying allocator before it has looked at
   * every slot, one after the other.
   */
  lemma EveryRunIsSafe(slotCount: nat, actions: seq<Action>)
    requires IsRun(Initial(slotCount), actions)
    ensures var s := After(Initial(slotCount), actions);
            && HeldOnce(s)
            && s.obtained - s.returned == Cached(s.slots) + Flying(s.threads) + |s.owned| + |s.stranded|
            && Cached(s.slots) <= slotCount
            && |s.stranded| <= Gone(s.threads) <= |s.threads|
            && (forall t :: 0 <= t < |s.threads| ==> s.threads[t].Accesses() <= 2 * slotCount)
            && (forall t :: 0 <= t < |s.threads| && (s.threads[t].place.AllocFresh? || s.threads[t].place.FreeOut?) ==>
                  AreFirst(s.threads[t].looked, slotCount))
  {
    NothingCached(slotCount);
    NoMoreGoneThanThreads(After(Initial(slotCount), actions).threads);
    RunKeepsInvariant(Initial(slotCount), actions);
    var s := After(Initial(slotCount), actions);
    forall t | 0 <= t < |s.threads|
      ensures s.threads[t].Accesses() <= 2 * slotCount
      ensures s.threads[t].place.AllocFresh? || s.threads[t].place.FreeOut? ==> AreFirst(s.threads[t].looked, slotCount)
    {
      assert IsBounded(s.threads[t], |s.slots|);
    }
  }

  /** A chunk being handed out is with no other caller, in no slot and in no other thread's hands. */
  lemma HandedOutChunkIsExclusive(s: State, t: nat)
    requires HeldOnce(s) && t < |s.threads| && s.threads[t].place.AllocReturn?
    ensures var chunk := s.threads[t].place.taken;
            && chunk in s.live && chunk !in s.owned && chunk !in s.stranded
            && Some(chunk) !in s.slots
            && forall other :: 0 <= other < |s.threads| && other != t ==> s.threads[other].place.Carried() != Some(chunk)
  {
    var chunk := s.threads[t].place.taken;
    assert Holds(s, InFlight(t), chunk);
    assert !Holds(s, WithOwner, chunk) && !Holds(s, Stranded, chunk);
    forall i | 0 <= i < |s.slots| ensures s.slots[i] != Some(chunk) {
      assert !Holds(s, InSlot(i), chunk);
    }
    forall other | 0 <= other < |s.threads| && other != t ensures s.threads[other].place.Carried() != Some(chunk) {
      assert !Holds(s, InFlight(other), chunk);
    }
  }
}
