/** One pool call at a time: what `allocate`, `deallocate` and `drop` do when no other thread interferes. */
module PoolCalls {
  import opened Wrappers
  import opened ChunkPool

  /** The slots without their first chunk, and that chunk. */
  function Take(slots: seq<Option<Chunk>>): (taken: (seq<Option<Chunk>>, Option<Chunk>))
    ensures |taken.0| == |slots|
  {
    if slots == [] then ([], None)
    else if slots[0].Some? then ([None] + slots[1..], slots[0])
    else var (rest, chunk) := Take(slots[1..]); ([None] + rest, chunk)
  }

  /** The slots with `chunk` in the first empty one, or nothing if the cache is full. */
  function Put(slots: seq<Option<Chunk>>, chunk: Chunk): (kept: Option<seq<Option<Chunk>>>)
    ensures kept.Some? ==> |kept.value| == |slots|
  {
    if slots == [] then None
    else if slots[0].None? then Some([Some(chunk)] + slots[1..])
    else
      var rest := Put(slots[1..], chunk);
      if rest.None? then None else Some([slots[0]] + rest.value)
  }

  lemma {:induction false} TakeEmptiesOneSlot(slots: seq<Option<Chunk>>)
    ensures Take(slots).1.None? <==> Cached(slots) == 0
    ensures Take(slots).1.None? ==> Take(slots).0 == slots
    ensures Take(slots).1.Some? ==> Cached(Take(slots).0) == Cached(slots) - 1
  {
    if slots != [] && slots[0].None? {
      TakeEmptiesOneSlot(slots[1..]);
      assert ([None] + Take(slots[1..]).0)[1..] == Take(slots[1..]).0;
    } else if slots != [] {
      assert ([None] + slots[1..])[1..] == slots[1..];
    }
  }

  /** A chunk put back while there is room is cached, so the next request is served from the cache. */
  lemma {:induction false} PutIsRecycled(slots: seq<Option<Chunk>>, chunk: Chunk)
    ensures Put(slots, chunk).None? <==> Cached(slots) == |slots|
    ensures Put(slots, chunk).Some? ==> Cached(Put(slots, chunk).value) == Cached(slots) + 1
    ensures Put(slots, chunk).Some? ==> Take(Put(slots, chunk).value).1.Some?
    ensures Put(slots, chunk).Some? && Cached(slots) == 0 ==> Take(Put(slots, chunk).value) == (slots, Some(chunk))
  {
    if slots != [] && slots[0].Some? {
      PutIsRecycled(slots[1..], chunk);
      if Put(slots, chunk).Some? {
        assert Put(slots, chunk).value[1..] == Put(slots[1..], chunk).value;
      }
    } else if slots != [] {
      assert ([Some(chunk)] + slots[1..])[1..] == slots[1..];
      assert [None] + slots[1..] == slots;
    }
  }

  /** Blocks are their address and the size they were served with. */
  datatype Block = Block(address: nat, size: nat)

  class Pool {
    const chunkSize: nat
    const chunkAlign: nat
    const slots: array<Option<Chunk>>

    constructor (chunkSize: nat, chunkAlign: nat, slotCount: nat)
      ensures this.chunkSize == chunkSize && this.chunkAlign == chunkAlign
      ensures fresh(slots) && slots[..] == EmptySlots(slotCount)
    {
      this.chunkSize, this.chunkAlign := chunkSize, chunkAlign;
      slots := new Option<Chunk>[slotCount](_ => None);
    }

    /** `supply` is the underlying allocator's answer, should it be asked; the call says what it was asked for. */
    method Allocate(size: nat, align: nat, supply: Option<Block>) returns (r: Option<Block>, asked: Option<nat>)
      modifies slots
      ensures size == 0 || align > chunkAlign ==> r.None? && asked.None? && slots[..] == old(slots[..])
      ensures size > chunkSize && align <= chunkAlign ==>
                r == supply && asked == Some(size) && slots[..] == old(slots[..])
      ensures 0 < size <= chunkSize && align <= chunkAlign ==>
                var (rest, chunk) := Take(old(slots[..]));
                && slots[..] == rest
                && if chunk.Some? then r == Some(Block(chunk.value, chunkSize)) && asked.None?
                   else r == supply && asked == Some(chunkSize)
    {
      if size == 0 || align > chunkAlign {
        return None, None;
      }
      if size > chunkSize {
        return supply, Some(size);
      }
      ghost var before := slots[..];
      for i := 0 to slots.Length
        invariant slots[..] == before
        invariant forall j :: 0 <= j < i ==> before[j].None?
      {
        if slots[i].Some? {
          var chunk := slots[i].value;
          slots[i] := None;
          FirstFull(before, i);
          return Some(Block(chunk, chunkSize)), None;
        }
      }
      NoneFull(before);
      return supply, Some(chunkSize);
    }

    /** Says whether the block went back to the underlying allocator, and with what size. */
    method Deallocate(address: nat, size: nat) returns (givenBack: Option<nat>)
      modifies slots
      ensures size > chunkSize ==> givenBack == Some(size) && slots[..] == old(slots[..])
      ensures size <= chunkSize ==>
                match Put(old(slots[..]), address)
                case Some(kept) => slots[..] == kept && givenBack.None?
                case None => slots[..] == old(slots[..]) && givenBack == Some(chunkSize)
    {
      if size > chunkSize {
        return Some(size);
      }
      ghost var before := slots[..];
      for i := 0 to slots.Length
        invariant slots[..] == before
        invariant forall j :: 0 <= j < i ==> before[j].Some?
      {
        if slots[i].None? {
          slots[i] := Some(address);
          FirstEmpty(before, i, address);
          return None;
        }
      }
      NoneEmpty(before, address);
      return Some(chunkSize);
    }

    /** Gives every cached chunk back, each once. */
    method Drop() returns (givenBack: seq<Chunk>)
      modifies slots
      ensures slots[..] == EmptySlots(slots.Length)
      ensures givenBack == Chunks(old(slots[..]))
    {
      givenBack := [];
      ghost var before := slots[..];
      for i := 0 to slots.Length
        invariant forall j :: 0 <= j < i ==> slots[j] == None
        invariant forall j :: i <= j < slots.Length ==> slots[j] == before[j]
        invariant givenBack == Chunks(before[..i])
      {
        assert before[..i + 1] == before[..i] + [before[i]];
        ChunksAppend(before[..i], before[i]);
        var chunk := slots[i];
        slots[i] := None;
        if chunk.Some? {
          givenBack := givenBack + [chunk.value];
        }
      }
      assert before[..slots.Length] == before;
    }
  }

  function Chunks(slots: seq<Option<Chunk>>): (chunks: seq<Chunk>)
    ensures |chunks| == Cached(slots)
  {
    if slots == [] then [] else (if slots[0].Some? then [slots[0].value] else []) + Chunks(slots[1..])
  }

  lemma {:induction false} ChunksAppend(slots: seq<Option<Chunk>>, slot: Option<Chunk>)
    ensures Chunks(slots + [slot]) == Chunks(slots) + if slot.Some? then [slot.value] else []
  {
    if slots != [] {
      assert (slots + [slot])[1..] == slots[1..] + [slot];
      ChunksAppend(slots[1..], slot);
    }
  }

  lemma {:induction false} FirstFull(slots: seq<Option<Chunk>>, i: nat)
    requires i < |slots| && slots[i].Some? && forall j :: 0 <= j < i ==> slots[j].None?
    ensures Take(slots) == (slots[i := None], slots[i])
  {
    if i > 0 {
      FirstFull(slots[1..], i - 1);
      assert slots[i := None] == [None] + slots[1..][i - 1 := None];
    } else {
      assert slots[0 := None] == [None] + slots[1..];
    }
  }

  lemma {:induction false} NoneFull(slots: seq<Option<Chunk>>)
    requires forall j :: 0 <= j < |slots| ==> slots[j].None?
    ensures Take(slots) == (slots, None)
  {
    if slots != [] {
      NoneFull(slots[1..]);
      assert [None] + slots[1..] == slots;
    }
  }

  lemma {:induction false} FirstEmpty(slots: seq<Option<Chunk>>, i: nat, chunk: Chunk)
    requires i < |slots| && slots[i].None? && forall j :: 0 <= j < i ==> slots[j].Some?
    ensures Put(slots, chunk) == Some(slots[i := Some(chunk)])
  {
    if i > 0 {
      FirstEmpty(slots[1..], i - 1, chunk);
      assert slots[i := Some(chunk)] == [slots[0]] + slots[1..][i - 1 := Some(chunk)];
    } else {
      assert slots[0 := Some(chunk)] == [Some(chunk)] + slots[1..];
    }
  }

  lemma {:induction false} NoneEmpty(slots: seq<Option<Chunk>>, chunk: Chunk)
    requires forall j :: 0 <= j < |slots| ==> slots[j].Some?
    ensures Put(slots, chunk) == None
  {
    if slots != [] {
      NoneEmpty(slots[1..], chunk);
    }
  }

  /** The scan from one slot on. */
  lemma TakeAt(slots: seq<Option<Chunk>>, i: nat)
    requires i < |slots|
    ensures slots[i].Some? ==> Take(slots[i..]) == ([None] + slots[i + 1..], slots[i])
    ensures slots[i].None? ==> Take(slots[i..]) == ([None] + Take(slots[i + 1..]).0, Take(slots[i + 1..]).1)
    ensures slots[..i + 1] == slots[..i] + [slots[i]]
  {
    assert slots[i..][1..] == slots[i + 1..];
  }

  /** The same scan as a run of the shared machine: undisturbed, with accurate loads, it takes the same chunk. */
  lemma {:induction false} UndisturbedScanTakes(s: State, t: nat, i: nat) returns (actions: seq<Action>)
    requires t < |s.threads| && i <= |s.slots| && s.threads[t].place == AllocFrom(s, i)
    ensures IsRun(s, actions)
    ensures After(s, actions).slots == s.slots[..i] + Take(s.slots[i..]).0
    ensures t < |After(s, actions).threads|
    ensures After(s, actions).threads[t].place ==
            match Take(s.slots[i..]).1 case Some(chunk) => AllocReturn(chunk) case None => AllocFresh
    decreases |s.slots| - i
  {
    if i == |s.slots| {
      actions := [];
      assert s.slots[i..] == [] && s.slots[..i] == s.slots;
    } else {
      var look := Step(t, s.slots[i].Some?, None);
      var rest := [];
      TakeAt(s.slots, i);
      LookMovesOn(s, t, i);
      if s.slots[i].Some? {
        rest := SwapTakes(Next(s, look), t, i);
      } else {
        rest := UndisturbedScanTakes(Next(s, look), t, i + 1);
      }
      RunOn(s, look, rest);
      actions := [look] + rest;
    }
  }

  /** An accurate load goes on to swap a full slot, or to the next slot. */
  lemma LookMovesOn(s: State, t: nat, i: nat)
    requires t < |s.threads| && i < |s.slots| && s.threads[t].place == AllocLoad(i)
    ensures Enabled(s, Step(t, s.slots[i].Some?, None))
    ensures var looked := Next(s, Step(t, s.slots[i].Some?, None));
            && looked.slots == s.slots && |looked.threads| == |s.threads|
            && looked.threads[t].place == if s.slots[i].Some? then AllocSwap(i) else AllocFrom(s, i + 1)
  {
  }

  lemma SwapTakes(s: State, t: nat, i: nat) returns (actions: seq<Action>)
    requires t < |s.threads| && i < |s.slots| && s.threads[t].place == AllocSwap(i) && s.slots[i].Some?
    ensures IsRun(s, actions) && |After(s, actions).threads| == |s.threads|
    ensures After(s, actions).slots == s.slots[..i] + ([None] + s.slots[i + 1..])
    ensures After(s, actions).threads[t].place == AllocReturn(s.slots[i].value)
  {
    var swap := Step(t, true, None);
    actions := [swap];
    assert actions[1..] == [] && After(s, actions) == Next(s, swap);
    assert s.slots[i := None] == s.slots[..i] + ([None] + s.slots[i + 1..]);
  }

  /** The scan from one slot on, putting a chunk back. */
  lemma PutAt(slots: seq<Option<Chunk>>, i: nat, chunk: Chunk)
    requires i < |slots|
    ensures slots[i].None? ==> Put(slots[i..], chunk) == Some([Some(chunk)] + slots[i + 1..])
    ensures slots[i].Some? ==>
              Put(slots[i..], chunk) == match Put(slots[i + 1..], chunk) case None => None case Some(rest) => Some([slots[i]] + rest)
    ensures slots[..i + 1] == slots[..i] + [slots[i]]
  {
    assert slots[i..][1..] == slots[i + 1..];
  }

  lemma {:induction false} UndisturbedScanPuts(s: State, t: nat, i: nat, chunk: Chunk) returns (actions: seq<Action>)
    requires t < |s.threads| && i <= |s.slots| && s.threads[t].place == FreeFrom(s, i, chunk)
    ensures IsRun(s, actions)
    ensures t < |After(s, actions).threads|
    ensures match Put(s.slots[i..], chunk)
            case Some(rest) => After(s, actions).slots == s.slots[..i] + rest && After(s, actions).threads[t].place == Idle
            case None => After(s, actions).slots == s.slots && After(s, actions).threads[t].place == FreeOut(chunk)
    decreases |s.slots| - i
  {
    if i == |s.slots| {
      actions := [];
      assert s.slots[i..] == [];
    } else {
      var look := Step(t, s.slots[i].Some?, None);
      var rest := [];
      PutAt(s.slots, i, chunk);
      PutLookMovesOn(s, t, i, chunk);
      if s.slots[i].None? {
        rest := ExchangePuts(Next(s, look), t, i, chunk);
      } else {
        rest := UndisturbedScanPuts(Next(s, look), t, i + 1, chunk);
      }
      RunOn(s, look, rest);
      actions := [look] + rest;
    }
  }

  /** An accurate load goes on to fill an empty slot, or to the next slot. */
  lemma PutLookMovesOn(s: State, t: nat, i: nat, chunk: Chunk)
    requires t < |s.threads| && i < |s.slots| && s.threads[t].place == FreeLoad(i, chunk)
    ensures Enabled(s, Step(t, s.slots[i].Some?, None))
    ensures var looked := Next(s, Step(t, s.slots[i].Some?, None));
            && looked.slots == s.slots && |looked.threads| == |s.threads|
            && looked.threads[t].place == if s.slots[i].None? then FreeExchange(i, chunk) else FreeFrom(s, i + 1, chunk)
  {
  }

  lemma ExchangePuts(s: State, t: nat, i: nat, chunk: Chunk) returns (actions: seq<Action>)
    requires t < |s.threads| && i < |s.slots| && s.threads[t].place == FreeExchange(i, chunk) && s.slots[i].None?
    ensures IsRun(s, actions) && |After(s, actions).threads| == |s.threads|
    ensures After(s, actions).slots == s.slots[..i] + ([Some(chunk)] + s.slots[i + 1..])
    ensures After(s, actions).threads[t].place == Idle
  {
    var exchange := Step(t, false, None);
    actions := [exchange];
    assert actions[1..] == [] && After(s, actions) == Next(s, exchange);
    assert s.slots[i := Some(chunk)] == s.slots[..i] + ([Some(chunk)] + s.slots[i + 1..]);
  }

  /** A whole call without interference, from the caller's point of view: the first chunk in the cache, if there is any. */
  lemma UndisturbedAllocate(s: State, t: nat) returns (actions: seq<Action>)
    requires t < |s.threads| && s.threads[t].place == Idle
    ensures actions != [] && actions[0] == CallAllocate(t) && IsRun(s, actions) && t < |After(s, actions).threads|
    ensures forall i: nat :: i < |s.slots| && s.slots[i].Some? && (forall j :: 0 <= j < i ==> s.slots[j].None?) ==>
              After(s, actions).slots == s.slots[i := None] && After(s, actions).threads[t].place == AllocReturn(s.slots[i].value)
    ensures (forall i :: 0 <= i < |s.slots| ==> s.slots[i].None?) ==>
              After(s, actions).slots == s.slots && After(s, actions).threads[t].place == AllocFresh
  {
    var called := Next(s, CallAllocate(t));
    var scan := UndisturbedScanTakes(called, t, 0);
    RunOn(s, CallAllocate(t), scan);
    actions := [CallAllocate(t)] + scan;
    assert s.slots[0..] == s.slots && s.slots[..0] + Take(s.slots).0 == Take(s.slots).0;
    forall i: nat | i < |s.slots| && s.slots[i].Some? && (forall j :: 0 <= j < i ==> s.slots[j].None?)
      ensures Take(s.slots) == (s.slots[i := None], s.slots[i])
    {
      FirstFull(s.slots, i);
    }
    if forall i :: 0 <= i < |s.slots| ==> s.slots[i].None? {
      NoneFull(s.slots);
    }
  }

  /** And back: into the first slot without a chunk, or out to the underlying allocator. */
  lemma UndisturbedDeallocate(s: State, t: nat, chunk: Chunk) returns (actions: seq<Action>)
    requires t < |s.threads| && s.threads[t].place == Idle && chunk in s.owned
    ensures actions != [] && actions[0] == CallDeallocate(t, chunk) && IsRun(s, actions) && t < |After(s, actions).threads|
    ensures forall i: nat :: i < |s.slots| && s.slots[i].None? && (forall j :: 0 <= j < i ==> s.slots[j].Some?) ==>
              After(s, actions).slots == s.slots[i := Some(chunk)] && After(s, actions).threads[t].place == Idle
    ensures (forall i :: 0 <= i < |s.slots| ==> s.slots[i].Some?) ==>
              After(s, actions).slots == s.slots && After(s, actions).threads[t].place == FreeOut(chunk)
  {
    var called := Next(s, CallDeallocate(t, chunk));
    var scan := UndisturbedScanPuts(called, t, 0, chunk);
    RunOn(s, CallDeallocate(t, chunk), scan);
    actions := [CallDeallocate(t, chunk)] + scan;
    assert s.slots[0..] == s.slots && s.slots[..0] == [];
    forall i: nat | i < |s.slots| && s.slots[i].None? && (forall j :: 0 <= j < i ==> s.slots[j].Some?)
      ensures Put(s.slots, chunk) == Some(s.slots[i := Some(chunk)])
    {
      FirstEmpty(s.slots, i, chunk);
    }
    if forall i :: 0 <= i < |s.slots| ==> s.slots[i].Some? {
      NoneEmpty(s.slots, chunk);
    }
  }

  lemma RunOn(s: State, first: Action, rest: seq<Action>)
    requires Enabled(s, first) && IsRun(Next(s, first), rest)
    ensures IsRun(s, [first] + rest) && After(s, [first] + rest) == After(Next(s, first), rest)
  {
    assert ([first] + rest)[1..] == rest;
  }
}
