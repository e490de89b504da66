/** The server's driver: an accept loop that a signal or the first failure ends, then a drain loop. */
module Driver {
  import opened Wrappers

  type Error = string

  /**
   * What happens next, as an unbiased `select!` may pick it: the stop signal is given from outside,
   * the loop notices that it was cancelled, a connection comes in or fails, or a client's task ends.
   * Entries that are not ready when their turn comes are passed over.
   */
  datatype Choice = Signal | Shutdown | Accept(ok: bool) | Finish(client: nat)

  /** What the driver did. Clients are numbered as they are accepted. */
  datatype Step = Accepted(client: nat) | Finished(client: nat) | Closed

  function AcceptedIn(log: seq<Step>): seq<nat> {
    if log == [] then []
    else
      var last := log[|log| - 1];
      AcceptedIn(log[..|log| - 1]) + if last.Accepted? then [last.client] else []
  }

  function FinishedIn(log: seq<Step>): seq<nat> {
    if log == [] then []
    else
      var last := log[|log| - 1];
      FinishedIn(log[..|log| - 1]) + if last.Finished? then [last.client] else []
  }

  lemma LogStep(log: seq<Step>, step: Step)
    ensures AcceptedIn(log + [step]) == AcceptedIn(log) + if step.Accepted? then [step.client] else []
    ensures FinishedIn(log + [step]) == FinishedIn(log) + if step.Finished? then [step.client] else []
  {
    assert (log + [step])[..|log|] == log;
  }

  /** The error of the earliest client to fail, in the order they finished. */
  function FirstError(fails: nat -> Option<Error>, order: seq<nat>): (e: Option<Error>)
    ensures e.None? <==> forall i :: 0 <= i < |order| ==> fails(order[i]).None?
    ensures e.Some? ==> exists i :: 0 <= i < |order| && IsFirstFailure(fails, order, i) && fails(order[i]) == e
  {
    if order == [] then None
    else
      var last := |order| - 1;
      var e := FirstError(fails, order[..last]);
      assert e.None? && fails(order[last]).Some? ==> IsFirstFailure(fails, order, last);
      assert forall i :: 0 <= i < last && IsFirstFailure(fails, order[..last], i) ==> IsFirstFailure(fails, order, i);
      if e.Some? then e else fails(order[last])
  }

  ghost predicate IsFirstFailure(fails: nat -> Option<Error>, order: seq<nat>, i: nat) {
    i < |order| && fails(order[i]).Some? && forall j :: 0 <= j < i ==> fails(order[j]).None?
  }

  /** Clients are accepted once each, in order, and finish at most once each, after they were accepted. */
  ghost predicate IsOrderly(log: seq<Step>, inFlight: set<nat>) {
    var accepted, finished := AcceptedIn(log), FinishedIn(log);
    && (forall i :: 0 <= i < |accepted| ==> accepted[i] == i)
    && (forall c :: c in finished || c in inFlight <==> 0 <= c < |accepted|)
    && (forall c :: c in finished ==> c !in inFlight)
    && (forall i, j :: 0 <= i < j < |finished| ==> finished[i] != finished[j])
    && |accepted| == |finished| + |inFlight|
  }

  ghost predicate NothingAcceptedAfterClosing(log: seq<Step>) {
    forall i, j :: 0 <= i < j < |log| && log[i].Closed? ==> !log[j].Accepted?
  }

  /** How many connections came in among the first `n` entries. */
  function Connections(schedule: seq<Choice>, n: nat): nat
    requires n <= |schedule|
  {
    if n == 0 then 0 else Connections(schedule, n - 1) + if schedule[n - 1] == Accept(true) then 1 else 0
  }

  lemma {:induction false} ConnectionsGrow(schedule: seq<Choice>, i: nat, n: nat)
    requires i <= n <= |schedule|
    ensures Connections(schedule, i) <= Connections(schedule, n)
    decreases n
  {
    if i < n {
      ConnectionsGrow(schedule, i, n - 1);
    }
  }

  /** A client accepted before entry `i` ends there. */
  predicate EndsAt(schedule: seq<Choice>, c: nat, i: nat) {
    i < |schedule| && schedule[i] == Finish(c) && c < Connections(schedule, i)
  }

  /** Before entry `n` someone asked the server to stop, or a client it had accepted failed. */
  ghost predicate IsStopped(schedule: seq<Choice>, fails: nat -> Option<Error>, n: nat) {
    exists i: nat :: i < n && StopsAt(schedule, fails, i)
  }

  ghost predicate StopsAt(schedule: seq<Choice>, fails: nat -> Option<Error>, i: nat) {
    i < |schedule| && (schedule[i].Signal? || (schedule[i].Finish? && EndsAt(schedule, schedule[i].client, i) && fails(schedule[i].client).Some?))
  }

  /** The accept loop ends with the first entry that lets it notice it was stopped. */
  ghost predicate ClosesAt(schedule: seq<Choice>, fails: nat -> Option<Error>, j: nat) {
    j < |schedule| && schedule[j].Shutdown? && IsStopped(schedule, fails, j)
  }

  /** `n` entries were read by the accept loop, and `open` says that it goes on. */
  ghost predicate ReadsUntilClosing(schedule: seq<Choice>, fails: nat -> Option<Error>, n: nat, open: bool) {
    && n <= |schedule| && (open || n > 0)
    && (forall j: nat :: j < (if open then n else n - 1) ==> !ClosesAt(schedule, fails, j))
    && (!open ==> ClosesAt(schedule, fails, n - 1))
  }

  /** A client is in flight exactly while it has been accepted and has not ended. */
  ghost predicate MissesNoEnd(schedule: seq<Choice>, inFlight: set<nat>, from: nat, until: nat) {
    forall c, i: nat :: c in inFlight && from <= i < until ==> !EndsAt(schedule, c, i)
  }

  /** The loop's variables: the clients in flight and the first error, with what led to them. */
  datatype Work = Work(inFlight: set<nat>, accepted: nat, firstErr: Option<Error>, log: seq<Step>) {
    ghost predicate Valid(fails: nat -> Option<Error>) {
      IsOrderly(log, inFlight) && accepted == |AcceptedIn(log)| && firstErr == FirstError(fails, FinishedIn(log))
    }
  }

  lemma AdmitIsOrderly(log: seq<Step>, inFlight: set<nat>)
    requires IsOrderly(log, inFlight)
    ensures var c := |AcceptedIn(log)|;
            && IsOrderly(log + [Accepted(c)], inFlight + {c})
            && |AcceptedIn(log + [Accepted(c)])| == c + 1
            && FinishedIn(log + [Accepted(c)]) == FinishedIn(log)
  {
    var c := |AcceptedIn(log)|;
    LogStep(log, Accepted(c));
    assert c !in inFlight && c !in FinishedIn(log);
    assert |inFlight + {c}| == |inFlight| + 1;
    assert FinishedIn(log) + [] == FinishedIn(log);
  }

  /** Takes one client's result out of those in flight. */
  method Reap(fails: nat -> Option<Error>, w: Work, c: nat) returns (next: Work)
    requires w.Valid(fails) && c in w.inFlight
    ensures next.Valid(fails) && next.log == w.log + [Finished(c)] && next.inFlight == w.inFlight - {c}
    ensures next.accepted == w.accepted
    ensures next.firstErr == if w.firstErr.Some? then w.firstErr else fails(c)
  {
    LogStep(w.log, Finished(c));
    next := w.(inFlight := w.inFlight - {c}, log := w.log + [Finished(c)]);
    assert AcceptedIn(next.log) == AcceptedIn(w.log) + [] == AcceptedIn(w.log);
    assert FinishedIn(next.log)[..|FinishedIn(w.log)|] == FinishedIn(w.log);
    if fails(c).Some? && w.firstErr.None? {
      next := next.(firstErr := fails(c));
    }
  }

  method Close(fails: nat -> Option<Error>, w: Work) returns (next: Work)
    requires w.Valid(fails)
    ensures next.Valid(fails) && next == w.(log := w.log + [Closed])
  {
    LogStep(w.log, Closed);
    next := w.(log := w.log + [Closed]);
    assert AcceptedIn(next.log) == AcceptedIn(w.log) + [] == AcceptedIn(w.log);
    assert FinishedIn(next.log) == FinishedIn(w.log) + [] == FinishedIn(w.log);
  }

  ghost predicate EndsWithOnlyClosing(log: seq<Step>) {
    log != [] && log[|log| - 1].Closed? && forall i :: 0 <= i < |log| - 1 ==> !log[i].Closed?
  }

  /** What the accept loop knows after `n` entries. */
  ghost predicate Accepts(schedule: seq<Choice>, fails: nat -> Option<Error>, w: Work, n: nat, cancelled: bool) {
    && w.Valid(fails) && Closed !in w.log && ReadsUntilClosing(schedule, fails, n, true)
    && w.accepted == Connections(schedule, n) && MissesNoEnd(schedule, w.inFlight, 0, n)
    && (cancelled <==> IsStopped(schedule, fails, n)) && (w.firstErr.Some? ==> cancelled)
  }

  /** Accepts clients and reaps them until the loop notices that it was cancelled. */
  method AcceptPhase(schedule: seq<Choice>, fails: nat -> Option<Error>) returns (w: Work, n: nat, open: bool)
    ensures w.Valid(fails) && ReadsUntilClosing(schedule, fails, n, open)
    ensures open ==> n == |schedule| && Closed !in w.log
    ensures !open ==> EndsWithOnlyClosing(w.log)
    ensures w.accepted == Connections(schedule, n) && MissesNoEnd(schedule, w.inFlight, 0, n)
  {
    n := 0;
    var cancelled := false;
    w := Work({}, 0, None, []);
    while n < |schedule|
      invariant Accepts(schedule, fails, w, n, cancelled)
      decreases |schedule| - n
    {
      match schedule[n] {
        case Signal =>
          QuietStep(schedule, fails, w, n, cancelled);
          cancelled := true;
        case Shutdown =>
          if cancelled {
            ClosingEndsTheLoop(schedule, fails, n, w.inFlight);
            w := Close(fails, w);
            return w, n + 1, false;
          }
          QuietStep(schedule, fails, w, n, cancelled);
        case Accept(ok) =>
          if ok {
            w := Admit(schedule, fails, w, n, cancelled);
          } else {
            QuietStep(schedule, fails, w, n, cancelled);
          }
        case Finish(c) =>
          w, cancelled := ReapAndCancel(schedule, fails, w, n, cancelled, c);
      }
      n := n + 1;
    }
    open := true;
  }

  lemma QuietStep(schedule: seq<Choice>, fails: nat -> Option<Error>, w: Work, n: nat, cancelled: bool)
    requires n < |schedule| && Accepts(schedule, fails, w, n, cancelled)
    requires schedule[n].Signal? || (schedule[n].Shutdown? && !cancelled) || schedule[n] == Accept(false)
    ensures Accepts(schedule, fails, w, n + 1, cancelled || schedule[n].Signal?)
  {
    NobodyEndsHere(schedule, fails, w.inFlight, n);
  }

  lemma NobodyEndsHere(schedule: seq<Choice>, fails: nat -> Option<Error>, inFlight: set<nat>, n: nat)
    requires n < |schedule| && !schedule[n].Finish? && !ClosesAt(schedule, fails, n)
    requires ReadsUntilClosing(schedule, fails, n, true) && MissesNoEnd(schedule, inFlight, 0, n)
    ensures ReadsUntilClosing(schedule, fails, n + 1, true) && MissesNoEnd(schedule, inFlight, 0, n + 1)
    ensures IsStopped(schedule, fails, n + 1) <==> IsStopped(schedule, fails, n) || schedule[n].Signal?
  {
    StoppedStep(schedule, fails, n);
  }

  method Admit(schedule: seq<Choice>, fails: nat -> Option<Error>, w: Work, ghost n: nat, ghost cancelled: bool)
    returns (next: Work)
    requires n < |schedule| && schedule[n] == Accept(true) && Accepts(schedule, fails, w, n, cancelled)
    ensures Accepts(schedule, fails, next, n + 1, cancelled)
  {
    AdmitIsOrderly(w.log, w.inFlight);
    NewClientHasNotEnded(schedule, w.inFlight, n);
    NobodyEndsHere(schedule, fails, w.inFlight + {w.accepted}, n);
    next := w.(inFlight := w.inFlight + {w.accepted}, accepted := w.accepted + 1, log := w.log + [Accepted(w.accepted)]);
  }

  /** The first failure cancels the accept loop. */
  method ReapAndCancel(schedule: seq<Choice>, fails: nat -> Option<Error>, w: Work, n: nat, cancelled: bool, c: nat)
    returns (next: Work, stop: bool)
    requires n < |schedule| && schedule[n] == Finish(c) && Accepts(schedule, fails, w, n, cancelled)
    ensures Accepts(schedule, fails, next, n + 1, stop)
  {
    KnowsWhoEnds(fails, w, c);
    EndedClientLeaves(schedule, w.inFlight, n, c);
    StopsWhenOneFails(schedule, fails, n, c);
    next, stop := w, cancelled;
    if c in w.inFlight {
      next := Reap(fails, w, c);
      if next.firstErr.Some? && w.firstErr.None? {
        stop := true;
      }
    } else {
      assert w.inFlight - {c} == w.inFlight;
    }
  }

  lemma EndedClientLeaves(schedule: seq<Choice>, inFlight: set<nat>, n: nat, c: nat)
    requires n < |schedule| && schedule[n] == Finish(c) && MissesNoEnd(schedule, inFlight, 0, n)
    ensures MissesNoEnd(schedule, inFlight - {c}, 0, n + 1)
  {
  }

  lemma StopsWhenOneFails(schedule: seq<Choice>, fails: nat -> Option<Error>, n: nat, c: nat)
    requires n < |schedule| && schedule[n] == Finish(c) && ReadsUntilClosing(schedule, fails, n, true)
    ensures IsStopped(schedule, fails, n + 1) <==> IsStopped(schedule, fails, n) || (c < Connections(schedule, n) && fails(c).Some?)
    ensures ReadsUntilClosing(schedule, fails, n + 1, true)
  {
    StoppedStep(schedule, fails, n);
  }

  lemma ClosingEndsTheLoop(schedule: seq<Choice>, fails: nat -> Option<Error>, n: nat, inFlight: set<nat>)
    requires ReadsUntilClosing(schedule, fails, n, true) && ClosesAt(schedule, fails, n) && MissesNoEnd(schedule, inFlight, 0, n)
    ensures ReadsUntilClosing(schedule, fails, n + 1, false) && MissesNoEnd(schedule, inFlight, 0, n + 1)
    ensures Connections(schedule, n + 1) == Connections(schedule, n)
  {
  }

  lemma StoppedStep(schedule: seq<Choice>, fails: nat -> Option<Error>, n: nat)
    ensures IsStopped(schedule, fails, n + 1) <==> IsStopped(schedule, fails, n) || StopsAt(schedule, fails, n)
  {
  }

  /** Whoever ended before is among the finished, so its failure is known. */
  lemma KnowsWhoEnds(fails: nat -> Option<Error>, w: Work, c: nat)
    requires w.Valid(fails)
    ensures c < w.accepted && c !in w.inFlight && fails(c).Some? ==> w.firstErr.Some?
    ensures c in w.inFlight ==> c < w.accepted
  {
  }

  lemma NewClientHasNotEnded(schedule: seq<Choice>, inFlight: set<nat>, n: nat)
    requires n < |schedule| && MissesNoEnd(schedule, inFlight, 0, n)
    ensures MissesNoEnd(schedule, inFlight + {Connections(schedule, n)}, 0, n)
  {
    forall i: nat | i < n
      ensures !EndsAt(schedule, Connections(schedule, n), i)
    {
      ConnectionsGrow(schedule, i, n);
    }
  }

  /** Since the loop closed, clients only finished. */
  ghost predicate OnlyFinishes(closed: Work, w: Work) {
    && closed.log <= w.log && w.inFlight <= closed.inFlight
    && forall j :: |closed.log| <= j < |w.log| ==> w.log[j].Finished?
  }

  /** None of those in flight ends in the entries from `start` to `n`. */
  ghost predicate NobodyLeftEnds(schedule: seq<Choice>, inFlight: set<nat>, start: nat, n: nat) {
    forall i: nat :: start <= i < n && i < |schedule| && schedule[i].Finish? ==> schedule[i].client !in inFlight
  }

  method ReapIfReady(fails: nat -> Option<Error>, ghost closed: Work, w: Work, schedule: seq<Choice>, ghost start: nat, n: nat)
    returns (next: Work)
    requires n < |schedule| && w.Valid(fails) && OnlyFinishes(closed, w) && NobodyLeftEnds(schedule, w.inFlight, start, n)
    ensures next.Valid(fails) && OnlyFinishes(closed, next) && NobodyLeftEnds(schedule, next.inFlight, start, n + 1)
  {
    next := w;
    if schedule[n].Finish? && schedule[n].client in w.inFlight {
      next := Reap(fails, w, schedule[n].client);
    }
  }

  /** Reaps what is in flight, from entry `start` of the schedule on; nobody is accepted any more. */
  method DrainPhase(schedule: seq<Choice>, fails: nat -> Option<Error>, start: nat, closed: Work) returns (w: Work)
    requires closed.Valid(fails)
    ensures w.Valid(fails) && OnlyFinishes(closed, w)
    ensures NobodyLeftEnds(schedule, w.inFlight, start, |schedule|)
  {
    w := closed;
    var n := start;
    while w.inFlight != {} && n < |schedule|
      invariant w.Valid(fails) && OnlyFinishes(closed, w)
      invariant NobodyLeftEnds(schedule, w.inFlight, start, n)
      decreases |schedule| - n
    {
      w := ReapIfReady(fails, closed, w, schedule, start, n);
      n := n + 1;
    }
  }

  lemma ClosedOnce(before: seq<Step>, after: seq<Step>)
    requires before <= after && EndsWithOnlyClosing(before)
    requires forall j :: |before| <= j < |after| ==> after[j].Finished?
    ensures NothingAcceptedAfterClosing(after) && Closed in after
  {
    assert after[|before| - 1] == Closed;
  }

  /** A drained server has finished everyone it accepted. */
  lemma DrainedMeansAllFinished(fails: nat -> Option<Error>, log: seq<Step>)
    requires IsOrderly(log, {})
    ensures FirstError(fails, FinishedIn(log)).None? <==> forall c :: 0 <= c < |AcceptedIn(log)| ==> fails(c).None?
  {
    var finished := FinishedIn(log);
    if FirstError(fails, finished).None? {
      forall c | 0 <= c < |AcceptedIn(log)|
        ensures fails(c).None?
      {
        assert c in finished;
      }
    } else {
      var i :| 0 <= i < |finished| && IsFirstFailure(fails, finished, i);
      assert finished[i] in finished;
    }
  }

  /**
   * Runs the driver along a schedule. `result` is nothing while it is still at work; afterwards it
   * is the first error in completion order, or the handler, given back as `()`. The accept loop read
   * `n` entries, and everyone who connected meanwhile was accepted; a client is in flight only if
   * the schedule does not end it.
   */
  method Run(schedule: seq<Choice>, fails: nat -> Option<Error>)
    returns (result: Option<Result<(), Error>>, inFlight: set<nat>, log: seq<Step>, n: nat, open: bool)
    ensures IsOrderly(log, inFlight) && NothingAcceptedAfterClosing(log)
    ensures ReadsUntilClosing(schedule, fails, n, open) && (open <==> Closed !in log) && (open ==> n == |schedule|)
    ensures |AcceptedIn(log)| == Connections(schedule, n)
    ensures MissesNoEnd(schedule, inFlight, 0, |schedule|)
    ensures result.Some? <==> !open && inFlight == {}
    ensures result.Some? ==>
              result.value == match FirstError(fails, FinishedIn(log))
                              case None => Ok(())
                              case Some(e) => Err(e)
    ensures result.Some? ==> (result.value.Ok? <==> forall c :: 0 <= c < |AcceptedIn(log)| ==> fails(c).None?)
  {
    var w;
    w, n, open := AcceptPhase(schedule, fails);
    if open {
      return None, w.inFlight, w.log, n, open;
    }
    ghost var closed := w;
    w := DrainPhase(schedule, fails, n, w);
    ClosedOnce(closed.log, w.log);
    inFlight, log := w.inFlight, w.log;
    DrainAcceptsNobody(closed.log, log);
    if inFlight != {} {
      return None, inFlight, log, n, open;
    }
    DrainedMeansAllFinished(fails, log);
    result := if w.firstErr.None? then Some(Ok(())) else Some(Err(w.firstErr.value));
  }

  lemma {:induction false} DrainAcceptsNobody(before: seq<Step>, after: seq<Step>)
    requires before <= after && forall j :: |before| <= j < |after| ==> after[j].Finished?
    ensures AcceptedIn(after) == AcceptedIn(before)
    decreases |after|
  {
    if |before| < |after| {
      DrainAcceptsNobody(before, after[..|after| - 1]);
    } else {
      assert after == before;
    }
  }
}
