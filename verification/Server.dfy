/** The server as a whole: any number of client streams feed one handler, which the driver gives back when all have ended. */
module Server {
  import opened Wrappers
  import Driver
  import Framing
  import Recorder

  type Request = Framing.Request

  /** The streams of the accepted clients, and the requests the handler was given, in the order it took them. */
  datatype System = System(streams: seq<Framing.State>, taken: seq<Request>)

  /** A step of one client or of the task that serves it. Tasks run on one thread, so steps are not divided. */
  datatype Event = Event(c: nat, action: Framing.Action)

  function Start(k: nat): System {
    System(seq(k, _ => Framing.Initial()), [])
  }

  predicate Enabled(p: Framing.Protocol, s: System, e: Event) {
    e.c < |s.streams| && Framing.Enabled(p, s.streams[e.c], e.action)
  }

  /** What a step newly processes is given to the handler. */
  function Next(p: Framing.Protocol, s: System, e: Event): System
    requires Enabled(p, s, e)
  {
    var before := s.streams[e.c];
    var after := Framing.Next(p, before, e.action);
    System(s.streams[e.c := after],
           if |before.processed| < |after.processed| then s.taken + after.processed[|before.processed|..] else s.taken)
  }

  predicate IsRun(p: Framing.Protocol, s: System, events: seq<Event>)
    decreases |events|
  {
    events == [] || (Enabled(p, s, events[0]) && IsRun(p, Next(p, s, events[0]), events[1..]))
  }

  function After(p: Framing.Protocol, s: System, events: seq<Event>): System
    requires IsRun(p, s, events)
    decreases |events|
  {
    if events == [] then s else After(p, Next(p, s, events[0]), events[1..])
  }

  function ProcessedOf(streams: seq<Framing.State>): (processed: seq<seq<Request>>)
    ensures |processed| == |streams| && forall c :: 0 <= c < |streams| ==> processed[c] == streams[c].processed
  {
    seq(|streams|, c requires 0 <= c < |streams| => streams[c].processed)
  }

  /** The requests that left each client whole. */
  function IssuedOf(streams: seq<Framing.State>): (issued: seq<seq<Request>>)
    ensures |issued| == |streams| && forall c :: 0 <= c < |streams| ==> issued[c] == streams[c].issued
  {
    seq(|streams|, c requires 0 <= c < |streams| => streams[c].issued)
  }

  // ---------------------------------------------------------------- the handler takes a merge

  ghost predicate Invariant(p: Framing.Protocol, s: System) {
    && (forall c :: 0 <= c < |s.streams| ==> Framing.Invariant(p, s.streams[c]))
    && Recorder.IsMerge(ProcessedOf(s.streams), s.taken)
  }

  /** One more request of one client, taken last. */
  lemma {:induction false} MergeMore(clients: seq<seq<Request>>, merged: seq<Request>, c: nat, r: Request)
    requires c < |clients| && Recorder.IsMerge(clients, merged)
    ensures Recorder.IsMerge(clients[c := clients[c] + [r]], merged + [r])
    decreases |merged|
  {
    var more, longer := clients[c := clients[c] + [r]], merged + [r];
    if merged == [] {
      assert Recorder.IsMergeStep(more, c, r);
      assert more[c := more[c][1..]] == clients && longer[1..] == [];
    } else {
      var i: nat :| Recorder.IsMergeStep(clients, i, merged[0]) && Recorder.IsMerge(clients[i := clients[i][1..]], merged[1..]);
      var rest := clients[i := clients[i][1..]];
      MergeMore(rest, merged[1..], c, r);
      assert Recorder.IsMergeStep(more, i, longer[0]);
      assert (clients[i] + [r])[1..] == clients[i][1..] + [r];
      assert more[i := more[i][1..]] == rest[c := rest[c] + [r]];
      assert longer[1..] == merged[1..] + [r];
    }
  }

  /** A step processes one request at most, and only by serving. */
  lemma ProcessesOne(p: Framing.Protocol, before: Framing.State, action: Framing.Action)
    requires Framing.Enabled(p, before, action)
    ensures var after := Framing.Next(p, before, action);
            after.processed == before.processed || exists r :: after.processed == before.processed + [r]
  {
  }

  lemma StepKeepsInvariant(p: Framing.Protocol, s: System, e: Event)
    requires p.Valid() && Invariant(p, s) && Enabled(p, s, e)
    ensures Invariant(p, Next(p, s, e))
  {
    var before, next := s.streams[e.c], Next(p, s, e);
    var after := next.streams[e.c];
    Framing.StepKeepsInvariant(p, before, e.action);
    ProcessesOne(p, before, e.action);
    if after.processed == before.processed {
      assert ProcessedOf(next.streams) == ProcessedOf(s.streams);
    } else {
      var r :| after.processed == before.processed + [r];
      MergeMore(ProcessedOf(s.streams), s.taken, e.c, r);
      assert ProcessedOf(next.streams) == ProcessedOf(s.streams)[e.c := before.processed + [r]];
      assert after.processed[|before.processed|..] == [r];
    }
  }

  lemma StartIsSound(p: Framing.Protocol, k: nat)
    ensures Invariant(p, Start(k))
  {
  }

  lemma {:induction false} RunKeepsInvariant(p: Framing.Protocol, s: System, events: seq<Event>)
    requires p.Valid() && Invariant(p, s) && IsRun(p, s, events)
    ensures Invariant(p, After(p, s, events))
    decreases |events|
  {
    if events != [] {
      StepKeepsInvariant(p, s, events[0]);
      RunKeepsInvariant(p, Next(p, s, events[0]), events[1..]);
    }
  }

  // ---------------------------------------------------------------- the whole server

  /** The protocol refuses exactly the requests the recorder refuses. */
  ghost predicate Serves(p: Framing.Protocol, w: Recorder.World) {
    p.Valid() && forall r :: p.accepts(r) <==> Recorder.IsAnswerable(w, r)
  }

  /** The task of every client has ended: with an error exactly if its stream failed. */
  ghost predicate ResolveAs(streams: seq<Framing.State>, fails: nat -> Option<Driver.Error>) {
    forall c :: 0 <= c < |streams| ==>
      if fails(c).Some? then streams[c].server.Failed? else streams[c].server.Ended?
  }

  ghost function WholeRequests(s: System): (requests: set<Request>)
    ensures forall r :: r in requests <==> Recorder.IsRequested(IssuedOf(s.streams), r)
  {
    set c, r | 0 <= c < |s.streams| && r in s.streams[c].issued :: r
  }

  /** A drained driver whose log accepted these clients. */
  ghost predicate IsDrained(log: seq<Driver.Step>, s: System) {
    Driver.IsOrderly(log, {}) && |Driver.AcceptedIn(log)| == |s.streams|
  }

  /**
   * However the steps of the clients interleave, wherever each of them died and in whatever order the
   * driver saw them end: the handler comes back exactly if every whole request of every client is well
   * formed as far as the server got, and it then was given the whole requests of all clients, each
   * client's in order, and reports exactly those.
   */
  lemma ReturnedHandlerHasEveryRequest(p: Framing.Protocol, w: Recorder.World, k: nat, events: seq<Event>,
                                       fails: nat -> Option<Driver.Error>, log: seq<Driver.Step>, reports: Recorder.Reports)
    requires Serves(p, w) && IsRun(p, Start(k), events)
    requires var end := After(p, Start(k), events); ResolveAs(end.streams, fails) && IsDrained(log, end)
    ensures var end := After(p, Start(k), events);
            var handed := Driver.FirstError(fails, Driver.FinishedIn(log)).None?;
            && (handed <==> forall r :: r in WholeRequests(end) ==> Recorder.IsAnswerable(w, r))
            && (handed ==> Recorder.IsMerge(IssuedOf(end.streams), end.taken))
            && (handed && Recorder.IsServedAs(w, end.taken, reports) ==> Recorder.IsReportOf(w, WholeRequests(end), reports))
  {
    var end := After(p, Start(k), events);
    StartIsSound(p, k);
    RunKeepsInvariant(p, Start(k), events);
    Driver.DrainedMeansAllFinished(fails, log);
    if Driver.FirstError(fails, Driver.FinishedIn(log)).None? {
      AllAreHanded(p, w, end, fails);
      if Recorder.IsServedAs(w, end.taken, reports) {
        assert Recorder.Taken(end.taken) == WholeRequests(end) by { HandedAreWhole(end); }
      }
    } else {
      SomeoneFailed(p, w, end, fails);
    }
  }

  lemma AllAreHanded(p: Framing.Protocol, w: Recorder.World, end: System, fails: nat -> Option<Driver.Error>)
    requires Serves(p, w) && Invariant(p, end) && ResolveAs(end.streams, fails)
    requires forall c :: 0 <= c < |end.streams| ==> fails(c).None?
    ensures Recorder.IsMerge(IssuedOf(end.streams), end.taken)
    ensures forall r :: r in WholeRequests(end) ==> Recorder.IsAnswerable(w, r)
  {
    forall c | 0 <= c < |end.streams| ensures end.streams[c].processed == end.streams[c].issued {
      assert Framing.Invariant(p, end.streams[c]);
    }
    assert ProcessedOf(end.streams) == IssuedOf(end.streams);
    forall r | r in WholeRequests(end) ensures Recorder.IsAnswerable(w, r) {
      var c :| 0 <= c < |end.streams| && r in IssuedOf(end.streams)[c];
      assert Framing.Invariant(p, end.streams[c]);
    }
  }

  lemma HandedAreWhole(end: System)
    requires Recorder.IsMerge(IssuedOf(end.streams), end.taken)
    ensures Recorder.Taken(end.taken) == WholeRequests(end)
  {
    forall r ensures r in end.taken <==> r in WholeRequests(end) {
      Recorder.MergeKeepsRequests(IssuedOf(end.streams), end.taken, r);
    }
  }

  lemma SomeoneFailed(p: Framing.Protocol, w: Recorder.World, end: System, fails: nat -> Option<Driver.Error>)
    requires Serves(p, w) && Invariant(p, end) && ResolveAs(end.streams, fails)
    requires exists c :: 0 <= c < |end.streams| && fails(c).Some?
    ensures exists r :: r in WholeRequests(end) && !Recorder.IsAnswerable(w, r)
  {
    var c :| 0 <= c < |end.streams| && fails(c).Some?;
    var stream := end.streams[c];
    assert Framing.Invariant(p, stream);
    var r := stream.issued[|stream.processed|];
    assert r in IssuedOf(end.streams)[c];
    assert r in WholeRequests(end) && !Recorder.IsAnswerable(w, r);
  }

  /** What a client got out is its whole requests and at most a torn one. */
  lemma BytesAreWholeRequests(p: Framing.Protocol, k: nat, events: seq<Event>, c: nat)
    requires p.Valid() && IsRun(p, Start(k), events) && c < |After(p, Start(k), events).streams|
    ensures var stream := After(p, Start(k), events).streams[c];
            && Framing.AreSendable(p, stream.issued)
            && Framing.Frames(p, stream.issued) <= stream.sent
            && (stream.sent == Framing.Frames(p, stream.issued) || (Framing.IsPending(p, stream) && |stream.sent| <
                  |Framing.Frames(p, stream.issued)| + |Framing.Frame(p, stream.pending.value)|))
  {
    StartIsSound(p, k);
    RunKeepsInvariant(p, Start(k), events);
    var stream := After(p, Start(k), events).streams[c];
    assert Framing.Invariant(p, stream);
  }

  /** The driver has given the handler back, and these are its reports. */
  ghost predicate HasReturned(w: Recorder.World, end: System, fails: nat -> Option<Driver.Error>, log: seq<Driver.Step>, reports: Recorder.Reports) {
    && ResolveAs(end.streams, fails) && IsDrained(log, end) && Driver.FirstError(fails, Driver.FinishedIn(log)).None?
    && Recorder.IsServedAs(w, end.taken, reports)
  }

  /** Two runs whose clients got the same requests out report the same, but for the spelling of names. */
  lemma RunsAgree(p: Framing.Protocol, w: Recorder.World, k: nat, l: nat, events: seq<Event>, others: seq<Event>,
                  fails: nat -> Option<Driver.Error>, log: seq<Driver.Step>, a: Recorder.Reports,
                  fails': nat -> Option<Driver.Error>, log': seq<Driver.Step>, b: Recorder.Reports)
    requires Serves(p, w) && IsRun(p, Start(k), events) && IsRun(p, Start(l), others)
    requires HasReturned(w, After(p, Start(k), events), fails, log, a)
    requires HasReturned(w, After(p, Start(l), others), fails', log', b)
    requires WholeRequests(After(p, Start(k), events)) == WholeRequests(After(p, Start(l), others))
    ensures Recorder.Agree(a, b) && (w.rule.CaseSensitive? ==> a == b)
  {
    ReturnedHandlerHasEveryRequest(p, w, k, events, fails, log, a);
    ReturnedHandlerHasEveryRequest(p, w, l, others, fails', log', b);
    Recorder.RequestsDetermineReports(w, WholeRequests(After(p, Start(k), events)), a, b);
  }
}
