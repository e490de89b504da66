/** The handshake while the server listens: nobody is refused, and whoever is served connects. */
module LiveHandshake {
  import opened Wrappers
  import opened Handshake

  /** The server listens, and its directory is there. */
  predicate IsUp(s: State) {
    s.listening && !s.dirRemoved
  }

  /** Neither the server nor a client that is announcing itself has a read end of the rendezvous. */
  ghost predicate NobodyReads(s: State) {
    !s.listening && forall d: nat :: d < |s.clients| ==> !s.clients[d].fds.announce
  }

  // ---------------------------------------------------------------- who is refused

  /**
   * Exactly when a call reports the server as gone: the first open finds nobody reading, a poll
   * without news reports the error of a rendezvous that nobody reads, or a probe finds nobody reading
   * or no directory. A server that is merely slow is none of these.
   */
  lemma RefusedExactlyWithoutServer(s: State, c: nat, id: Id, reports: bool)
    requires Reachable(s) && Enabled(s, ClientCall(c, id, reports))
    ensures Next(s, ClientCall(c, id, reports)).clients[c].place == Failed(ServerGone) <==>
            match s.clients[c].place
            case Starting => !s.dirRemoved && NobodyReads(s)
            case Waiting => s.clients[c].id !in s.readied && reports && NobodyReads(s)
            case Probing => s.dirRemoved || NobodyReads(s)
            case _ => false
  {
    ReachableStatesAreSound(s);
    OwnCallMoves(s, c, id, reports);
    CallRefuses(s, c, id, reports);
  }

  lemma OwnCallMoves(s: State, c: nat, id: Id, reports: bool)
    requires Enabled(s, ClientCall(c, id, reports))
    ensures Next(s, ClientCall(c, id, reports)).clients == s.clients[c := CallOutcome(s, s.clients[c], id, reports).client]
  {
  }

  lemma CallRefuses(s: State, c: nat, id: Id, reports: bool)
    requires Invariant(s) && Enabled(s, ClientCall(c, id, reports))
    ensures CallOutcome(s, s.clients[c], id, reports).client.place == Failed(ServerGone) <==>
            match s.clients[c].place
            case Starting => !s.dirRemoved && NobodyReads(s)
            case Waiting => s.clients[c].id !in s.readied && reports && NobodyReads(s)
            case Probing => s.dirRemoved || NobodyReads(s)
            case _ => false
  {
    BufferedExactlyIfReadied(s, c);
    assert s.HasReader(Connect) <==> !NobodyReads(s);
  }

  lemma BufferedExactlyIfReadied(s: State, c: nat)
    requires Invariant(s) && c < |s.clients|
    ensures 7 <= Progress(s.clients[c].place) <= 10 ==>
              s.Buffered(s.clients[c].id) == if s.clients[c].id in s.readied then [READY] else []
  {
    assert ClientTalksTruly(s, s.clients[c]);
  }

  /** Nobody else's action refuses a client. */
  lemma OnlyOwnCallsRefuse(s: State, a: Action, c: nat)
    requires Enabled(s, a) && c < |s.clients| && s.clients[c].place != Failed(ServerGone)
    requires c < |Next(s, a).clients| && Next(s, a).clients[c].place == Failed(ServerGone)
    ensures IsOwnCall(a, c)
  {
    if IsClientAction(a) {
      if a.c != c {
        OthersStay(s, a, c);
      }
    } else {
      ServerLeavesNames(s, a);
    }
  }

  /** Exactly when a call fails for another reason: the directory is gone, or the name drawn is taken. */
  lemma FailsExactlyWithoutDirectory(s: State, c: nat, drawn: Id, reports: bool)
    requires Reachable(s) && Enabled(s, ClientCall(c, drawn, reports))
    ensures Next(s, ClientCall(c, drawn, reports)).clients[c].place == Failed(Other) <==>
            match s.clients[c].place
            case Starting => s.dirRemoved
            case Watching => s.dirRemoved || Request(drawn) in s.paths
            case place => 2 <= Progress(place) <= 5 && s.dirRemoved
  {
    ReachableStatesAreSound(s);
    OwnCallMoves(s, c, drawn, reports);
    assert OwnsItsName(s, c) && ClientTalksTruly(s, s.clients[c]);
  }

  /**
   * Nothing above is owed to an environment that is too kind: a client that is connecting may fail or
   * die at any time and can always go on, a connected one may die, have its connection closed or send,
   * and the server may die whatever it is doing.
   */
  lemma AnybodyMayFail(s: State, c: nat, id: Id, reports: bool)
    requires Reachable(s) && c < |s.clients| && IsLive(s.clients[c].place)
    ensures Enabled(s, ClientDies(c)) && (!s.server.Dead? ==> Enabled(s, ServerDies))
    ensures !s.clients[c].place.Connected? ==> Enabled(s, ClientFails(c)) && Enabled(s, ClientCall(c, id, reports))
    ensures s.clients[c].place.Connected? ==>
              Enabled(s, ClientSend(c)) && (!s.server.Dead? ==> Enabled(s, CloseConnection(s.clients[c].id)))
    ensures s.server.Reading? ==> Enabled(s, RemoveDirectory) && Enabled(s, CancelAccept)
  {
    ReachableStatesAreSound(s);
    assert ClientTalksTruly(s, s.clients[c]);
  }

  /** While they are there, neither the server's read of announcements nor that of a client's requests meets an end of file. */
  lemma ReadsNeverEnd(s: State, c: nat)
    requires Reachable(s) && c < |s.clients|
    ensures !IsGone(s) ==> s.HasWriter(Connect)
    ensures 1 <= Progress(s.clients[c].place) <= 9 ==> s.HasWriter(Connect)
    ensures 4 <= Progress(s.clients[c].place) <= 11 ==> s.HasWriter(Request(s.clients[c].id))
  {
    ReachableStatesAreSound(s);
    assert HoldsItsFds(s.clients[c]);
  }

  // ---------------------------------------------------------------- one call

  /** While the server is up, each call on the way to the announcement succeeds, if the name drawn is new. */
  lemma CallGoesOn(s: State, c: nat, drawn: Id, reports: bool)
    requires Invariant(s) && IsUp(s) && c < |s.clients| && Progress(s.clients[c].place) <= 7
    requires s.clients[c].place.Watching? ==> Request(drawn) !in s.paths
    ensures Enabled(s, ClientCall(c, drawn, reports))
    ensures var next := Next(s, ClientCall(c, drawn, reports));
            && Progress(next.clients[c].place) == Progress(s.clients[c].place) + 1
            && next.clients[c].id == (if s.clients[c].place.Watching? then drawn else s.clients[c].id)
            && next.queue == if s.clients[c].place.Announcing? then s.queue + [s.clients[c].id] else s.queue
  {
    assert OwnsItsName(s, c);
    assert s.HasReader(Connect) && s.Exists(Connect);
  }

  /** Then it polls, probes and polls again until the ready byte is there, takes it and is connected. */
  lemma WaitingCallGoesOn(s: State, c: nat, id: Id, reports: bool)
    requires Invariant(s) && IsUp(s) && c < |s.clients| && 8 <= Progress(s.clients[c].place) <= 10
    ensures Enabled(s, ClientCall(c, id, reports))
    ensures var next := Next(s, ClientCall(c, id, reports));
            && next.clients[c].place == (match s.clients[c].place
                                         case Waiting => if s.clients[c].id in s.readied then Polled else Probing
                                         case Probing => Waiting
                                         case _ => Connected)
            && next.clients[c].id == s.clients[c].id && next.queue == s.queue
  {
    BufferedExactlyIfReadied(s, c);
    assert ClientTalksTruly(s, s.clients[c]);
    assert s.HasReader(Connect) && s.Exists(Connect);
  }

  /** The server gets on with a client that is alive: both opens find what they need, and so does the write. */
  lemma ServerGetsOn(s: State, c: nat)
    requires Invariant(s) && IsUp(s) && c < |s.clients| && 7 <= Progress(s.clients[c].place) <= 11
    requires ServedId(s.server) == Some(s.clients[c].id)
    ensures var id, next := s.clients[c].id, ServerNext(s, true);
            match s.server
            case HasId(_) => next.server == HasRequest(id)
            case HasRequest(_) => next.server == HasPair(id)
            case _ => next.server == Reading([]) && id in next.readied && next.Buffered(id) == [READY]
  {
    assert OwnsItsName(s, c) && HoldsItsFds(s.clients[c]);
    assert s.Exists(Request(s.clients[c].id)) && s.Exists(Response(s.clients[c].id)) && s.HasReader(Response(s.clients[c].id));
  }

  // ---------------------------------------------------------------- one step of anybody

  lemma StaysUp(s: State, a: Action)
    requires Enabled(s, a) && IsUp(Next(s, a))
    ensures IsUp(s)
  {
    if IsClientAction(a) {
      assert Next(s, a).listening == s.listening && Next(s, a).dirRemoved == s.dirRemoved;
    }
  }

  function Min(a: nat, b: nat): nat {
    if a <= b then a else b
  }

  /** A client that has drawn its name gets on by its own calls and is not thrown back by anybody. */
  ghost predicate GetsOn(s: State, own: nat, next: State, c: nat)
    requires c < |s.clients|
  {
    && c < |next.clients| && next.clients[c].id == s.clients[c].id
    && Min(8, Progress(s.clients[c].place) + own) <= Progress(next.clients[c].place) <= 11
  }

  lemma StepGetsOn(s: State, a: Action, c: nat)
    requires Invariant(s) && Enabled(s, a) && IsUp(Next(s, a)) && Spares(a, c)
    requires c < |s.clients| && 2 <= Progress(s.clients[c].place) <= 11
    ensures GetsOn(s, if IsOwnCall(a, c) then 1 else 0, Next(s, a), c)
  {
    StaysUp(s, a);
    if !IsClientAction(a) {
      ServerLeavesNames(s, a);
    } else if a.c != c {
      OthersStay(s, a, c);
    } else if a.ClientCall? {
      if Progress(s.clients[c].place) <= 7 {
        CallGoesOn(s, c, a.id, a.pollReportsError);
      } else {
        WaitingCallGoesOn(s, c, a.id, a.pollReportsError);
      }
    } else {
      ClientWritesHaveAReader(s, c);
    }
  }

  lemma {:induction false} RunGetsOn(s: State, actions: seq<Action>, c: nat)
    requires Invariant(s) && IsRun(s, actions) && IsUp(After(s, actions)) && AllSpare(actions, c)
    requires c < |s.clients| && 2 <= Progress(s.clients[c].place) <= 11
    ensures IsUp(s) && GetsOn(s, OwnCalls(actions, c), After(s, actions), c)
    decreases |actions|
  {
    if actions != [] {
      var next := Next(s, actions[0]);
      assert actions[0] in actions && AllSpare(actions[1..], c);
      RunStaysUp(next, actions[1..]);
      StaysUp(s, actions[0]);
      StepGetsOn(s, actions[0], c);
      InvariantStays(s, actions[0]);
      RunGetsOn(next, actions[1..], c);
    }
  }

  lemma {:induction false} RunStaysUp(s: State, actions: seq<Action>)
    requires IsRun(s, actions) && IsUp(After(s, actions))
    ensures IsUp(s)
    decreases |actions|
  {
    if actions != [] {
      RunStaysUp(Next(s, actions[0]), actions[1..]);
      StaysUp(s, actions[0]);
    }
  }

  /**
   * A client that does not die is never refused by a server that stays up, however slow it is, and
   * announces itself and comes to wait by eight calls of its own.
   */
  lemma UpServerRefusesNobody(s: State, actions: seq<Action>, c: nat)
    requires Reachable(s) && IsRun(s, actions) && IsUp(After(s, actions)) && AllSpare(actions, c)
    requires c < |s.clients| && 2 <= Progress(s.clients[c].place) <= 11
    ensures var after := After(s, actions);
            && c < |after.clients| && IsLive(after.clients[c].place)
            && (OwnCalls(actions, c) >= 6 ==> Progress(after.clients[c].place) >= 8)
  {
    ReachableStatesAreSound(s);
    RunGetsOn(s, actions, c);
  }

  // ---------------------------------------------------------------- being served

  /** The announcement is unread, being served, or has been answered: the server has not skipped it. */
  ghost predicate IsExpected(s: State, id: Id) {
    id in s.readied || ServedId(s.server) == Some(id) || id in s.queue
  }

  ghost function IndexIn(ids: seq<Id>, id: Id): nat
    requires id in ids
  {
    if ids[0] == id then 0 else 1 + IndexIn(ids[1..], id)
  }

  lemma {:induction false} IndexStays(ids: seq<Id>, id: Id, more: Id)
    requires id in ids
    ensures IndexIn(ids + [more], id) == IndexIn(ids, id)
  {
    assert (ids + [more])[1..] == ids[1..] + [more];
    if ids[0] != id {
      IndexStays(ids[1..], id, more);
    }
  }

  /** How many calls of the server it takes at most until the announced `id` has its ready byte. */
  ghost function CallsToServe(s: State, id: Id): nat
    requires IsExpected(s, id)
  {
    if id in s.readied then 0
    else if ServedId(s.server) == Some(id) then ServerStepsLeft(s.server)
    else ServerStepsLeft(s.server) + 4 * IndexIn(s.queue, id) + 4
  }

  /** No call of the server for this announcement fails for a reason of its own. */
  predicate ServesWell(s: State, a: Action, id: Id) {
    a.ServerCall? && ServedId(s.server) == Some(id) ==> a.succeeds
  }

  ghost predicate IsCloser(s: State, calls: nat, next: State, id: Id)
    requires IsExpected(s, id)
  {
    && IsExpected(next, id)
    && (id in s.readied ==> id in next.readied)
    && (id !in next.readied ==> CallsToServe(next, id) + calls <= CallsToServe(s, id))
  }

  lemma ReadBringsCloser(s: State, succeeds: bool, id: Id)
    requires Invariant(s) && s.server.Reading? && s.rendezvous != [] && IsExpected(s, id)
    ensures IsCloser(s, 1, ServerNext(s, succeeds), id)
  {
    ReadTakesOneAnnouncement(s, succeeds);
    assert s.queue == [s.queue[0]] + s.queue[1..];
  }

  lemma OtherReplyBringsCloser(s: State, succeeds: bool, id: Id)
    requires Invariant(s) && IsUp(s) && !s.server.Reading? && !IsGone(s) && !s.server.Dropping?
    requires IsExpected(s, id) && ServedId(s.server) != Some(id)
    ensures IsCloser(s, 1, ServerNext(s, succeeds), id)
  {
    ReplyLeavesQueue(s, succeeds);
    ReplyStepsOn(s, succeeds);
  }

  lemma ReplyStepsOn(s: State, succeeds: bool)
    requires ServedId(s.server).Some?
    ensures var next := ServerNext(s, succeeds);
            && ServerStepsLeft(next.server) < ServerStepsLeft(s.server)
            && (ServedId(next.server).None? || ServedId(next.server) == ServedId(s.server))
            && s.readied <= next.readied
  {
  }

  lemma OwnReplyBringsCloser(s: State, c: nat)
    requires Invariant(s) && IsUp(s) && c < |s.clients| && 7 <= Progress(s.clients[c].place) <= 11
    requires ServedId(s.server) == Some(s.clients[c].id)
    ensures IsCloser(s, 1, ServerNext(s, true), s.clients[c].id)
  {
    ServerGetsOn(s, c);
    ReplyStepsOn(s, true);
    assert s.clients[c].id !in s.readied;
  }

  lemma ServerBringsCloser(s: State, succeeds: bool, c: nat)
    requires Invariant(s) && Enabled(s, ServerCall(succeeds)) && IsUp(ServerNext(s, succeeds))
    requires c < |s.clients| && 7 <= Progress(s.clients[c].place) <= 11
    requires IsExpected(s, s.clients[c].id) && ServesWell(s, ServerCall(succeeds), s.clients[c].id)
    ensures IsCloser(s, 1, ServerNext(s, succeeds), s.clients[c].id)
  {
    StaysUp(s, ServerCall(succeeds));
    if s.server.Reading? {
      ReadBringsCloser(s, succeeds, s.clients[c].id);
    } else if ServedId(s.server) == Some(s.clients[c].id) {
      OwnReplyBringsCloser(s, c);
    } else {
      OtherReplyBringsCloser(s, succeeds, s.clients[c].id);
    }
  }

  lemma ClientsLeaveQueue(s: State, a: Action, id: Id)
    requires Enabled(s, a) && IsClientAction(a) && IsExpected(s, id)
    ensures IsCloser(s, 0, Next(s, a), id)
  {
    var outcome := OutcomeOf(s, a);
    if outcome.effect.Announces? && id in s.queue {
      IndexStays(s.queue, id, outcome.effect.id);
    }
  }

  lemma StepBringsCloser(s: State, a: Action, c: nat)
    requires Invariant(s) && Enabled(s, a) && IsUp(Next(s, a))
    requires c < |s.clients| && 7 <= Progress(s.clients[c].place) <= 11
    requires IsExpected(s, s.clients[c].id) && ServesWell(s, a, s.clients[c].id)
    ensures IsCloser(s, if a.ServerCall? then 1 else 0, Next(s, a), s.clients[c].id)
  {
    StaysUp(s, a);
    if a.ServerCall? {
      ServerBringsCloser(s, a.succeeds, c);
    } else if IsClientAction(a) {
      ClientsLeaveQueue(s, a, s.clients[c].id);
    }
  }

  function ServerCalls(actions: seq<Action>): nat {
    if actions == [] then 0 else (if actions[0].ServerCall? then 1 else 0) + ServerCalls(actions[1..])
  }

  ghost predicate AllServeWell(s: State, actions: seq<Action>, id: Id)
    requires IsRun(s, actions)
    decreases |actions|
  {
    actions == [] || (ServesWell(s, actions[0], id) && AllServeWell(Next(s, actions[0]), actions[1..], id))
  }

  /**
   * An announcement that the server has not skipped gets its ready byte within four calls of the server
   * for it and for each one before it, whatever the other clients do, if those for it do not fail.
   */
  lemma {:induction false} AnnouncedIsServed(s: State, actions: seq<Action>, c: nat)
    requires Invariant(s) && IsRun(s, actions) && IsUp(After(s, actions)) && AllSpare(actions, c)
    requires c < |s.clients| && 7 <= Progress(s.clients[c].place) <= 11 && IsExpected(s, s.clients[c].id)
    requires AllServeWell(s, actions, s.clients[c].id)
    ensures IsExpected(After(s, actions), s.clients[c].id)
    ensures ServerCalls(actions) >= CallsToServe(s, s.clients[c].id) ==> s.clients[c].id in After(s, actions).readied
    decreases |actions|
  {
    if actions != [] {
      var next := Next(s, actions[0]);
      assert actions[0] in actions && AllSpare(actions[1..], c);
      RunStaysUp(next, actions[1..]);
      StepBringsCloser(s, actions[0], c);
      StepGetsOn(s, actions[0], c);
      InvariantStays(s, actions[0]);
      AnnouncedIsServed(next, actions[1..], c);
    }
  }

  // ---------------------------------------------------------------- being connected

  /** How many calls a client has to go once its ready byte is written. */
  function CallsToConnect(place: Place): nat {
    match place
    case Waiting => 2
    case Probing => 3
    case Polled => 1
    case _ => 0
  }

  lemma ReadyStepCounts(s: State, a: Action, c: nat)
    requires Invariant(s) && Enabled(s, a) && IsUp(Next(s, a)) && Spares(a, c)
    requires c < |s.clients| && 8 <= Progress(s.clients[c].place) <= 11 && s.clients[c].id in s.readied
    ensures c < |Next(s, a).clients| && Next(s, a).clients[c].id == s.clients[c].id && s.readied <= Next(s, a).readied
    ensures (if IsOwnCall(a, c) then 1 else 0) + CallsToConnect(Next(s, a).clients[c].place) == CallsToConnect(s.clients[c].place)
  {
    StaysUp(s, a);
    StepGetsOn(s, a, c);
    ReadiedStay(s, a);
    if !IsClientAction(a) {
      ServerLeavesNames(s, a);
    } else if a.c != c {
      OthersStay(s, a, c);
    } else if a.ClientCall? {
      WaitingCallGoesOn(s, c, a.id, a.pollReportsError);
    } else {
      ClientWritesHaveAReader(s, c);
    }
  }

  lemma ReadiedStay(s: State, a: Action)
    requires Enabled(s, a)
    ensures s.readied <= Next(s, a).readied
  {
    if a.ServerCall? && ServedId(s.server).Some? {
      ReplyStepsOn(s, a.succeeds);
    }
  }

  /** Once its ready byte is written, a client is connected by exactly its next one, two or three calls. */
  lemma {:induction false} ReadyClientConnects(s: State, actions: seq<Action>, c: nat)
    requires Invariant(s) && IsRun(s, actions) && IsUp(After(s, actions)) && AllSpare(actions, c)
    requires c < |s.clients| && 8 <= Progress(s.clients[c].place) <= 11 && s.clients[c].id in s.readied
    ensures c < |After(s, actions).clients| && 8 <= Progress(After(s, actions).clients[c].place) <= 11
    ensures OwnCalls(actions, c) + CallsToConnect(After(s, actions).clients[c].place) == CallsToConnect(s.clients[c].place)
    decreases |actions|
  {
    if actions != [] {
      var next := Next(s, actions[0]);
      assert actions[0] in actions && AllSpare(actions[1..], c);
      RunStaysUp(next, actions[1..]);
      ReadyStepCounts(s, actions[0], c);
      StepGetsOn(s, actions[0], c);
      InvariantStays(s, actions[0]);
      ReadyClientConnects(next, actions[1..], c);
    }
  }

  /**
   * The handshake succeeds: while the server stays up, a client that has announced itself, whose
   * announcement the server has not skipped and for which its calls do not fail, and that does not die
   * itself, is connected once the server has made its calls and the client then its own, whatever
   * anybody else does.
   */
  lemma ServedClientConnects(s: State, served: seq<Action>, finished: seq<Action>, c: nat)
    requires Reachable(s) && c < |s.clients| && 8 <= Progress(s.clients[c].place) <= 11 && IsExpected(s, s.clients[c].id)
    requires IsRun(s, served) && AllSpare(served, c) && AllServeWell(s, served, s.clients[c].id)
    requires ServerCalls(served) >= CallsToServe(s, s.clients[c].id)
    requires IsRun(After(s, served), finished) && AllSpare(finished, c) && IsUp(After(After(s, served), finished))
    ensures var middle, end := After(s, served), After(After(s, served), finished);
            && c < |middle.clients| && c < |end.clients|
            && CallsToConnect(middle.clients[c].place) <= 3
            && (end.clients[c].place.Connected? <==> OwnCalls(finished, c) >= CallsToConnect(middle.clients[c].place))
  {
    ReachableStatesAreSound(s);
    RunStaysUp(After(s, served), finished);
    RunGetsOn(s, served, c);
    AnnouncedIsServed(s, served, c);
    RunKeepsInvariant(s, served);
    ReadyClientConnects(After(s, served), finished, c);
  }

  /** The announcement itself makes a client expected, behind those that came before. */
  lemma AnnouncementIsExpected(s: State, c: nat, id: Id, reports: bool)
    requires Reachable(s) && IsUp(s) && c < |s.clients| && s.clients[c].place.Announcing?
    ensures var next := Next(s, ClientCall(c, id, reports));
            && next.clients[c].place.Announced? && IsExpected(next, next.clients[c].id)
            && CallsToServe(next, next.clients[c].id) == ServerStepsLeft(s.server) + 4 * |s.queue| + 4
  {
    ReachableStatesAreSound(s);
    CallGoesOn(s, c, id, reports);
    assert ClientTalksTruly(s, s.clients[c]);
    LastIndex(s.queue, s.clients[c].id);
  }

  lemma {:induction false} LastIndex(ids: seq<Id>, id: Id)
    requires id !in ids
    ensures IndexIn(ids + [id], id) == |ids|
  {
    if ids != [] {
      assert (ids + [id])[1..] == ids[1..] + [id];
      LastIndex(ids[1..], id);
    }
  }

  // ---------------------------------------------------------------- being skipped

  lemma SkippedStaysSkipped(s: State, a: Action, id: Id)
    requires Invariant(s) && Enabled(s, a) && id in s.sent && !IsExpected(s, id)
    ensures id in Next(s, a).sent && !IsExpected(Next(s, a), id)
  {
    if IsClientAction(a) {
      ClientsMoveForward(s, a);
      assert ClientTalksTruly(s, s.clients[a.c]);
    } else if a.ServerCall? {
      ServerSkipsAgain(s, a.succeeds, id);
    }
  }

  lemma ServerSkipsAgain(s: State, succeeds: bool, id: Id)
    requires Invariant(s) && Enabled(s, ServerCall(succeeds)) && id in s.sent && !IsExpected(s, id)
    ensures id in ServerNext(s, succeeds).sent && !IsExpected(ServerNext(s, succeeds), id)
  {
    if s.server.Reading? {
      ReadTakesOneAnnouncement(s, succeeds);
      assert s.queue == [s.queue[0]] + s.queue[1..];
    } else {
      ReplyLeavesQueue(s, succeeds);
      ReplyGoesToTheServed(s, succeeds);
    }
  }

  lemma ReplyGoesToTheServed(s: State, succeeds: bool)
    requires !s.server.Reading?
    ensures var next := ServerNext(s, succeeds);
            && (ServedId(next.server).None? || ServedId(next.server) == ServedId(s.server))
            && forall id :: id in next.readied ==> id in s.readied || ServedId(s.server) == Some(id)
  {
    match s.server {
      case HasPair(id) =>
      case HasRequest(id) =>
      case _ =>
    }
  }

  lemma {:induction false} RunSkips(s: State, actions: seq<Action>, id: Id)
    requires Invariant(s) && IsRun(s, actions) && id in s.sent && !IsExpected(s, id)
    ensures id !in After(s, actions).readied
    decreases |actions|
  {
    if actions != [] {
      SkippedStaysSkipped(s, actions[0], id);
      InvariantStays(s, actions[0]);
      RunSkips(Next(s, actions[0]), actions[1..], id);
    }
  }

  /**
   * A call of the server that fails for a client that is alive gives its announcement up for good: the
   * client never connects, and as long as the server stays up and nothing else ends it, it waits.
   */
  lemma SkippedClientWaitsForEver(s: State, actions: seq<Action>, c: nat)
    requires Reachable(s) && c < |s.clients| && 8 <= Progress(s.clients[c].place) <= 9
    requires ServedId(s.server) == Some(s.clients[c].id) && IsRun(Next(s, ServerCall(false)), actions)
    ensures var after := After(Next(s, ServerCall(false)), actions);
            && c < |after.clients| && !after.clients[c].place.Connected?
            && (AllSpare(actions, c) && IsUp(after) ==> IsWaiting(after.clients[c].place))
  {
    ReachableStatesAreSound(s);
    assert ClientTalksTruly(s, s.clients[c]);
    FailureSkips(s, s.clients[c].id);
    InvariantStays(s, ServerCall(false));
    SkippedWaits(Next(s, ServerCall(false)), actions, c);
  }

  lemma SkippedWaits(s: State, actions: seq<Action>, c: nat)
    requires Invariant(s) && IsRun(s, actions) && c < |s.clients| && 8 <= Progress(s.clients[c].place) <= 9
    requires s.clients[c].id in s.sent && !IsExpected(s, s.clients[c].id)
    ensures var after := After(s, actions);
            && c < |after.clients| && !after.clients[c].place.Connected?
            && (AllSpare(actions, c) && IsUp(after) ==> IsWaiting(after.clients[c].place))
  {
    RunSkips(s, actions, s.clients[c].id);
    RunKeepsInvariant(s, actions);
    IdStays(s, actions, c);
    assert ClientTalksTruly(After(s, actions), After(s, actions).clients[c]);
    if AllSpare(actions, c) && IsUp(After(s, actions)) {
      RunGetsOn(s, actions, c);
    }
  }

  lemma FailureSkips(s: State, id: Id)
    requires Invariant(s) && ServedId(s.server) == Some(id) && id in s.sent
    ensures Enabled(s, ServerCall(false)) && id in Next(s, ServerCall(false)).sent && !IsExpected(Next(s, ServerCall(false)), id)
    ensures Next(s, ServerCall(false)).clients == s.clients
  {
    ReplyLeavesQueue(s, false);
  }

  lemma {:induction false} IdStays(s: State, actions: seq<Action>, c: nat)
    requires Invariant(s) && IsRun(s, actions) && c < |s.clients| && 2 <= Progress(s.clients[c].place)
    ensures c < |After(s, actions).clients| && After(s, actions).clients[c].id == s.clients[c].id
    ensures 2 <= Progress(After(s, actions).clients[c].place)
    decreases |actions|
  {
    if actions != [] {
      StepKeepsId(s, actions[0], c);
      InvariantStays(s, actions[0]);
      IdStays(Next(s, actions[0]), actions[1..], c);
    }
  }

  lemma StepKeepsId(s: State, a: Action, c: nat)
    requires Invariant(s) && Enabled(s, a) && c < |s.clients| && 2 <= Progress(s.clients[c].place)
    ensures c < |Next(s, a).clients| && Next(s, a).clients[c].id == s.clients[c].id
    ensures 2 <= Progress(Next(s, a).clients[c].place)
  {
    if !IsClientAction(a) {
      ServerLeavesNames(s, a);
    } else if a.c != c {
      OthersStay(s, a, c);
    } else {
      ClientsMoveForward(s, a);
    }
  }
}
