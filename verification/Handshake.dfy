/**
 * The FIFO handshake between one server and any number of clients, any of which may fail or die
 * between two system calls. Every step is one system call.
 *
 * FIFO semantics assumed: a nonblocking write open needs a reader (POSIX open, O_NONBLOCK); a
 * read-write open and a nonblocking read open always succeed on an existing FIFO (POSIX open,
 * fifo(7)); a write of at most PIPE_BUF bytes is atomic and kills or fails without a reader
 * (POSIX write); a read takes as many of the requested bytes as are buffered. The rendezvous
 * buffer is unbounded.
 */
module Handshake {
  import opened Wrappers

  type Id = bytes: seq<Byte> | |bytes| == 16 witness seq(16, _ => 0)

  const READY: Byte := 1

  datatype Fifo = Connect | Request(id: Id) | Response(id: Id)

  /** The descriptors a client holds: rendezvous write end, request and response ends, announcement. */
  datatype Fds = Fds(watch: bool, request: bool, response: bool, announce: bool)

  const NO_FDS: Fds := Fds(false, false, false, false)

  datatype Reason = ServerGone | InvalidReady | Other

  datatype Place =
    | Starting          // nothing opened yet
    | Watching          // holds the rendezvous write end
    | MadeRequest       // created the request FIFO
    | MadePair          // created both FIFOs
    | HoldsRequest      // opened the request FIFO read-write
    | HoldsPair         // opened the response FIFO for reading
    | Announcing        // opened the rendezvous read-write
    | Announced         // wrote its id
    | Waiting           // dropped the announcement descriptor, about to poll
    | Probing           // polled without news, about to reopen the rendezvous
    | Polled            // saw a buffered byte and dropped the rendezvous
    | Connected
    | Failed(reason: Reason)
    | Crashed
    | Killed            // by SIGPIPE

  datatype Client = Client(id: Id, place: Place, fds: Fds)

  datatype ServerPlace =
    | Reading(got: seq<Byte>)
    | HasId(id: Id)
    | HasRequest(id: Id)
    | HasPair(id: Id)
    | Dropping          // removed its directory, about to close the rendezvous
    | Closed            // accepts nobody any more; its connections go on
    | Dead

  /**
   * The server holds both ends of the rendezvous while `listening`, and the far ends in `readers`
   * and `writers`. `queue`, `sent`, `seen`, `paired`, `readied` and `closed` are history: the ids
   * written and not yet read, ever written, read by the server, opened as a pair, given the ready
   * byte, and closed by the server after that. `claims` says which client created the pair of an id.
   */
  datatype State = State(
    clients: seq<Client>,
    paths: set<Fifo>,
    dirRemoved: bool,
    rendezvous: seq<Byte>,
    responses: map<Id, seq<Byte>>,
    server: ServerPlace,
    listening: bool,
    readers: set<Id>,
    writers: set<Id>,
    queue: seq<Id>,
    sent: set<Id>,
    seen: set<Id>,
    paired: set<Id>,
    readied: set<Id>,
    closed: set<Id>,
    claims: map<Id, nat>)
  {
    predicate Exists(fifo: Fifo) {
      !dirRemoved && fifo in paths
    }

    predicate HasReader(fifo: Fifo) {
      match fifo
      case Connect => listening || exists c: nat :: c < |clients| && clients[c].fds.announce
      case Request(id) => id in readers || exists c: nat :: c < |clients| && clients[c].fds.request && clients[c].id == id
      case Response(id) => exists c: nat :: c < |clients| && clients[c].fds.response && clients[c].id == id
    }

    /** The server and every client past its first open hold a write end of the rendezvous; only the server writes replies. */
    predicate HasWriter(fifo: Fifo) {
      match fifo
      case Connect => listening || exists c: nat :: c < |clients| && (clients[c].fds.announce || clients[c].fds.watch)
      case Request(id) => exists c: nat :: c < |clients| && clients[c].fds.request && clients[c].id == id
      case Response(id) => id in writers
    }

    function Buffered(id: Id): seq<Byte> {
      if id in responses then responses[id] else []
    }
  }

  /** `id` is the fresh identifier a client draws; the flags are outcomes outside the protocol. */
  datatype Action =
    | NewClient
    | ClientCall(c: nat, id: Id, pollReportsError: bool)
    | ClientSend(c: nat)
    | ClientFails(c: nat)
    | ClientDies(c: nat)
    | ServerCall(succeeds: bool)
    | CancelAccept
    | CloseConnection(id: Id)
    | RemoveDirectory
    | ServerDies

  predicate IsLive(place: Place) {
    !place.Failed? && !place.Crashed? && !place.Killed?
  }

  predicate Enabled(s: State, a: Action) {
    match a
    case NewClient => true
    case ClientCall(c, _, _) => c < |s.clients| && IsLive(s.clients[c].place) && !s.clients[c].place.Connected?
    case ClientSend(c) => c < |s.clients| && s.clients[c].place.Connected?
    case ClientFails(c) => c < |s.clients| && IsLive(s.clients[c].place) && !s.clients[c].place.Connected?
    case ClientDies(c) => c < |s.clients| && IsLive(s.clients[c].place)
    case ServerCall(_) =>
      if s.server.Reading? then s.rendezvous != [] else !s.server.Closed? && !s.server.Dead?
    case CancelAccept => s.server.Reading?
    case CloseConnection(id) => id in s.readied && !s.server.Dead?
    case RemoveDirectory => s.server.Reading?
    case ServerDies => !s.server.Dead?
  }

  function Initial(): State {
    State([], {Connect}, false, [], map[], Reading([]), true, {}, {}, [], {}, {}, {}, {}, {}, map[])
  }

  /** What a client's call does besides changing the client itself. */
  datatype Effect = Silent | Claims(id: Id) | AddsResponse(id: Id) | Announces(id: Id) | Takes(id: Id, rest: seq<Byte>)
  datatype Outcome = Outcome(client: Client, effect: Effect)

  function Apply(s: State, c: nat, outcome: Outcome): State
    requires c < |s.clients|
  {
    var moved := s.(clients := s.clients[c := outcome.client]);
    match outcome.effect
    case Silent => moved
    case Claims(id) => moved.(paths := s.paths + {Request(id)}, claims := s.claims[id := c])
    case AddsResponse(id) => moved.(paths := s.paths + {Response(id)})
    case Announces(id) => moved.(rendezvous := s.rendezvous + id, queue := s.queue + [id], sent := s.sent + {id})
    case Takes(id, rest) => moved.(responses := s.responses[id := rest])
  }

  /** Leaving `connect` in any way but success closes every descriptor of the client. */
  function Ended(client: Client, place: Place): Client {
    Client(client.id, place, NO_FDS)
  }

  function Next(s: State, a: Action): State
    requires Enabled(s, a)
  {
    match a
    case NewClient => s.(clients := s.clients + [Client(seq(16, _ => 0), Starting, NO_FDS)])
    case ClientCall(c, _, _) => Apply(s, c, OutcomeOf(s, a))
    case ClientSend(c) => Apply(s, c, OutcomeOf(s, a))
    case ClientFails(c) => Apply(s, c, OutcomeOf(s, a))
    case ClientDies(c) => Apply(s, c, OutcomeOf(s, a))
    case ServerCall(succeeds) => ServerNext(s, succeeds)
    case CancelAccept => s.(server := Reading([]))
    case CloseConnection(id) => s.(readers := s.readers - {id}, writers := s.writers - {id}, closed := s.closed + {id})
    case RemoveDirectory => s.(server := Dropping, dirRemoved := true)
    case ServerDies => s.(server := Dead, listening := false, readers := {}, writers := {})
  }

  predicate IsClientAction(a: Action) {
    a.ClientCall? || a.ClientSend? || a.ClientFails? || a.ClientDies?
  }

  function OutcomeOf(s: State, a: Action): Outcome
    requires IsClientAction(a) && Enabled(s, a)
  {
    var client := s.clients[a.c];
    match a
    case ClientCall(c, id, pollReportsError) => CallOutcome(s, client, id, pollReportsError)
    case ClientSend(c) =>
      Outcome(if s.HasReader(Request(client.id)) then client else Ended(client, Killed), Silent)
    case ClientFails(c) => Outcome(Ended(client, Failed(Other)), Silent)
    case ClientDies(c) => Outcome(Ended(client, Crashed), Silent)
  }

  function CallOutcome(s: State, client: Client, drawn: Id, pollReportsError: bool): Outcome {
    var id, fds := client.id, client.fds;
    var failed := Outcome(Ended(client, Failed(Other)), Silent);
    var gone := Outcome(Ended(client, Failed(ServerGone)), Silent);
    match client.place
    case Starting =>
      if !s.Exists(Connect) then failed
      else if !s.HasReader(Connect) then gone
      else Outcome(Client(id, Watching, fds.(watch := true)), Silent)
    case Watching =>
      if s.dirRemoved || Request(drawn) in s.paths then failed
      else Outcome(Client(drawn, MadeRequest, fds), Claims(drawn))
    case MadeRequest =>
      if s.dirRemoved || Response(id) in s.paths then failed
      else Outcome(Client(id, MadePair, fds), AddsResponse(id))
    case MadePair =>
      if !s.Exists(Request(id)) then failed
      else Outcome(Client(id, HoldsRequest, fds.(request := true)), Silent)
    case HoldsRequest =>
      if !s.Exists(Response(id)) then failed
      else Outcome(Client(id, HoldsPair, fds.(response := true)), Silent)
    case HoldsPair =>
      if !s.Exists(Connect) then failed
      else Outcome(Client(id, Announcing, fds.(announce := true)), Silent)
    case Announcing =>
      if !s.HasReader(Connect) then Outcome(Ended(client, Killed), Silent)
      else Outcome(Client(id, Announced, fds), Announces(id))
    case Announced =>
      Outcome(Client(id, Waiting, fds.(announce := false)), Silent)
    case Waiting =>
      if s.Buffered(id) != [] then Outcome(Client(id, Polled, fds.(watch := false)), Silent)
      else if pollReportsError && !s.HasReader(Connect) then gone
      else Outcome(Client(id, Probing, fds), Silent)
    case Probing =>
      if !s.Exists(Connect) || !s.HasReader(Connect) then gone
      else Outcome(Client(id, Waiting, fds), Silent)
    case Polled =>
      var bytes := s.Buffered(id);
      if bytes == [] then Outcome(client, Silent)
      else if bytes[0] == READY then Outcome(Client(id, Connected, fds), Takes(id, bytes[1..]))
      else Outcome(Ended(client, Failed(InvalidReady)), Silent)
    case _ => Outcome(client, Silent)
  }

  /** A failed open or write drops what the iteration opened and starts over with the next announcement. */
  function SkipAnnouncement(s: State, id: Id): State {
    s.(server := Reading([]), readers := s.readers - {id}, writers := s.writers - {id})
  }

  function ServerNext(s: State, succeeds: bool): State {
    match s.server
    case Reading(got) =>
      var n := if |got| < 16 then 16 - |got| else 0;
      var k := if n < |s.rendezvous| then n else |s.rendezvous|;
      var bytes := got + s.rendezvous[..k];
      if |bytes| == 16 then
        s.(server := HasId(bytes), rendezvous := s.rendezvous[k..], seen := s.seen + {bytes},
           queue := if s.queue == [] then [] else s.queue[1..])
      else
        s.(server := Reading(bytes), rendezvous := s.rendezvous[k..])
    case HasId(id) =>
      if succeeds && s.Exists(Request(id)) then s.(server := HasRequest(id), readers := s.readers + {id})
      else SkipAnnouncement(s, id)
    case HasRequest(id) =>
      if succeeds && s.Exists(Response(id)) && s.HasReader(Response(id)) then
        s.(server := HasPair(id), writers := s.writers + {id}, paired := s.paired + {id})
      else SkipAnnouncement(s, id)
    case HasPair(id) =>
      if succeeds && s.HasReader(Response(id)) then
        s.(server := Reading([]), responses := s.responses[id := s.Buffered(id) + [READY]], readied := s.readied + {id})
      else SkipAnnouncement(s, id)
    case Dropping => s.(server := Closed, listening := false)
    case Closed => s
    case Dead => s
  }

  // ---------------------------------------------------------------- descriptors

  /** How far a client has come; 12 once it has ended. */
  function Progress(place: Place): nat {
    match place
    case Starting => 0
    case Watching => 1
    case MadeRequest => 2
    case MadePair => 3
    case HoldsRequest => 4
    case HoldsPair => 5
    case Announcing => 6
    case Announced => 7
    case Waiting => 8
    case Probing => 9
    case Polled => 10
    case Connected => 11
    case _ => 12
  }

  function ServedId(server: ServerPlace): Option<Id> {
    match server
    case HasId(id) => Some(id)
    case HasRequest(id) => Some(id)
    case HasPair(id) => Some(id)
    case _ => None
  }

  predicate HoldsItsFds(client: Client) {
    var p := Progress(client.place);
    client.fds == Fds(1 <= p <= 9, 4 <= p <= 11, 5 <= p <= 11, 6 <= p <= 7)
  }

  ghost predicate DescriptorsMatch(s: State) {
    && (forall c: nat :: c < |s.clients| ==> HoldsItsFds(s.clients[c]))
    && (forall id :: id in s.readers || id in s.writers ==> id in s.readied || ServedId(s.server) == Some(id))
    && (s.listening <==> !IsGone(s))
    && HoldsItsConnections(s)
  }

  /** The rendezvous has no server any more; its connections may go on. */
  predicate IsGone(s: State) {
    s.server.Closed? || s.server.Dead?
  }

  /** A living server keeps both ends of every connection it has not closed, and of no closed one. */
  ghost predicate HoldsItsConnections(s: State) {
    && (s.server.Dead? ==> s.readers == {} && s.writers == {})
    && (forall id :: id in s.closed ==> id in s.readied && id !in s.readers && id !in s.writers)
    && (forall id :: id in s.readied && id !in s.closed && !s.server.Dead? ==> id in s.readers && id in s.writers)
    && (s.server.HasRequest? ==> s.server.id in s.readers)
    && (s.server.HasPair? ==> s.server.id in s.readers && s.server.id in s.writers)
  }

  // ---------------------------------------------------------------- names

  /** A client that created its pair is the only one that did so under that id. */
  ghost predicate OwnsItsName(s: State, c: nat)
    requires c < |s.clients|
  {
    var p, id := Progress(s.clients[c].place), s.clients[c].id;
    2 <= p <= 11 ==> id in s.claims && s.claims[id] == c && (Response(id) in s.paths <==> p >= 3)
  }

  ghost predicate NamesAreOwned(s: State) {
    && (forall c: nat :: c < |s.clients| ==> OwnsItsName(s, c))
    && (forall id :: id in s.claims <==> Request(id) in s.paths)
    && (forall id :: Response(id) in s.paths ==> id in s.claims)
    && Connect in s.paths
  }

  // ---------------------------------------------------------------- conversation

  ghost function Flatten(ids: seq<Id>): (bytes: seq<Byte>)
    ensures |bytes| == 16 * |ids|
  {
    if ids == [] then [] else ids[0] + Flatten(ids[1..])
  }

  lemma {:induction false} FlattenAppend(ids: seq<Id>, id: Id)
    ensures Flatten(ids + [id]) == Flatten(ids) + id
  {
    if ids == [] {
      assert ids + [id] == [id];
      assert Flatten([id]) == id + Flatten([]);
    } else {
      assert (ids + [id])[1..] == ids[1..] + [id];
      FlattenAppend(ids[1..], id);
    }
  }

  ghost predicate IsQueue(ids: seq<Id>) {
    forall i, j :: 0 <= i < j < |ids| ==> ids[i] != ids[j]
  }

  predicate IsReadyOrEmpty(bytes: seq<Byte>) {
    bytes == [] || bytes == [READY]
  }

  /** The rendezvous buffer is the unread announcements, and each claimed id is announced at most once. */
  ghost predicate QueueIsTrue(s: State) {
    && s.rendezvous == Flatten(s.queue) && IsQueue(s.queue)
    && (s.server.Reading? ==> s.server.got == [])
    && (forall id :: id in s.sent ==> id in s.claims)
    && (forall id :: id in s.sent <==> id in s.queue || id in s.seen)
    && (forall id :: id in s.queue ==> id !in s.seen)
  }

  /** Ready bytes went only to ids whose pair was opened, which were read before, and once each. */
  ghost predicate RepliesAreTrue(s: State) {
    && (forall id :: id in s.readied ==> id in s.paired)
    && (forall id :: id in s.paired ==> id in s.seen)
    && (ServedId(s.server).Some? ==> ServedId(s.server).value in s.seen && ServedId(s.server).value !in s.readied)
    && (s.server.HasPair? ==> s.server.id in s.paired)
    && (forall id :: id in s.responses ==> id in s.readied && IsReadyOrEmpty(s.responses[id]))
  }

  ghost predicate ServerTalksTruly(s: State) {
    QueueIsTrue(s) && RepliesAreTrue(s)
  }

  /** What a client's place says about its id. */
  ghost predicate ClientTalksTruly(s: State, client: Client) {
    var p, id := Progress(client.place), client.id;
    && (2 <= p <= 6 ==> id !in s.sent)
    && (7 <= p <= 11 ==> id in s.sent)
    && (7 <= p <= 10 && id in s.readied ==> s.Buffered(id) == [READY])
    && (10 <= p <= 11 ==> id in s.readied)
    && (p == 11 ==> s.Buffered(id) == [])
    && client.place != Killed && client.place != Failed(InvalidReady)
  }

  ghost predicate AllTalkTruly(s: State) {
    ServerTalksTruly(s) && forall c: nat :: c < |s.clients| ==> ClientTalksTruly(s, s.clients[c])
  }

  ghost predicate Invariant(s: State) {
    DescriptorsMatch(s) && NamesAreOwned(s) && AllTalkTruly(s)
  }

  /** The read-write descriptors give every client write a reader. */
  lemma ClientWritesHaveAReader(s: State, c: nat)
    requires DescriptorsMatch(s) && c < |s.clients|
    ensures s.clients[c].place.Announcing? ==> s.HasReader(Connect)
    ensures s.clients[c].place.Connected? ==> s.HasReader(Request(s.clients[c].id))
  {
    assert HoldsItsFds(s.clients[c]);
  }

  lemma LiveIdsDiffer(s: State, c: nat, d: nat)
    requires NamesAreOwned(s) && c < |s.clients| && d < |s.clients| && c != d
    requires 2 <= Progress(s.clients[c].place) <= 11 && 2 <= Progress(s.clients[d].place) <= 11
    ensures s.clients[c].id != s.clients[d].id
  {
    assert OwnsItsName(s, c) && OwnsItsName(s, d);
  }

  /** How a call may change its client: forwards by its effect, within its stretch of the protocol, or to an end. */
  ghost predicate IsForward(s: State, client: Client, outcome: Outcome) {
    var p, q := Progress(client.place), Progress(outcome.client.place);
    && HoldsItsFds(outcome.client)
    && match outcome.effect
       case Claims(id) => p == 1 && q == 2 && outcome.client.id == id && Request(id) !in s.paths
       case AddsResponse(id) => p == 2 && q == 3 && outcome.client.id == client.id == id
       case Announces(id) => p == 6 && q == 7 && outcome.client.id == client.id == id
       case Takes(id, rest) => p == 10 && q == 11 && outcome.client.id == client.id == id && rest == []
       case Silent =>
         && outcome.client.id == client.id
         && if q == 12 then outcome.client.place != Killed && outcome.client.place != Failed(InvalidReady)
            else if p <= 1 then q <= 1
            else if p <= 6 then 2 <= q <= 6 && (q >= 3 <==> p >= 3)
            else if p <= 9 then 7 <= q <= 9 || (q == 10 && s.Buffered(client.id) != [])
            else p == q == 11
  }

  lemma ClientsMoveForward(s: State, a: Action)
    requires Enabled(s, a) && IsClientAction(a) && Invariant(s)
    ensures IsForward(s, s.clients[a.c], OutcomeOf(s, a))
  {
    ClientWritesHaveAReader(s, a.c);
    var client := s.clients[a.c];
    assert HoldsItsFds(client) && ClientTalksTruly(s, client);
    if a.ClientCall? {
      CallMovesForward(s, client, a.id, a.pollReportsError);
    }
  }

  lemma CallMovesForward(s: State, client: Client, id: Id, pollReportsError: bool)
    requires HoldsItsFds(client) && ClientTalksTruly(s, client) && IsLive(client.place) && !client.place.Connected?
    requires client.place.Announcing? ==> s.HasReader(Connect)
    ensures IsForward(s, client, CallOutcome(s, client, id, pollReportsError))
  {
    match client.place {
      case Waiting =>
      case Polled =>
      case Announcing =>
      case _ =>
    }
  }

  lemma ForwardKeepsDescriptors(s: State, c: nat, outcome: Outcome)
    requires DescriptorsMatch(s) && c < |s.clients| && IsForward(s, s.clients[c], outcome)
    ensures DescriptorsMatch(Apply(s, c, outcome))
  {
  }

  lemma ForwardKeepsOthersName(s: State, c: nat, outcome: Outcome, d: nat)
    requires NamesAreOwned(s) && c < |s.clients| && IsForward(s, s.clients[c], outcome) && d < |s.clients| && d != c
    ensures OwnsItsName(Apply(s, c, outcome), d)
  {
    assert OwnsItsName(s, c) && OwnsItsName(s, d);
    if 2 <= Progress(s.clients[c].place) <= 11 && 2 <= Progress(s.clients[d].place) <= 11 {
      LiveIdsDiffer(s, c, d);
    }
  }

  lemma ForwardKeepsOwnName(s: State, c: nat, outcome: Outcome)
    requires NamesAreOwned(s) && c < |s.clients| && IsForward(s, s.clients[c], outcome)
    ensures OwnsItsName(Apply(s, c, outcome), c)
  {
    assert OwnsItsName(s, c);
    assert outcome.effect.Claims? ==> Response(outcome.client.id) !in s.paths;
  }

  lemma ForwardKeepsNames(s: State, c: nat, outcome: Outcome)
    requires NamesAreOwned(s) && c < |s.clients| && IsForward(s, s.clients[c], outcome)
    ensures NamesAreOwned(Apply(s, c, outcome))
  {
    var next := Apply(s, c, outcome);
    forall d: nat | d < |next.clients| ensures OwnsItsName(next, d) {
      if d == c {
        ForwardKeepsOwnName(s, c, outcome);
      } else {
        ForwardKeepsOthersName(s, c, outcome, d);
      }
    }
    ForwardKeepsClaims(s, c, outcome);
  }

  lemma ForwardKeepsClaims(s: State, c: nat, outcome: Outcome)
    requires NamesAreOwned(s) && c < |s.clients| && IsForward(s, s.clients[c], outcome)
    ensures var next := Apply(s, c, outcome);
            && (forall id :: id in next.claims <==> Request(id) in next.paths)
            && (forall id :: Response(id) in next.paths ==> id in next.claims)
            && Connect in next.paths
  {
    assert OwnsItsName(s, c);
  }

  lemma ForwardKeepsQueue(s: State, c: nat, outcome: Outcome)
    requires QueueIsTrue(s) && NamesAreOwned(s)
    requires c < |s.clients| && ClientTalksTruly(s, s.clients[c]) && IsForward(s, s.clients[c], outcome)
    ensures QueueIsTrue(Apply(s, c, outcome))
  {
    assert OwnsItsName(s, c);
    if outcome.effect.Announces? {
      FlattenAppend(s.queue, s.clients[c].id);
      assert s.clients[c].id !in s.queue;
    }
  }

  lemma ForwardKeepsReplies(s: State, c: nat, outcome: Outcome)
    requires RepliesAreTrue(s)
    requires c < |s.clients| && ClientTalksTruly(s, s.clients[c]) && IsForward(s, s.clients[c], outcome)
    ensures RepliesAreTrue(Apply(s, c, outcome))
  {
  }

  lemma ForwardKeepsOwnTalk(s: State, c: nat, outcome: Outcome)
    requires ServerTalksTruly(s) && NamesAreOwned(s)
    requires c < |s.clients| && ClientTalksTruly(s, s.clients[c]) && IsForward(s, s.clients[c], outcome)
    ensures ClientTalksTruly(Apply(s, c, outcome), outcome.client)
  {
  }

  lemma ForwardKeepsOthersTalk(s: State, c: nat, outcome: Outcome, d: nat)
    requires QueueIsTrue(s) && NamesAreOwned(s)
    requires c < |s.clients| && IsForward(s, s.clients[c], outcome)
    requires d < |s.clients| && d != c && ClientTalksTruly(s, s.clients[d])
    ensures ClientTalksTruly(Apply(s, c, outcome), s.clients[d])
  {
    if 2 <= Progress(s.clients[d].place) <= 11 {
      assert OwnsItsName(s, d);
      if 2 <= Progress(s.clients[c].place) <= 11 {
        LiveIdsDiffer(s, c, d);
      }
    }
  }

  lemma ForwardKeepsTalk(s: State, c: nat, outcome: Outcome)
    requires Invariant(s) && c < |s.clients| && IsForward(s, s.clients[c], outcome)
    ensures AllTalkTruly(Apply(s, c, outcome))
  {
    assert ClientTalksTruly(s, s.clients[c]);
    ForwardKeepsQueue(s, c, outcome);
    ForwardKeepsReplies(s, c, outcome);
    ForwardKeepsOwnTalk(s, c, outcome);
    forall d: nat | d < |s.clients| && d != c ensures ClientTalksTruly(Apply(s, c, outcome), s.clients[d]) {
      ForwardKeepsOthersTalk(s, c, outcome, d);
    }
  }

  /** The rendezvous buffer holds whole ids, so one read call takes exactly the oldest announcement. */
  lemma ReadTakesOneAnnouncement(s: State, succeeds: bool)
    requires ServerTalksTruly(s) && s.server.Reading? && s.rendezvous != []
    ensures s.queue != []
    ensures var next := ServerNext(s, succeeds);
            && next.server == HasId(s.queue[0]) && next.queue == s.queue[1..]
            && next.rendezvous == Flatten(s.queue[1..]) && next.seen == s.seen + {s.queue[0]}
            && next.clients == s.clients && next.claims == s.claims && next.sent == s.sent
            && next.paired == s.paired && next.readied == s.readied && next.responses == s.responses
  {
    assert s.queue != [];
    assert s.rendezvous[..16] == s.queue[0];
    assert s.rendezvous[16..] == Flatten(s.queue[1..]);
    assert [] + s.rendezvous[..16] == s.queue[0];
  }

  lemma ReadKeepsTalk(s: State, succeeds: bool)
    requires AllTalkTruly(s) && s.server.Reading? && s.rendezvous != []
    ensures AllTalkTruly(ServerNext(s, succeeds))
  {
    ReadTakesOneAnnouncement(s, succeeds);
    var next := ServerNext(s, succeeds);
    assert s.queue == [s.queue[0]] + s.queue[1..];
    forall d: nat | d < |next.clients| ensures ClientTalksTruly(next, next.clients[d]) {
      assert ClientTalksTruly(s, s.clients[d]);
    }
  }

  lemma ReplyKeepsReplies(s: State, succeeds: bool)
    requires RepliesAreTrue(s) && !s.server.Reading?
    ensures RepliesAreTrue(ServerNext(s, succeeds))
  {
    match s.server {
      case HasPair(id) =>
      case HasRequest(id) =>
      case _ =>
    }
  }

  lemma ReplyKeepsClientTalk(s: State, succeeds: bool, client: Client)
    requires RepliesAreTrue(s) && !s.server.Reading? && ClientTalksTruly(s, client)
    ensures ClientTalksTruly(ServerNext(s, succeeds), client)
  {
  }

  lemma ReplyLeavesQueue(s: State, succeeds: bool)
    requires !s.server.Reading?
    ensures var next := ServerNext(s, succeeds);
            && next.rendezvous == s.rendezvous && next.queue == s.queue && next.clients == s.clients
            && next.sent == s.sent && next.seen == s.seen && next.claims == s.claims
            && (next.server.Reading? ==> next.server.got == [])
  {
    match s.server {
      case HasId(id) => assert ServerNext(s, succeeds) == SkipAnnouncement(s, id) || ServerNext(s, succeeds).server == HasRequest(id);
      case HasRequest(id) => assert ServerNext(s, succeeds) == SkipAnnouncement(s, id) || ServerNext(s, succeeds).server == HasPair(id);
      case _ =>
    }
  }

  lemma ReplyKeepsTalk(s: State, succeeds: bool)
    requires AllTalkTruly(s) && !s.server.Reading?
    ensures AllTalkTruly(ServerNext(s, succeeds))
  {
    ReplyKeepsReplies(s, succeeds);
    ReplyLeavesQueue(s, succeeds);
    var next := ServerNext(s, succeeds);
    forall d: nat | d < |next.clients| ensures ClientTalksTruly(next, next.clients[d]) {
      ReplyKeepsClientTalk(s, succeeds, s.clients[d]);
    }
  }

  lemma OtherActionsKeepTalk(s: State, a: Action)
    requires Enabled(s, a) && AllTalkTruly(s) && !IsClientAction(a) && !a.ServerCall?
    ensures AllTalkTruly(Next(s, a))
  {
    var next := Next(s, a);
    forall d: nat | d < |next.clients| ensures ClientTalksTruly(next, next.clients[d]) {
      if d < |s.clients| {
        assert ClientTalksTruly(s, s.clients[d]);
      }
    }
  }

  lemma ServerKeepsConnections(s: State, a: Action)
    requires Enabled(s, a) && HoldsItsConnections(s) && RepliesAreTrue(s) && !IsClientAction(a)
    ensures HoldsItsConnections(Next(s, a))
  {
    if a.ServerCall? {
      CallKeepsConnections(s, a.succeeds);
    }
  }

  lemma CallKeepsConnections(s: State, succeeds: bool)
    requires HoldsItsConnections(s) && RepliesAreTrue(s)
    ensures HoldsItsConnections(ServerNext(s, succeeds))
  {
  }

  lemma ServerKeepsDescriptors(s: State, a: Action)
    requires Enabled(s, a) && Invariant(s) && !IsClientAction(a)
    ensures DescriptorsMatch(Next(s, a))
  {
    ServerKeepsConnections(s, a);
    ServerServesItsFds(s, a);
  }

  /** Only the connection being made and those made hold descriptors. */
  lemma ServerServesItsFds(s: State, a: Action)
    requires Enabled(s, a) && DescriptorsMatch(s) && !IsClientAction(a)
    ensures var next := Next(s, a);
            forall id :: id in next.readers || id in next.writers ==> id in next.readied || ServedId(next.server) == Some(id)
  {
    if a.ServerCall? {
      assert s.server.Reading? ==> Next(s, a).readers == s.readers && Next(s, a).writers == s.writers;
    }
  }

  lemma ServerLeavesNames(s: State, a: Action)
    requires Enabled(s, a) && !IsClientAction(a)
    ensures Next(s, a).claims == s.claims && Next(s, a).paths == s.paths && s.clients <= Next(s, a).clients
    ensures forall c: nat :: |s.clients| <= c < |Next(s, a).clients| ==> Next(s, a).clients[c].place.Starting?
  {
  }

  lemma SameNamesStayOwned(s: State, next: State)
    requires NamesAreOwned(s) && next.claims == s.claims && next.paths == s.paths && s.clients <= next.clients
    requires forall c: nat :: |s.clients| <= c < |next.clients| ==> next.clients[c].place.Starting?
    ensures NamesAreOwned(next)
  {
    forall c: nat | c < |next.clients| ensures OwnsItsName(next, c) {
      if c < |s.clients| {
        assert OwnsItsName(s, c);
      }
    }
  }

  lemma ServerKeepsNames(s: State, a: Action)
    requires Enabled(s, a) && NamesAreOwned(s) && !IsClientAction(a)
    ensures NamesAreOwned(Next(s, a))
  {
    ServerLeavesNames(s, a);
    SameNamesStayOwned(s, Next(s, a));
  }

  lemma InvariantStays(s: State, a: Action)
    requires Enabled(s, a) && Invariant(s)
    ensures Invariant(Next(s, a))
  {
    if IsClientAction(a) {
      ClientsMoveForward(s, a);
      ForwardKeepsDescriptors(s, a.c, OutcomeOf(s, a));
      ForwardKeepsNames(s, a.c, OutcomeOf(s, a));
      ForwardKeepsTalk(s, a.c, OutcomeOf(s, a));
    } else {
      ServerKeepsDescriptors(s, a);
      ServerKeepsNames(s, a);
      if a.ServerCall? && s.server.Reading? {
        ReadKeepsTalk(s, a.succeeds);
      } else if a.ServerCall? {
        ReplyKeepsTalk(s, a.succeeds);
      } else {
        OtherActionsKeepTalk(s, a);
      }
    }
  }

  // ---------------------------------------------------------------- whole runs

  predicate IsRun(s: State, actions: seq<Action>)
    decreases |actions|
  {
    actions == [] || (Enabled(s, actions[0]) && IsRun(Next(s, actions[0]), actions[1..]))
  }

  function After(s: State, actions: seq<Action>): State
    requires IsRun(s, actions)
    decreases |actions|
  {
    if actions == [] then s else After(Next(s, actions[0]), actions[1..])
  }

  lemma {:induction false} RunKeepsInvariant(s: State, actions: seq<Action>)
    requires Invariant(s) && IsRun(s, actions)
    ensures Invariant(After(s, actions))
    decreases |actions|
  {
    if actions != [] {
      InvariantStays(s, actions[0]);
      RunKeepsInvariant(Next(s, actions[0]), actions[1..]);
    }
  }

  ghost predicate Reachable(s: State) {
    exists actions :: IsRun(Initial(), actions) && s == After(Initial(), actions)
  }

  lemma ReachableStatesAreSound(s: State)
    requires Reachable(s)
    ensures Invariant(s)
  {
    var actions :| IsRun(Initial(), actions) && s == After(Initial(), actions);
    assert Invariant(Initial());
    RunKeepsInvariant(Initial(), actions);
  }

  /**
   * Safety, whoever failed or died in between: the rendezvous holds whole ids, each announced once;
   * a connected client's id was read by the server, its pair opened and its ready byte written;
   * no two live clients share a pair; no client was killed by SIGPIPE or read a wrong ready byte.
   */
  lemma HandshakeIsSafe(s: State, c: nat, d: nat)
    requires Reachable(s) && c < |s.clients| && d < |s.clients|
    ensures s.rendezvous == Flatten(s.queue) && IsQueue(s.queue)
    ensures s.clients[c].place.Connected? ==>
              var id := s.clients[c].id;
              id in s.sent && id in s.seen && id in s.paired && id in s.readied && id in s.claims && s.claims[id] == c
    ensures c != d && 2 <= Progress(s.clients[c].place) <= 11 && 2 <= Progress(s.clients[d].place) <= 11 ==>
              s.clients[c].id != s.clients[d].id
    ensures !s.clients[c].place.Killed? && s.clients[c].place != Failed(InvalidReady)
  {
    ReachableStatesAreSound(s);
    assert ClientTalksTruly(s, s.clients[c]) && OwnsItsName(s, c) && OwnsItsName(s, d);
  }

  /** The server writes at most one ready byte for an id, and only while it holds that id's pair. */
  lemma OneReadyByte(s: State, succeeds: bool)
    requires Reachable(s) && s.server.HasPair?
    ensures var id := s.server.id;
            && id in s.paired && id !in s.readied && s.Buffered(id) == []
            && (id in ServerNext(s, succeeds).readied ==> ServerNext(s, succeeds).Buffered(id) == [READY])
  {
    ReachableStatesAreSound(s);
  }

  /** Dropping an `accept` call in the middle loses no announcement. */
  lemma CancellingAcceptIsHarmless(s: State)
    requires Reachable(s) && s.server.Reading?
    ensures Next(s, CancelAccept) == s
  {
    ReachableStatesAreSound(s);
  }

  // ---------------------------------------------------------------- progress

  function ServerStepsLeft(server: ServerPlace): nat {
    match server
    case HasId(_) => 3
    case HasRequest(_) => 2
    case HasPair(_) => 1
    case _ => 0
  }

  /**
   * `accept` takes the oldest announcement whenever there is one, and then needs at most three
   * calls to be back, none of which waits for the client that announced itself.
   */
  lemma AcceptNeverWaitsOnAClient(s: State, succeeds: bool)
    requires Reachable(s)
    ensures s.server.Reading? && s.queue != [] ==>
              Enabled(s, ServerCall(succeeds)) && Next(s, ServerCall(succeeds)).server == HasId(s.queue[0])
              && Next(s, ServerCall(succeeds)).queue == s.queue[1..]
    ensures ServedId(s.server).Some? ==>
              Enabled(s, ServerCall(succeeds))
              && ServerStepsLeft(Next(s, ServerCall(succeeds)).server) < ServerStepsLeft(s.server)
              && Next(s, ServerCall(succeeds)).queue == s.queue
  {
    ReachableStatesAreSound(s);
    if s.server.Reading? && s.queue != [] {
      assert s.rendezvous != [];
      ReadTakesOneAnnouncement(s, succeeds);
    }
  }

  predicate IsWaiting(place: Place) {
    place.Waiting? || place.Probing?
  }

  /** How many more calls until the wait for the ready byte is decided, once the server is gone. */
  function CallsToGo(place: Place): nat {
    match place
    case Waiting => 2
    case Probing => 1
    case Polled => 1
    case _ => 0
  }

  /** A probe finds the rendezvous and somebody with a read end: the server, or a client that announces itself. */
  predicate ProbeSucceeds(s: State) {
    s.Exists(Connect) && s.HasReader(Connect)
  }

  /**
   * Once the server is gone, no call of a waiting client blocks, and each brings it closer to leaving
   * its loop, but for a probe that finds another client's announcement descriptor.
   */
  lemma DeadServerReleasesWaiters(s: State, c: nat, id: Id, pollReportsError: bool)
    requires Reachable(s) && IsGone(s)
    requires c < |s.clients| && IsWaiting(s.clients[c].place)
    ensures Enabled(s, ClientCall(c, id, pollReportsError))
    ensures var place := Next(s, ClientCall(c, id, pollReportsError)).clients[c].place;
            if s.clients[c].place.Probing? then place == if ProbeSucceeds(s) then Waiting else Failed(ServerGone)
            else if s.Buffered(s.clients[c].id) != [] then place == Polled
            else place == Probing || (place == Failed(ServerGone) && !s.HasReader(Connect))
  {
    ReachableStatesAreSound(s);
  }

  /** A client that saw the ready byte gets it even if the server has died since, without blocking. */
  lemma ReadyByteOutlivesServer(s: State, c: nat, id: Id, pollReportsError: bool)
    requires Reachable(s) && c < |s.clients| && s.clients[c].place.Polled?
    ensures Next(s, ClientCall(c, id, pollReportsError)).clients[c].place.Connected?
  {
    ReachableStatesAreSound(s);
    assert ClientTalksTruly(s, s.clients[c]);
  }

  /**
   * What a client that got as far as waiting can still expect once the server is gone. `Saved`: it will
   * poll with the ready byte buffered, or already has. `Undecided`: the byte came after its last poll,
   * and the probe it is about to make decides. `Lost`: it waits for a byte nobody will write any more,
   * or has been refused. `Out`: it died or gave up on its own.
   */
  datatype Fate = Saved | Undecided | Lost | Out

  function FateOf(s: State, c: nat): Fate
    requires c < |s.clients| && Progress(s.clients[c].place) >= 8
  {
    var client := s.clients[c];
    match client.place
    case Waiting => if s.Buffered(client.id) != [] then Saved else Lost
    case Probing => if s.Buffered(client.id) != [] then Undecided else Lost
    case Polled => Saved
    case Connected => Saved
    case Failed(reason) => if reason.ServerGone? then Lost else Out
    case _ => Out
  }

  predicate Spares(a: Action, c: nat) {
    !(a.ClientDies? && a.c == c) && !(a.ClientFails? && a.c == c)
  }

  predicate IsOwnCall(a: Action, c: nat) {
    a.ClientCall? && a.c == c
  }

  /** Only a call of its own changes what an undecided client can expect. */
  function FateAfterStep(s: State, a: Action, c: nat): Fate
    requires c < |s.clients| && Progress(s.clients[c].place) >= 8
  {
    if FateOf(s, c).Undecided? && IsOwnCall(a, c) then if ProbeSucceeds(s) then Saved else Lost else FateOf(s, c)
  }

  ghost predicate FateFollows(s: State, a: Action, next: State, c: nat)
    requires c < |s.clients| && Progress(s.clients[c].place) >= 8
  {
    && IsGone(next) && c < |next.clients| && Progress(next.clients[c].place) >= 8
    && (FateOf(next, c) == FateAfterStep(s, a, c) || FateOf(next, c).Out?)
    && (Spares(a, c) && !FateOf(s, c).Out? ==> !FateOf(next, c).Out?)
  }

  lemma OwnCallFollows(s: State, c: nat, id: Id, pollReportsError: bool)
    requires Invariant(s) && IsGone(s) && Enabled(s, ClientCall(c, id, pollReportsError)) && Progress(s.clients[c].place) >= 8
    ensures FateFollows(s, ClientCall(c, id, pollReportsError), Next(s, ClientCall(c, id, pollReportsError)), c)
  {
    assert ClientTalksTruly(s, s.clients[c]);
    if s.clients[c].place.Polled? {
      PolledConnects(s, c, id, pollReportsError);
    } else {
      WaitingCallFollows(s, c, id, pollReportsError);
    }
  }

  lemma PolledConnects(s: State, c: nat, id: Id, pollReportsError: bool)
    requires c < |s.clients| && s.clients[c].place.Polled? && s.Buffered(s.clients[c].id) == [READY]
    ensures var next := Next(s, ClientCall(c, id, pollReportsError));
            next.server == s.server && |next.clients| == |s.clients| && next.clients[c].place.Connected?
  {
  }

  lemma WaitingCallFollows(s: State, c: nat, id: Id, pollReportsError: bool)
    requires IsGone(s) && c < |s.clients| && IsWaiting(s.clients[c].place)
    ensures FateFollows(s, ClientCall(c, id, pollReportsError), Next(s, ClientCall(c, id, pollReportsError)), c)
  {
    assert CallOutcome(s, s.clients[c], id, pollReportsError).effect.Silent?;
  }

  lemma OwnStepFollows(s: State, a: Action)
    requires Invariant(s) && IsGone(s) && Enabled(s, a) && IsClientAction(a) && Progress(s.clients[a.c].place) >= 8
    ensures FateFollows(s, a, Next(s, a), a.c)
  {
    if a.ClientCall? {
      OwnCallFollows(s, a.c, a.id, a.pollReportsError);
    } else {
      ClientWritesHaveAReader(s, a.c);
    }
  }

  lemma OthersStepFollows(s: State, a: Action, c: nat)
    requires Invariant(s) && IsGone(s) && Enabled(s, a) && IsClientAction(a) && c < |s.clients| && a.c != c
    requires Progress(s.clients[c].place) >= 8
    ensures FateFollows(s, a, Next(s, a), c)
  {
    OthersStay(s, a, c);
    if Progress(s.clients[c].place) <= 11 {
      ClientsMoveForward(s, a);
      ForwardKeepsOthersBuffer(s, a.c, OutcomeOf(s, a), c);
    }
    SamePlaceFollows(s, a, Next(s, a), c);
  }

  lemma OthersStay(s: State, a: Action, c: nat)
    requires Enabled(s, a) && IsClientAction(a) && c < |s.clients| && a.c != c
    ensures Next(s, a).server == s.server && |Next(s, a).clients| == |s.clients| && Next(s, a).clients[c] == s.clients[c]
  {
  }

  lemma SamePlaceFollows(s: State, a: Action, next: State, c: nat)
    requires IsGone(s) && next.server == s.server && c < |s.clients| == |next.clients| && next.clients[c] == s.clients[c]
    requires IsWaiting(s.clients[c].place) ==> next.Buffered(s.clients[c].id) == s.Buffered(s.clients[c].id)
    requires !IsOwnCall(a, c) && Progress(s.clients[c].place) >= 8
    ensures FateFollows(s, a, next, c)
  {
  }

  lemma ForwardKeepsOthersBuffer(s: State, c: nat, outcome: Outcome, d: nat)
    requires NamesAreOwned(s) && c < |s.clients| && d < |s.clients| && c != d
    requires IsForward(s, s.clients[c], outcome) && 2 <= Progress(s.clients[d].place) <= 11
    ensures Apply(s, c, outcome).clients[d] == s.clients[d]
    ensures Apply(s, c, outcome).Buffered(s.clients[d].id) == s.Buffered(s.clients[d].id)
  {
    if 2 <= Progress(s.clients[c].place) <= 11 {
      LiveIdsDiffer(s, c, d);
    }
  }

  lemma ServerStepFollows(s: State, a: Action, c: nat)
    requires IsGone(s) && Enabled(s, a) && c < |s.clients| && !IsClientAction(a) && Progress(s.clients[c].place) >= 8
    ensures FateFollows(s, a, Next(s, a), c)
  {
  }

  /** Once the server is gone, only a probe of its own decides about a client, and only if the byte is there already. */
  lemma StepFollows(s: State, a: Action, c: nat)
    requires Invariant(s) && IsGone(s) && Enabled(s, a) && c < |s.clients| && Progress(s.clients[c].place) >= 8
    ensures FateFollows(s, a, Next(s, a), c)
  {
    if !IsClientAction(a) {
      ServerStepFollows(s, a, c);
    } else if a.c == c {
      OwnStepFollows(s, a);
    } else {
      OthersStepFollows(s, a, c);
    }
  }

  /** The next call of client `c` is made while a probe succeeds. */
  ghost predicate NextCallSucceeds(s: State, actions: seq<Action>, c: nat)
    requires IsRun(s, actions)
    decreases |actions|
  {
    actions != [] && if IsOwnCall(actions[0], c) then ProbeSucceeds(s) else NextCallSucceeds(Next(s, actions[0]), actions[1..], c)
  }

  ghost predicate SeesTheByte(s: State, actions: seq<Action>, c: nat)
    requires IsRun(s, actions) && c < |s.clients| && Progress(s.clients[c].place) >= 8
  {
    FateOf(s, c).Saved? || (FateOf(s, c).Undecided? && NextCallSucceeds(s, actions, c))
  }

  /** The run decides what the client ends with. */
  ghost predicate FateFollowsRun(s: State, actions: seq<Action>, c: nat, end: State)
    requires IsRun(s, actions) && c < |s.clients| && Progress(s.clients[c].place) >= 8
  {
    && c < |end.clients| && Progress(end.clients[c].place) >= 8
    && (FateOf(end, c).Saved? ==> SeesTheByte(s, actions, c))
    && (FateOf(end, c).Lost? ==> !SeesTheByte(s, actions, c))
    && (FateOf(s, c).Out? ==> FateOf(end, c).Out?)
    && (AllSpare(actions, c) && !FateOf(s, c).Out? ==> !FateOf(end, c).Out?)
  }

  ghost predicate AllSpare(actions: seq<Action>, c: nat) {
    forall a :: a in actions ==> Spares(a, c)
  }

  lemma {:induction false} RunFollows(s: State, actions: seq<Action>, c: nat)
    requires Invariant(s) && IsGone(s) && c < |s.clients| && Progress(s.clients[c].place) >= 8 && IsRun(s, actions)
    ensures FateFollowsRun(s, actions, c, After(s, actions))
    decreases |actions|
  {
    if actions != [] {
      var next := Next(s, actions[0]);
      StepFollows(s, actions[0], c);
      InvariantStays(s, actions[0]);
      RunFollows(next, actions[1..], c);
      StepThenRun(s, actions, c, next, After(s, actions));
    }
  }

  lemma StepThenRun(s: State, actions: seq<Action>, c: nat, next: State, end: State)
    requires IsRun(s, actions) && actions != [] && c < |s.clients| && Progress(s.clients[c].place) >= 8
    requires next == Next(s, actions[0])
    requires FateFollows(s, actions[0], next, c) && FateFollowsRun(next, actions[1..], c, end)
    ensures FateFollowsRun(s, actions, c, end)
  {
    assert AllSpare(actions, c) ==> Spares(actions[0], c) && AllSpare(actions[1..], c);
    assert NextCallSucceeds(s, actions, c) <==>
           if IsOwnCall(actions[0], c) then ProbeSucceeds(s) else NextCallSucceeds(next, actions[1..], c);
  }

  /**
   * How a client that waits when its server is gone ends, whatever else goes on: connected exactly if
   * it was about to poll with the ready byte buffered, or about to probe with it buffered and the
   * probe succeeded; refused exactly if neither. It ends in no other way unless it dies or fails itself.
   */
  lemma WaiterConnectsExactlyIfItSeesTheByte(s: State, actions: seq<Action>, c: nat)
    requires Reachable(s) && IsGone(s) && c < |s.clients| && IsWaiting(s.clients[c].place) && IsRun(s, actions)
    ensures c < |After(s, actions).clients|
    ensures var place := After(s, actions).clients[c].place;
            && (place.Connected? ==> SeesTheByte(s, actions, c))
            && (place == Failed(ServerGone) ==> !SeesTheByte(s, actions, c))
            && (CallsToGo(place) == 0 && AllSpare(actions, c) ==>
                  (place.Connected? <==> SeesTheByte(s, actions, c))
                  && (place == Failed(ServerGone) <==> !SeesTheByte(s, actions, c)))
  {
    ReachableStatesAreSound(s);
    RunFollows(s, actions, c);
  }

  /** The calls of client `c` in a run. */
  function OwnCalls(actions: seq<Action>, c: nat): nat {
    if actions == [] then 0 else (if IsOwnCall(actions[0], c) then 1 else 0) + OwnCalls(actions[1..], c)
  }

  /** A probe of client `c` that succeeds and sends it back to polling. */
  predicate IsReopening(s: State, a: Action, c: nat) {
    IsOwnCall(a, c) && c < |s.clients| && s.clients[c].place.Probing? && ProbeSucceeds(s)
  }

  ghost function Reopenings(s: State, actions: seq<Action>, c: nat): nat
    requires IsRun(s, actions)
    decreases |actions|
  {
    if actions == [] then 0
    else (if IsReopening(s, actions[0], c) then 1 else 0) + Reopenings(Next(s, actions[0]), actions[1..], c)
  }

  lemma StepBringsCloser(s: State, a: Action, c: nat)
    requires Invariant(s) && IsGone(s) && Enabled(s, a) && c < |s.clients| && Progress(s.clients[c].place) >= 8
    ensures c < |Next(s, a).clients|
    ensures CallsToGo(Next(s, a).clients[c].place) + (if IsOwnCall(a, c) then 1 else 0)
            <= CallsToGo(s.clients[c].place) + if IsReopening(s, a, c) then 2 else 0
  {
    if IsClientAction(a) {
      if a.c == c {
        assert ClientTalksTruly(s, s.clients[c]);
      } else {
        OthersStay(s, a, c);
      }
    }
  }

  /**
   * A waiter makes at most two calls once the server is gone, and two more for each of its probes
   * that found another client announcing itself: then it has left its loop, whatever the others do.
   */
  lemma {:induction false} WaiterLeavesItsLoop(s: State, actions: seq<Action>, c: nat)
    requires Invariant(s) && IsGone(s) && c < |s.clients| && Progress(s.clients[c].place) >= 8 && IsRun(s, actions)
    ensures c < |After(s, actions).clients|
    ensures OwnCalls(actions, c) + CallsToGo(After(s, actions).clients[c].place)
            <= CallsToGo(s.clients[c].place) + 2 * Reopenings(s, actions, c)
    decreases |actions|
  {
    if actions != [] {
      StepFollows(s, actions[0], c);
      StepBringsCloser(s, actions[0], c);
      InvariantStays(s, actions[0]);
      WaiterLeavesItsLoop(Next(s, actions[0]), actions[1..], c);
    }
  }

  /** The rendezvous is removed, or no client is between its first look at it and the end of its announcement. */
  ghost predicate NobodyCanAnnounce(s: State) {
    !s.Exists(Connect) || forall d: nat :: d < |s.clients| ==> !(1 <= Progress(s.clients[d].place) <= 7)
  }

  /** That stays so, and no probe succeeds. */
  lemma NobodyAnnouncesLater(s: State, a: Action)
    requires Invariant(s) && IsGone(s) && NobodyCanAnnounce(s) && Enabled(s, a)
    ensures !ProbeSucceeds(s) && NobodyCanAnnounce(Next(s, a))
  {
    NoProbeSucceeds(s);
    if !s.Exists(Connect) {
      StaysRemoved(s, a);
    } else if IsClientAction(a) {
      CallDoesNotAnnounce(s, a);
    } else {
      ServerLeavesNames(s, a);
    }
  }

  lemma StaysRemoved(s: State, a: Action)
    requires Enabled(s, a) && !s.Exists(Connect)
    ensures !Next(s, a).Exists(Connect)
  {
  }

  lemma CallDoesNotAnnounce(s: State, a: Action)
    requires Enabled(s, a) && IsClientAction(a) && !s.HasReader(Connect)
    requires !(1 <= Progress(s.clients[a.c].place) <= 7)
    ensures !(1 <= Progress(OutcomeOf(s, a).client.place) <= 7)
    ensures Next(s, a).clients == s.clients[a.c := OutcomeOf(s, a).client]
  {
  }

  lemma NoProbeSucceeds(s: State)
    requires Invariant(s) && IsGone(s) && NobodyCanAnnounce(s)
    ensures !ProbeSucceeds(s)
  {
    assert forall d: nat :: d < |s.clients| ==> HoldsItsFds(s.clients[d]);
  }

  lemma {:induction false} NothingReopens(s: State, actions: seq<Action>, c: nat)
    requires Invariant(s) && IsGone(s) && NobodyCanAnnounce(s) && c < |s.clients|
    requires Progress(s.clients[c].place) >= 8 && IsRun(s, actions)
    ensures !NextCallSucceeds(s, actions, c) && Reopenings(s, actions, c) == 0
    decreases |actions|
  {
    if actions != [] {
      NobodyAnnouncesLater(s, actions[0]);
      StepFollows(s, actions[0], c);
      InvariantStays(s, actions[0]);
      NothingReopens(Next(s, actions[0]), actions[1..], c);
    }
  }

  /**
   * From a state in which nobody can announce any more, every run releases a waiter within two calls:
   * connected exactly if it was about to poll with the ready byte buffered, refused exactly if not.
   */
  lemma WaiterConnectsExactlyIfAboutToPoll(s: State, actions: seq<Action>, c: nat)
    requires Reachable(s) && IsGone(s) && NobodyCanAnnounce(s)
    requires c < |s.clients| && IsWaiting(s.clients[c].place) && IsRun(s, actions)
    ensures c < |After(s, actions).clients| && OwnCalls(actions, c) <= 2
    ensures var place := After(s, actions).clients[c].place;
            var aboutToPoll := s.clients[c].place.Waiting? && s.Buffered(s.clients[c].id) != [];
            && (OwnCalls(actions, c) == 2 ==> CallsToGo(place) == 0)
            && (place.Connected? ==> aboutToPoll) && (place == Failed(ServerGone) ==> !aboutToPoll)
            && (CallsToGo(place) == 0 && AllSpare(actions, c) ==> place.Connected? || place == Failed(ServerGone))
  {
    ReachableStatesAreSound(s);
    NothingReopens(s, actions, c);
    WaiterLeavesItsLoop(s, actions, c);
    WaiterConnectsExactlyIfItSeesTheByte(s, actions, c);
  }

  // ---------------------------------------------------------------- a ready byte that comes too late

  lemma ReachableStep(s: State, a: Action)
    requires Reachable(s) && Enabled(s, a)
    ensures Reachable(Next(s, a))
  {
    var actions :| IsRun(Initial(), actions) && s == After(Initial(), actions);
    RunOn(Initial(), actions, a);
  }

  lemma {:induction false} RunOn(s: State, actions: seq<Action>, a: Action)
    requires IsRun(s, actions) && Enabled(After(s, actions), a)
    ensures IsRun(s, actions + [a]) && After(s, actions + [a]) == Next(After(s, actions), a)
    decreases |actions|
  {
    if actions == [] {
      assert actions + [a] == [a] && [a][1..] == [];
    } else {
      assert (actions + [a])[1..] == actions[1..] + [a];
      RunOn(Next(s, actions[0]), actions[1..], a);
    }
  }

  const ZERO: Id := seq(16, _ => 0)

  lemma OwnCall(s: State, place: Place) returns (next: State)
    requires Reachable(s) && Enabled(s, ClientCall(0, ZERO, false)) && |s.clients| == 1
    requires CallOutcome(s, s.clients[0], ZERO, false).client.place == place
    ensures Reachable(next) && next == Apply(s, 0, CallOutcome(s, s.clients[0], ZERO, false))
  {
    next := Next(s, ClientCall(0, ZERO, false));
    ReachableStep(s, ClientCall(0, ZERO, false));
  }

  /** A single client starts and makes its request. */
  lemma MakesItsRequest() returns (s: State)
    ensures Reachable(s)
    ensures s == Initial().(clients := [Client(ZERO, MadeRequest, Fds(true, false, false, false))], paths := {Connect, Request(ZERO)}, claims := map[ZERO := 0])
  {
    assert IsRun(Initial(), []) && After(Initial(), []) == Initial();
    ReachableStep(Initial(), NewClient);
    s := Next(Initial(), NewClient);
    s := OwnCall(s, Watching);
    s := OwnCall(s, MadeRequest);
  }

  /** It gets as far as opening its pair. */
  lemma OpensItsPair() returns (s: State)
    ensures Reachable(s)
    ensures s == Initial().(clients := [Client(ZERO, HoldsPair, Fds(true, true, true, false))],
                            paths := {Connect, Request(ZERO), Response(ZERO)}, claims := map[ZERO := 0])
  {
    s := MakesItsRequest();
    s := OwnCall(s, MadePair);
    s := OwnCall(s, HoldsRequest);
    s := OwnCall(s, HoldsPair);
  }

  /** It announces itself, polls once without news, and is about to probe. */
  lemma PollsWithoutNews() returns (s: State)
    ensures Reachable(s)
    ensures s == Initial().(clients := [Client(ZERO, Probing, Fds(true, true, true, false))],
                            paths := {Connect, Request(ZERO), Response(ZERO)}, claims := map[ZERO := 0],
                            rendezvous := ZERO, queue := [ZERO], sent := {ZERO})
  {
    s := OpensItsPair();
    s := OwnCall(s, Announcing);
    s := OwnCall(s, Announced);
    s := OwnCall(s, Waiting);
    s := OwnCall(s, Probing);
    assert [] + ZERO == ZERO;
  }

  lemma ServerCallSucceeds(s: State) returns (next: State)
    requires Reachable(s) && Enabled(s, ServerCall(true))
    ensures Reachable(next) && next == ServerNext(s, true)
  {
    next := Next(s, ServerCall(true));
    ReachableStep(s, ServerCall(true));
  }

  /** Meanwhile the server takes the announcement and opens the pair. */
  lemma ServerOpensThePair() returns (s: State)
    ensures Reachable(s) && s.server == HasPair(ZERO) && s.clients == [Client(ZERO, Probing, Fds(true, true, true, false))]
    ensures s.responses == map[] && s.paths == {Connect, Request(ZERO), Response(ZERO)} && !s.dirRemoved
  {
    s := PollsWithoutNews();
    assert [] + ZERO[..16] == ZERO;
    s := ServerCallSucceeds(s);
    s := ServerCallSucceeds(s);
    assert s.clients[0].fds.response;
    s := ServerCallSucceeds(s);
  }

  /**
   * A ready byte that comes between a poll and the probe after it is lost if the server dies at once:
   * the byte is in the client's FIFO, and the probe still refuses the client.
   */
  lemma ReadyByteCanComeTooLate() returns (s: State)
    ensures Reachable(s) && s.server.Dead? && NobodyCanAnnounce(s)
    ensures |s.clients| == 1 && s.clients[0].place.Probing? && s.Buffered(s.clients[0].id) == [READY]
    ensures forall id, reports :: Next(s, ClientCall(0, id, reports)).clients[0].place == Failed(ServerGone)
  {
    s := ServerOpensThePair();
    assert s.clients[0].fds.response;
    s := ServerCallSucceeds(s);
    ReachableStep(s, ServerDies);
    s := Next(s, ServerDies);
    assert !s.HasReader(Connect);
  }

  /** The byte is not lost if another client is about to announce itself and does so first. */
  lemma AnotherAnnouncementSavesAWaiter(s: State, c: nat, d: nat, id: Id, reports: bool)
    requires Reachable(s) && s.server.Dead? && s.Exists(Connect)
    requires c < |s.clients| && s.clients[c].place.Probing? && s.Buffered(s.clients[c].id) != []
    requires d < |s.clients| && s.clients[d].place.HoldsPair?
    ensures var next := Next(s, ClientCall(d, id, reports));
            && Enabled(next, ClientCall(c, id, reports)) && next.clients[c] == s.clients[c]
            && Next(next, ClientCall(c, id, reports)).clients[c].place.Waiting?
            && FateOf(Next(next, ClientCall(c, id, reports)), c).Saved?
  {
    ReachableStatesAreSound(s);
    var next := Next(s, ClientCall(d, id, reports));
    OthersStay(s, ClientCall(d, id, reports), c);
    assert next.clients[d].fds.announce;
    assert ProbeSucceeds(next) && next.responses == s.responses;
    OpenProbeSaves(next, c, id, reports);
  }

  lemma OpenProbeSaves(s: State, c: nat, id: Id, reports: bool)
    requires c < |s.clients| && s.clients[c].place.Probing? && s.Buffered(s.clients[c].id) != [] && ProbeSucceeds(s)
    ensures Enabled(s, ClientCall(c, id, reports))
    ensures var next := Next(s, ClientCall(c, id, reports));
            next.clients[c].place.Waiting? && FateOf(next, c).Saved?
  {
    var outcome := CallOutcome(s, s.clients[c], id, reports);
    assert outcome == Outcome(Client(s.clients[c].id, Waiting, s.clients[c].fds), Silent);
  }

  /** After the server died or closed a connection its client reads end of file; before that it does not. */
  lemma ConnectedClientSeesEndOfFile(s: State, c: nat)
    requires Reachable(s) && c < |s.clients| && s.clients[c].place.Connected?
    ensures var id := s.clients[c].id;
            && s.Buffered(id) == []
            && (!s.HasWriter(Response(id)) <==> s.server.Dead? || id in s.closed)
  {
    ReachableStatesAreSound(s);
    assert ClientTalksTruly(s, s.clients[c]);
  }
}
