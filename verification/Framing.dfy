/** Length-prefixed request frames, and what of them survives a client that dies at any byte. */
module Framing {
  import opened Wrappers

  const LIMIT: nat := 0x1_0000_0000

  // ---------------------------------------------------------------- the length prefix

  function EncodeLength(n: nat): (bytes: seq<Byte>)
    requires n < LIMIT
    ensures |bytes| == 4
  {
    [n % 256, n / 256 % 256, n / 256 / 256 % 256, n / 256 / 256 / 256]
  }

  function DecodeLength(bytes: seq<Byte>): (n: nat)
    requires |bytes| == 4
    ensures n < LIMIT
  {
    var a: nat, b: nat, c: nat, d: nat := bytes[0], bytes[1], bytes[2], bytes[3];
    a + 256 * (b + 256 * (c + 256 * d))
  }

  /** The prefix and the length determine each other. */
  lemma LengthRoundTrip(n: nat, bytes: seq<Byte>)
    requires n < LIMIT && |bytes| == 4
    ensures DecodeLength(EncodeLength(n)) == n
    ensures EncodeLength(DecodeLength(bytes)) == bytes
  {
    var a: nat, b: nat, c: nat, d: nat := bytes[0], bytes[1], bytes[2], bytes[3];
    Digits(a, b + 256 * (c + 256 * d));
    Digits(b, c + 256 * d);
    Digits(c, d);
  }

  /** The prefix of a length is the four bytes that weigh it up, the lightest first. */
  lemma LightestByteFirst(n: nat, bytes: seq<Byte>)
    requires n < LIMIT && |bytes| == 4
    ensures bytes == EncodeLength(n) <==>
            bytes[0] as int + bytes[1] as int * 0x100 + bytes[2] as int * 0x1_0000 + bytes[3] as int * 0x100_0000 == n
  {
    LengthRoundTrip(n, bytes);
  }

  lemma Digits(low: nat, high: nat)
    requires low < 256
    ensures (low + 256 * high) % 256 == low && (low + 256 * high) / 256 == high
  {
  }

  // ---------------------------------------------------------------- frames

  /** Requests that want a reply are round trips; the others are fire-and-forget. */
  datatype Request =
    | IgnoreInput(path: string)
    | IgnoreOutput(path: string)
    | GetEnv(name: string, tracked: bool)
    | GetEnvs(query: EnvQuery, tracked: bool)
    | DisableCache
  {
    predicate IsRoundTrip() {
      GetEnv? || GetEnvs?
    }
  }

  datatype EnvQuery = Glob(pattern: string) | Prefix(prefix: string)

  /**
   * The serializer, and which requests the handler takes: it refuses a path that is not absolute
   * and a glob that does not parse.
   */
  datatype Protocol = Protocol(encode: Request -> seq<Byte>, decode: seq<Byte> -> Option<Request>, accepts: Request -> bool) {
    ghost predicate Valid() {
      forall r :: decode(encode(r)) == Some(r)
    }
  }

  /** Requests too large for the prefix are refused before anything is written. */
  predicate IsSendable(p: Protocol, r: Request) {
    |p.encode(r)| < LIMIT
  }

  predicate AreSendable(p: Protocol, rs: seq<Request>) {
    forall r :: r in rs ==> IsSendable(p, r)
  }

  function Frame(p: Protocol, r: Request): (frame: seq<Byte>)
    requires IsSendable(p, r)
    ensures |frame| == 4 + |p.encode(r)|
  {
    EncodeLength(|p.encode(r)|) + p.encode(r)
  }

  function Frames(p: Protocol, rs: seq<Request>): seq<Byte>
    requires AreSendable(p, rs)
  {
    if rs == [] then [] else Frame(p, rs[0]) + Frames(p, rs[1..])
  }

  lemma {:induction false} FramesAppend(p: Protocol, rs: seq<Request>, r: Request)
    requires AreSendable(p, rs) && IsSendable(p, r)
    ensures AreSendable(p, rs + [r])
    ensures Frames(p, rs + [r]) == Frames(p, rs) + Frame(p, r)
  {
    if rs == [] {
      assert rs + [r] == [r] && [r][1..] == [];
      assert Frames(p, [r]) == Frame(p, r) + [];
    } else {
      assert (rs + [r])[1..] == rs[1..] + [r];
      FramesAppend(p, rs[1..], r);
    }
  }

  lemma {:induction false} FramesSplit(p: Protocol, rs: seq<Request>, k: nat)
    requires AreSendable(p, rs) && k <= |rs|
    ensures Frames(p, rs) == Frames(p, rs[..k]) + Frames(p, rs[k..])
  {
    if k > 0 {
      FramesSplit(p, rs[1..], k - 1);
      assert rs[..k][1..] == rs[1..][..k - 1];
      assert rs[k..] == rs[1..][k - 1..];
    } else {
      assert rs[..0] == [] && rs[0..] == rs;
    }
  }

  /** The payload of the first frame and what follows it, or nothing if the bytes end inside it. */
  function ReadFrame(bytes: seq<Byte>): (r: Option<(seq<Byte>, seq<Byte>)>)
    ensures r.Some? ==> |r.value.1| + 4 <= |bytes|
  {
    if |bytes| < 4 then None
    else
      var n := DecodeLength(bytes[..4]);
      if |bytes| < 4 + n then None else Some((bytes[4..4 + n], bytes[4 + n..]))
  }

  lemma ReadsFirstFrame(p: Protocol, r: Request, rest: seq<Byte>)
    requires IsSendable(p, r)
    ensures ReadFrame(Frame(p, r) + rest) == Some((p.encode(r), rest))
  {
    LengthRoundTrip(|p.encode(r)|, [0, 0, 0, 0]);
    var bytes := Frame(p, r) + rest;
    assert bytes[..4] == EncodeLength(|p.encode(r)|);
    assert bytes[4..|Frame(p, r)|] == p.encode(r);
    assert bytes[|Frame(p, r)|..] == rest;
  }

  lemma PartialFrameIsNoFrame(p: Protocol, r: Request, n: nat)
    requires IsSendable(p, r) && n < |Frame(p, r)|
    ensures ReadFrame(Frame(p, r)[..n]) == None
  {
    LengthRoundTrip(|p.encode(r)|, [0, 0, 0, 0]);
    var part := Frame(p, r)[..n];
    if n >= 4 {
      assert part[..4] == EncodeLength(|p.encode(r)|);
    }
  }

  datatype Violation = InvalidRequest | Rejected(r: Request)

  /** What the handler was given, and how the stream ended: cleanly, or with a protocol violation. */
  datatype Outcome = Outcome(processed: seq<Request>, violation: Option<Violation>)

  /** Reads frames until the bytes end; a frame that does not decode or is refused ends the stream early. */
  method HandleStream(p: Protocol, stream: seq<Byte>) returns (o: Outcome)
    ensures o == Served(p, stream)
  {
    var processed := [];
    var rest := stream;
    while true
      invariant Served(p, stream) == Prepend(processed, Served(p, rest))
      decreases |rest|
    {
      var frame := ReadFrame(rest);
      if frame.None? {
        assert processed + [] == processed;
        return Outcome(processed, None);
      }
      var request := p.decode(frame.value.0);
      if request.None? {
        assert processed + [] == processed;
        return Outcome(processed, Some(InvalidRequest));
      }
      if !p.accepts(request.value) {
        assert processed + [] == processed;
        return Outcome(processed, Some(Rejected(request.value)));
      }
      assert forall more: seq<Request> :: processed + ([request.value] + more) == processed + [request.value] + more;
      processed := processed + [request.value];
      rest := frame.value.1;
    }
    assert false;
  }

  function Prepend(rs: seq<Request>, o: Outcome): Outcome {
    o.(processed := rs + o.processed)
  }

  function Served(p: Protocol, stream: seq<Byte>): Outcome
    decreases |stream|
  {
    match ReadFrame(stream)
    case None => Outcome([], None)
    case Some((payload, rest)) =>
      match p.decode(payload)
      case None => Outcome([], Some(InvalidRequest))
      case Some(r) => if p.accepts(r) then Prepend([r], Served(p, rest)) else Outcome([], Some(Rejected(r)))
  }

  /** How many whole frames fit into the first `n` bytes. */
  function Complete(p: Protocol, rs: seq<Request>, n: nat): (k: nat)
    requires AreSendable(p, rs)
    ensures k <= |rs| && |Frames(p, rs[..k])| <= n
    ensures k < |rs| ==> n < |Frames(p, rs[..k])| + |Frame(p, rs[k])|
  {
    if rs == [] || n < |Frame(p, rs[0])| then 0
    else
      var k := 1 + Complete(p, rs[1..], n - |Frame(p, rs[0])|);
      assert rs[..k][1..] == rs[1..][..k - 1];
      k
  }

  /** The index of the first request the handler refuses. */
  function FirstRejected(p: Protocol, rs: seq<Request>): (k: nat)
    ensures k <= |rs| && (forall i :: 0 <= i < k ==> p.accepts(rs[i]))
    ensures k < |rs| ==> !p.accepts(rs[k])
  {
    if rs == [] || !p.accepts(rs[0]) then 0 else 1 + FirstRejected(p, rs[1..])
  }

  /** What the handler gets of a list of whole requests: those before the first it refuses. */
  function Verdict(p: Protocol, whole: seq<Request>): Outcome {
    var k := FirstRejected(p, whole);
    Outcome(whole[..k], if k < |whole| then Some(Rejected(whole[k])) else None)
  }

  lemma VerdictStep(p: Protocol, r: Request, tail: seq<Request>)
    ensures Verdict(p, [r] + tail) ==
            if p.accepts(r) then Prepend([r], Verdict(p, tail)) else Outcome([], Some(Rejected(r)))
  {
    assert ([r] + tail)[1..] == tail;
    var k := FirstRejected(p, [r] + tail);
    if p.accepts(r) {
      assert ([r] + tail)[..k] == [r] + tail[..k - 1];
    }
  }

  lemma ServedStep(p: Protocol, r: Request, rest: seq<Byte>)
    requires p.Valid() && IsSendable(p, r)
    ensures Served(p, Frame(p, r) + rest) ==
            if p.accepts(r) then Prepend([r], Served(p, rest)) else Outcome([], Some(Rejected(r)))
  {
    ReadsFirstFrame(p, r, rest);
  }

  /**
   * Whatever prefix of its requests a client got out, the server takes exactly the whole ones, in
   * order, up to the first the handler refuses; a torn frame ends the stream cleanly.
   */
  lemma {:induction false} PrefixServesCompleteRequests(p: Protocol, rs: seq<Request>, n: nat)
    requires p.Valid() && AreSendable(p, rs) && n <= |Frames(p, rs)|
    ensures Served(p, Frames(p, rs)[..n]) == Verdict(p, rs[..Complete(p, rs, n)])
  {
    if rs != [] {
      var first := Frame(p, rs[0]);
      var stream := Frames(p, rs)[..n];
      if n < |first| {
        assert stream == first[..n];
        PartialFrameIsNoFrame(p, rs[0], n);
      } else {
        var others, left := rs[1..], n - |first|;
        FirstBytes(p, rs, n);
        FirstRequests(p, rs, n);
        PrefixServesCompleteRequests(p, others, left);
        ServedInFront(p, rs[0], Frames(p, others)[..left], others[..Complete(p, others, left)], stream, rs[..Complete(p, rs, n)]);
      }
    }
  }

  lemma ServedInFront(p: Protocol, r: Request, rest: seq<Byte>, tail: seq<Request>, stream: seq<Byte>, whole: seq<Request>)
    requires p.Valid() && IsSendable(p, r) && Served(p, rest) == Verdict(p, tail)
    requires stream == Frame(p, r) + rest && whole == [r] + tail
    ensures Served(p, stream) == Verdict(p, whole)
  {
    ServedStep(p, r, rest);
    VerdictStep(p, r, tail);
  }

  lemma FirstBytes(p: Protocol, rs: seq<Request>, n: nat)
    requires AreSendable(p, rs) && rs != [] && |Frame(p, rs[0])| <= n <= |Frames(p, rs)|
    ensures AreSendable(p, rs[1..])
    ensures Frames(p, rs)[..n] == Frame(p, rs[0]) + Frames(p, rs[1..])[..n - |Frame(p, rs[0])|]
  {
    TakeOfConcat(Frame(p, rs[0]), Frames(p, rs[1..]), n);
  }

  lemma FirstRequests(p: Protocol, rs: seq<Request>, n: nat)
    requires AreSendable(p, rs) && rs != [] && |Frame(p, rs[0])| <= n
    ensures rs[..Complete(p, rs, n)] == [rs[0]] + rs[1..][..Complete(p, rs[1..], n - |Frame(p, rs[0])|)]
  {
    var k := Complete(p, rs[1..], n - |Frame(p, rs[0])|);
    assert Complete(p, rs, n) == 1 + k;
    TakeOfConcat([rs[0]], rs[1..], 1 + k);
    assert rs == [rs[0]] + rs[1..];
  }

  lemma TakeOfConcat<T>(a: seq<T>, b: seq<T>, n: nat)
    requires |a| <= n <= |a| + |b|
    ensures (a + b)[..n] == a + b[..n - |a|]
  {
  }

  // ---------------------------------------------------------------- one client and the server together

  datatype ClientPlace = Ready | Writing | Awaiting | Gone
  datatype ServerPlace = Reading | Replying | Ended | Failed

  /**
   * `issued` are the requests that left the client whole, and `pending` the one of which only the
   * first `written` bytes did; `sent` is everything written, of which the server consumed `taken` bytes.
   */
  datatype State = State(
    client: ClientPlace,
    issued: seq<Request>,
    pending: Option<Request>,
    written: nat,
    sent: seq<Byte>,
    server: ServerPlace,
    taken: nat,
    processed: seq<Request>)

  datatype Action =
    | Send(r: Request)
    | Write(n: nat)
    | Receive
    | Die
    | Serve
    | Reply(delivered: bool)

  function Initial(): State {
    State(Ready, [], None, 0, [], Reading, 0, [])
  }

  /** How many processed requests have their reply, if they want one, in the stream. */
  function Answered(s: State): nat {
    if s.server.Replying? && s.processed != [] then |s.processed| - 1 else |s.processed|
  }

  predicate IsPending(p: Protocol, s: State) {
    s.pending.Some? && IsSendable(p, s.pending.value) && s.written < |Frame(p, s.pending.value)|
  }

  /** A write goes through even if the server has stopped reading; a reply fails only towards a client that is gone. */
  predicate Enabled(p: Protocol, s: State, a: Action) {
    match a
    case Send(r) => s.client.Ready? && IsSendable(p, r)
    case Write(n) =>
      s.client.Writing? && IsPending(p, s) && 0 < n <= |Frame(p, s.pending.value)| - s.written
    case Receive => s.client.Awaiting? && Answered(s) >= |s.issued|
    case Die => !s.client.Gone?
    case Serve =>
      s.server.Reading? && s.taken <= |s.sent|
      && (match ReadFrame(s.sent[s.taken..])
          case Some((payload, _)) => p.decode(payload).Some?
          case None => s.client.Gone?)
    case Reply(delivered) => s.server.Replying? && (delivered || s.client.Gone?)
  }

  function AfterWrite(p: Protocol, s: State, n: nat): State
    requires Enabled(p, s, Write(n))
  {
    var r := s.pending.value;
    var sent := s.sent + Frame(p, r)[s.written..s.written + n];
    if s.written + n < |Frame(p, r)| then s.(sent := sent, written := s.written + n)
    else s.(sent := sent, issued := s.issued + [r], pending := None, client := if r.IsRoundTrip() then Awaiting else Ready)
  }

  function AfterServe(p: Protocol, s: State): State
    requires Enabled(p, s, Serve)
  {
    match ReadFrame(s.sent[s.taken..])
    case None => s.(server := Ended)
    case Some((payload, rest)) =>
      var r := p.decode(payload).value;
      if !p.accepts(r) then s.(server := Failed)
      else
        s.(taken := |s.sent| - |rest|, processed := s.processed + [r],
           server := if r.IsRoundTrip() then Replying else Reading)
  }

  function Next(p: Protocol, s: State, a: Action): State
    requires Enabled(p, s, a)
  {
    match a
    case Send(r) => s.(client := Writing, pending := Some(r), written := 0)
    case Write(n) => AfterWrite(p, s, n)
    case Receive => s.(client := Ready)
    case Die => s.(client := Gone)
    case Serve => AfterServe(p, s)
    case Reply(delivered) => s.(server := if delivered then Reading else Ended)
  }

  /** The bytes written are the whole frames and the written part of the pending one. */
  ghost predicate HasSent(p: Protocol, s: State) {
    && AreSendable(p, s.issued)
    && (s.pending.Some? ==> IsPending(p, s))
    && s.sent == Frames(p, s.issued) + Part(p, s)
  }

  function Part(p: Protocol, s: State): seq<Byte> {
    if IsPending(p, s) then Frame(p, s.pending.value)[..s.written] else []
  }

  ghost predicate HasTaken(p: Protocol, s: State) {
    && s.processed <= s.issued && AreSendable(p, s.processed)
    && s.taken <= |s.sent| && s.sent[..s.taken] == Frames(p, s.processed)
  }

  /** Nothing follows a round trip that has not been answered. */
  ghost predicate IsSynchronous(s: State) {
    && (forall i :: 0 <= i < |s.issued| && s.issued[i].IsRoundTrip() && (i < |s.issued| - 1 || s.pending.Some? || s.client.Ready?) ==>
          i < Answered(s))
    && (s.client.Ready? || s.client.Awaiting? ==> s.pending.None?)
    && (s.client.Writing? ==> s.pending.Some?)
    && (s.server.Replying? ==>
          s.processed != [] && s.processed == s.issued && s.pending.None? && (s.client.Awaiting? || s.client.Gone?))
  }

  ghost predicate EndsRight(p: Protocol, s: State) {
    && (forall r :: r in s.processed ==> p.accepts(r))
    && (s.server.Ended? ==> s.client.Gone? && s.processed == s.issued)
    && (s.server.Failed? ==> |s.processed| < |s.issued| && !p.accepts(s.issued[|s.processed|]))
  }

  ghost predicate Invariant(p: Protocol, s: State) {
    HasSent(p, s) && HasTaken(p, s) && IsSynchronous(s) && EndsRight(p, s)
  }

  lemma Unread(p: Protocol, s: State)
    requires HasSent(p, s) && HasTaken(p, s)
    ensures s.sent[s.taken..] == Frames(p, s.issued[|s.processed|..]) + Part(p, s)
  {
    FramesSplit(p, s.issued, |s.processed|);
    assert s.processed == s.issued[..|s.processed|];
    assert s.sent == Frames(p, s.processed) + (Frames(p, s.issued[|s.processed|..]) + Part(p, s));
  }

  /** When all whole requests are processed the server finds no frame. */
  lemma NothingToServe(p: Protocol, s: State)
    requires HasSent(p, s) && HasTaken(p, s) && |s.processed| == |s.issued|
    ensures ReadFrame(s.sent[s.taken..]) == None
  {
    Unread(p, s);
    assert s.sent[s.taken..] == Part(p, s);
    if s.pending.Some? {
      PartialFrameIsNoFrame(p, s.pending.value, s.written);
    }
  }

  /** Otherwise it finds the oldest whole request it has not processed. */
  lemma NextToServe(p: Protocol, s: State) returns (r: Request, rest: seq<Byte>)
    requires p.Valid() && HasSent(p, s) && HasTaken(p, s) && |s.processed| < |s.issued|
    ensures r == s.issued[|s.processed|] && IsSendable(p, r)
    ensures ReadFrame(s.sent[s.taken..]) == Some((p.encode(r), rest))
    ensures s.sent[s.taken..] == Frame(p, r) + rest
  {
    Unread(p, s);
    var unread := s.issued[|s.processed|..];
    r := unread[0];
    assert r in s.issued;
    rest := Frames(p, unread[1..]) + Part(p, s);
    assert Frames(p, unread) + Part(p, s) == Frame(p, r) + rest;
    ReadsFirstFrame(p, r, rest);
  }

  lemma WriteKeepsSent(p: Protocol, s: State, n: nat)
    requires HasSent(p, s) && Enabled(p, s, Write(n))
    ensures HasSent(p, Next(p, s, Write(n)))
  {
    var r := s.pending.value;
    var frame, next := Frame(p, r), Next(p, s, Write(n));
    var whole := Frames(p, s.issued);
    AppendSlice(whole, frame, s.written, n);
    assert next.sent == whole + frame[..s.written + n];
    if s.written + n == |frame| {
      FramesAppend(p, s.issued, r);
      assert frame[..|frame|] == frame && next.issued == s.issued + [r] && Part(p, next) == [];
      assert next.sent + [] == next.sent;
    } else {
      assert next.issued == s.issued && Part(p, next) == frame[..s.written + n];
    }
  }

  lemma AppendSlice<T>(a: seq<T>, b: seq<T>, i: nat, n: nat)
    requires i + n <= |b|
    ensures a + b[..i] + b[i..i + n] == a + b[..i + n]
  {
    assert b[..i] + b[i..i + n] == b[..i + n];
  }

  lemma ClientStepKeepsInvariant(p: Protocol, s: State, a: Action)
    requires Invariant(p, s) && Enabled(p, s, a) && !a.Serve? && !a.Reply?
    ensures Invariant(p, Next(p, s, a))
  {
    if a.Write? {
      WriteKeepsSent(p, s, a.n);
      assert Next(p, s, a).sent[..s.taken] == s.sent[..s.taken];
    }
  }

  lemma ConsumedIs(sent: seq<Byte>, taken: nat, frame: seq<Byte>, rest: seq<Byte>)
    requires taken <= |sent| && sent[taken..] == frame + rest
    ensures |rest| <= |sent| && sent[..|sent| - |rest|] == sent[..taken] + frame
  {
    assert sent == sent[..taken] + frame + rest;
  }

  lemma ServeAdvances(p: Protocol, s: State)
    requires p.Valid() && HasSent(p, s) && HasTaken(p, s) && Enabled(p, s, Serve) && |s.processed| < |s.issued|
    ensures var next := Next(p, s, Serve);
            var r := s.issued[|s.processed|];
            && HasTaken(p, next)
            && next == if p.accepts(r)
                       then s.(taken := next.taken, processed := s.processed + [r],
                               server := if r.IsRoundTrip() then Replying else Reading)
                       else s.(server := Failed)
  {
    var r, rest := NextToServe(p, s);
    var next := Next(p, s, Serve);
    FramesAppend(p, s.processed, r);
    if p.accepts(r) {
      ConsumedIs(s.sent, s.taken, Frame(p, r), rest);
      assert next.processed == s.issued[..|next.processed|];
    }
  }

  lemma ServeKeepsInvariant(p: Protocol, s: State)
    requires p.Valid() && Invariant(p, s) && Enabled(p, s, Serve)
    ensures Invariant(p, Next(p, s, Serve))
  {
    if |s.processed| == |s.issued| {
      NothingToServe(p, s);
    } else {
      ServeAdvances(p, s);
      assert HasSent(p, Next(p, s, Serve));
    }
  }

  lemma StepKeepsInvariant(p: Protocol, s: State, a: Action)
    requires p.Valid() && Invariant(p, s) && Enabled(p, s, a)
    ensures Invariant(p, Next(p, s, a))
  {
    if a.Serve? {
      ServeKeepsInvariant(p, s);
    } else if !a.Reply? {
      ClientStepKeepsInvariant(p, s, a);
    }
  }

  predicate IsRun(p: Protocol, s: State, actions: seq<Action>)
    decreases |actions|
  {
    actions == [] || (Enabled(p, s, actions[0]) && IsRun(p, Next(p, s, actions[0]), actions[1..]))
  }

  function After(p: Protocol, s: State, actions: seq<Action>): State
    requires IsRun(p, s, actions)
    decreases |actions|
  {
    if actions == [] then s else After(p, Next(p, s, actions[0]), actions[1..])
  }

  lemma {:induction false} RunKeepsInvariant(p: Protocol, s: State, actions: seq<Action>)
    requires p.Valid() && Invariant(p, s) && IsRun(p, s, actions)
    ensures Invariant(p, After(p, s, actions))
    decreases |actions|
  {
    if actions != [] {
      StepKeepsInvariant(p, s, actions[0]);
      RunKeepsInvariant(p, Next(p, s, actions[0]), actions[1..]);
    }
  }

  /**
   * In every run the server processed an initial part of what left the client whole. A stream that
   * ended cleanly, at end of file or early on a broken pipe, lost nothing; one that failed stopped
   * at a request the handler refuses.
   */
  lemma NoWholeRequestIsLost(p: Protocol, actions: seq<Action>)
    requires p.Valid() && IsRun(p, Initial(), actions)
    ensures var s := After(p, Initial(), actions);
            && s.processed <= s.issued
            && (s.server.Ended? ==> s.processed == s.issued)
            && (s.server.Failed? ==> |s.processed| < |s.issued| && !p.accepts(s.issued[|s.processed|]))
  {
    RunKeepsInvariant(p, Initial(), actions);
  }

  /** A reading server can always go on, or has processed everything a live client sent. */
  lemma ServerNeverSticks(p: Protocol, actions: seq<Action>)
    requires p.Valid() && IsRun(p, Initial(), actions)
    ensures var s := After(p, Initial(), actions);
            s.server.Reading? ==> (Enabled(p, s, Serve) <==> s.client.Gone? || |s.processed| < |s.issued|)
  {
    RunKeepsInvariant(p, Initial(), actions);
    var s := After(p, Initial(), actions);
    if |s.processed| == |s.issued| {
      NothingToServe(p, s);
    } else {
      var r, rest := NextToServe(p, s);
    }
  }

  /** A client that waits for a reply waits for the last request it sent, and nothing of it is left to write. */
  lemma WaitingClientIsServedLast(p: Protocol, actions: seq<Action>)
    requires p.Valid() && IsRun(p, Initial(), actions)
    ensures var s := After(p, Initial(), actions);
            s.server.Replying? ==> s.processed == s.issued && s.taken == |s.sent|
  {
    RunKeepsInvariant(p, Initial(), actions);
    var s := After(p, Initial(), actions);
    if s.server.Replying? {
      assert s.sent == Frames(p, s.issued);
    }
  }

  // ---------------------------------------------------------------- everybody gets on

  /**
   * A client that is there can send any request when it is ready, write as much of it as it likes, and
   * die at any time. While it waits for a reply, the reply is there, or the server can go on towards it,
   * or has refused a request.
   */
  lemma ClientNeverSticks(p: Protocol, actions: seq<Action>, r: Request, n: nat)
    requires p.Valid() && IsRun(p, Initial(), actions)
    ensures var s := After(p, Initial(), actions);
            && (s.client.Ready? && IsSendable(p, r) ==> Enabled(p, s, Send(r)))
            && (s.client.Writing? ==>
                  s.pending.Some? && IsSendable(p, s.pending.value) && s.written < |Frame(p, s.pending.value)|
                  && (1 <= n <= |Frame(p, s.pending.value)| - s.written ==> Enabled(p, s, Write(n))))
            && (s.client.Awaiting? ==>
                  Enabled(p, s, Receive) || Enabled(p, s, Serve) || Enabled(p, s, Reply(true)) || s.server.Failed?)
            && (!s.client.Gone? ==> Enabled(p, s, Die))
  {
    RunKeepsInvariant(p, Initial(), actions);
    ServerNeverSticks(p, actions);
  }

  /** Only requests for environment variables are answered, and only a broken reply ends a stream early. */
  lemma OnlyEnvRequestsAreAnswered(p: Protocol, actions: seq<Action>, n: nat)
    requires p.Valid() && IsRun(p, Initial(), actions)
    ensures var s := After(p, Initial(), actions);
            && (Enabled(p, s, Write(n)) && s.written + n == |Frame(p, s.pending.value)| ==>
                  var r, next := s.pending.value, Next(p, s, Write(n));
                  next.issued == s.issued + [r] && next.client == if r.GetEnv? || r.GetEnvs? then Awaiting else Ready)
            && (Enabled(p, s, Serve) && |s.processed| < |s.issued| && p.accepts(s.issued[|s.processed|]) ==>
                  var r, next := s.issued[|s.processed|], Next(p, s, Serve);
                  next.processed == s.processed + [r] && next.server == if r.GetEnv? || r.GetEnvs? then Replying else Reading)
            && (Enabled(p, s, Reply(true)) ==> Next(p, s, Reply(true)).server.Reading?)
            && (Enabled(p, s, Reply(false)) ==> s.client.Gone? && Next(p, s, Reply(false)).server.Ended?)
  {
    RunKeepsInvariant(p, Initial(), actions);
    var s := After(p, Initial(), actions);
    if Enabled(p, s, Serve) && |s.processed| < |s.issued| {
      ServeAdvances(p, s);
    }
  }

  /** Both sides are at rest: everything sent has been processed and answered. */
  ghost predicate IsQuiet(p: Protocol, s: State) {
    Invariant(p, s) && s.client.Ready? && s.server.Reading? && s.processed == s.issued
  }

  /** One request from rest to rest. */
  lemma ExchangeGoesThrough(p: Protocol, s: State, r: Request) returns (actions: seq<Action>)
    requires p.Valid() && IsQuiet(p, s) && IsSendable(p, r) && p.accepts(r)
    ensures IsRun(p, s, actions) && IsQuiet(p, After(p, s, actions)) && After(p, s, actions).issued == s.issued + [r]
  {
    var writing := Next(p, s, Send(r));
    StepKeepsInvariant(p, s, Send(r));
    var written := Next(p, writing, Write(|Frame(p, r)|));
    StepKeepsInvariant(p, writing, Write(|Frame(p, r)|));
    assert written.issued == s.issued + [r];
    var next, rest := NextToServe(p, written);
    ServeAdvances(p, written);
    StepKeepsInvariant(p, written, Serve);
    var served := Next(p, written, Serve);
    var answer := AnswerGoesThrough(p, served, r);
    OneMoreAction(p, written, Serve, answer);
    OneMoreAction(p, writing, Write(|Frame(p, r)|), [Serve] + answer);
    OneMoreAction(p, s, Send(r), [Write(|Frame(p, r)|)] + ([Serve] + answer));
    actions := [Send(r)] + ([Write(|Frame(p, r)|)] + ([Serve] + answer));
  }

  lemma AnswerGoesThrough(p: Protocol, s: State, r: Request) returns (actions: seq<Action>)
    requires p.Valid() && Invariant(p, s) && s.processed == s.issued != [] && s.issued[|s.issued| - 1] == r
    requires s.server == if r.IsRoundTrip() then Replying else Reading
    requires s.client == if r.IsRoundTrip() then Awaiting else Ready
    ensures IsRun(p, s, actions) && IsQuiet(p, After(p, s, actions)) && After(p, s, actions).issued == s.issued
  {
    actions := [];
    if r.IsRoundTrip() {
      var replied := Next(p, s, Reply(true));
      StepKeepsInvariant(p, s, Reply(true));
      StepKeepsInvariant(p, replied, Receive);
      OneMoreAction(p, replied, Receive, []);
      OneMoreAction(p, s, Reply(true), [Receive] + []);
      actions := [Reply(true)] + ([Receive] + []);
    }
  }

  lemma OneMoreAction(p: Protocol, s: State, a: Action, rest: seq<Action>)
    requires Enabled(p, s, a) && IsRun(p, Next(p, s, a), rest)
    ensures IsRun(p, s, [a] + rest) && After(p, s, [a] + rest) == After(p, Next(p, s, a), rest)
  {
    assert ([a] + rest)[1..] == rest;
  }
}
