/**
 One client connection: the state machine that collects a 4-byte length header in network
 byte order and a body from whatever pieces the kernel delivers, and sends the response.
 */
module Session {
  import opened Core

  datatype SessionState = HeaderPending | BodyPending | ReadyForInference | InferencePending | ResponseSending

  /** `header` is the received part of the header buffer; `body` is the whole body buffer. */
  datatype ClientSession = ClientSession(
    state: SessionState,
    expectedSize: nat,
    bytesReceived: nat,
    body: seq<byte>,
    header: seq<byte>,
    response: seq<byte>,
    bytesSent: nat)

  const HEADER_SIZE: nat := 4

  function NewSession(): ClientSession {
    ClientSession(HeaderPending, 0, 0, [], [], [], 0)
  }

  function Reset(s: ClientSession): ClientSession {
    s.(body := [], bytesReceived := 0, expectedSize := 0, header := [], state := HeaderPending)
  }

  /** What the kernel has for `recv`; data may be cut anywhere, at most the size asked for is taken. */
  datatype Recv = Data(offered: seq<byte>) | EndOfStream | WouldBlock | RecvFailed

  datatype Send = Sent(count: nat) | SendAgain | SendFailed

  /** A visit's new session, its return code (close when <= 0), the bytes taken and the body submitted. */
  datatype Outcome = Outcome(session: ClientSession, code: int, taken: seq<byte>, submitted: Option<seq<byte>>)

  function Take(offered: seq<byte>, asked: nat): (taken: seq<byte>)
    ensures |taken| <= asked && taken <= offered
  {
    if |offered| <= asked then offered else offered[..asked]
  }

  /** ntohl of the header bytes. */
  function FromNetwork(header: seq<byte>): (v: nat)
    requires |header| == HEADER_SIZE
    ensures v < 0x1_0000_0000
  {
    header[0] as int * 0x100_0000 + header[1] as int * 0x1_0000 + header[2] as int * 0x100 + header[3] as int
  }

  function ProcessHeader(s: ClientSession, r: Recv): Outcome
    requires |s.header| < HEADER_SIZE
  {
    match r
    case EndOfStream => Outcome(s, 0, [], None)
    case WouldBlock => Outcome(s, -1, [], None)
    case RecvFailed => Outcome(s, -1, [], None)
    case Data(offered) =>
      var taken := Take(offered, HEADER_SIZE - |s.header|);
      var header := s.header + taken;
      if |header| == HEADER_SIZE then
        var size := FromNetwork(header);
        Outcome(s.(header := header, state := BodyPending, expectedSize := size, body := seq(size, _ => 0)),
                1, taken, None)
      else
        Outcome(s.(header := header), |taken|, taken, None)
  }

  function ProcessBody(s: ClientSession, r: Recv): Outcome
    requires s.bytesReceived <= s.expectedSize == |s.body|
  {
    if |s.body| <= 0 then Outcome(s, -1, [], None)
    else match r
      case EndOfStream => Outcome(s, 0, [], None)
      case WouldBlock => Outcome(s, 1, [], None)
      case RecvFailed => Outcome(s, -1, [], None)
      case Data(offered) =>
        var taken := Take(offered, s.expectedSize - s.bytesReceived);
        if taken == [] then Outcome(s, 0, [], None)
        else
          var received := s.bytesReceived + |taken|;
          var body := s.body[..s.bytesReceived] + taken + s.body[received..];
          var filled := s.(bytesReceived := received, body := body);
          if received == s.expectedSize then Finalize(filled.(state := ReadyForInference), taken)
          else Outcome(filled, |taken|, taken, None)
  }

  /** The body moves into the task; whether the queue accepts the task is not looked at. */
  function Finalize(s: ClientSession, taken: seq<byte>): Outcome {
    Outcome(s.(body := [], state := InferencePending), 1, taken, Some(s.body))
  }

  predicate Readable(s: ClientSession) {
    match s.state
    case HeaderPending => |s.header| < HEADER_SIZE
    case BodyPending => s.bytesReceived <= s.expectedSize == |s.body|
    case _ => true
  }

  function HandleClientData(s: ClientSession, r: Recv): Outcome
    requires Readable(s)
  {
    match s.state
    case HeaderPending => ProcessHeader(s, r)
    case BodyPending => ProcessBody(s, r)
    case ReadyForInference => Finalize(s, [])
    case _ => Outcome(s, 1, [], None)
  }

  function Respond(s: ClientSession, response: seq<byte>): ClientSession {
    s.(response := response, state := ResponseSending, bytesSent := 0)
  }

  /** The POLLOUT branch: the new session, or None when the connection is to be closed. */
  function SendResponse(s: ClientSession, r: Send): Option<ClientSession> {
    match r
    case SendFailed => None
    case SendAgain => Some(s)
    case Sent(count) =>
      var remaining := if s.bytesSent <= |s.response| then |s.response| - s.bytesSent else 0;
      var sent := if count <= remaining then count else remaining;
      if sent == 0 then Some(s)
      else if s.bytesSent + sent == |s.response| then Some(Reset(s.(bytesSent := s.bytesSent + sent)))
      else Some(s.(bytesSent := s.bytesSent + sent))
  }

  /** What every visit keeps true of a session. */
  predicate SessionFits(s: ClientSession) {
    && Readable(s)
    && (s.state.HeaderPending? ==> s.bytesReceived == 0)
    && (s.state.BodyPending? ==>
          && |s.header| == HEADER_SIZE && s.expectedSize == FromNetwork(s.header)
          && (s.bytesReceived < s.expectedSize || s.expectedSize == 0))
    && !s.state.ReadyForInference?
    && s.bytesSent <= |s.response|
    && (s.state.ResponseSending? ==> s.bytesSent < |s.response| || s.response == [])
    && (!s.state.ResponseSending? ==> s.bytesSent == |s.response|)
  }

  /** The bytes of the current frame that have arrived. */
  function Partial(s: ClientSession): seq<byte>
    requires Readable(s)
  {
    match s.state
    case HeaderPending => s.header
    case BodyPending => s.header + s.body[..s.bytesReceived]
    case _ => []
  }
}

/** The framing: what a session submits is what the client framed, however the stream is cut. */
module Framing {
  import opened Core
  import opened Session

  /** struct.pack("!I", length) */
  function ToNetwork(v: nat): (header: seq<byte>)
    requires v < 0x1_0000_0000
    ensures |header| == HEADER_SIZE
  {
    [v / 0x100_0000, v / 0x1_0000 % 0x100, v / 0x100 % 0x100, v % 0x100]
  }

  lemma HeaderRoundTrip(v: nat)
    requires v < 0x1_0000_0000
    ensures FromNetwork(ToNetwork(v)) == v
  {
    var a, b := v / 0x100, v / 0x1_0000;
    assert a / 0x100 == b && b / 0x100 == v / 0x100_0000;
  }

  predicate Payload(p: seq<byte>) {
    0 < |p| < 0x1_0000_0000
  }

  function Frame(p: seq<byte>): seq<byte>
    requires Payload(p)
  {
    ToNetwork(|p|) + p
  }

  predicate Payloads(ps: seq<seq<byte>>) {
    forall i :: 0 <= i < |ps| ==> Payload(ps[i])
  }

  function Encode(ps: seq<seq<byte>>): seq<byte>
    requires Payloads(ps)
  {
    if ps == [] then [] else Frame(ps[0]) + Encode(ps[1..])
  }

  lemma {:induction false} EncodeAppend(ps: seq<seq<byte>>, p: seq<byte>)
    requires Payloads(ps) && Payload(p)
    ensures Payloads(ps + [p]) && Encode(ps + [p]) == Encode(ps) + Frame(p)
  {
    if ps == [] {
      assert [p][1..] == [];
    } else {
      EncodeAppend(ps[1..], p);
      var all := ps + [p];
      assert all[1..] == ps[1..] + [p] && all[0] == ps[0];
      Joined(Frame(ps[0]), Encode(ps[1..]), Frame(p));
    }
  }

  lemma HeaderInverse(header: seq<byte>)
    requires |header| == HEADER_SIZE
    ensures ToNetwork(FromNetwork(header)) == header
  {
    var v := FromNetwork(header);
    var a: int, b: int, c: int, d: int := header[0], header[1], header[2], header[3];
    assert v / 0x100 == a * 0x1_0000 + b * 0x100 + c;
    assert v / 0x1_0000 == a * 0x100 + b;
    assert v / 0x100_0000 == a;
  }

  /** Two frames with the same start are the same frame. */
  lemma FramesAgree(p: seq<byte>, q: seq<byte>, x: seq<byte>, y: seq<byte>)
    requires Payload(p) && Payload(q) && Frame(p) + x <= Frame(q) + y
    ensures p == q && x <= y
  {
    var u, v := Frame(p) + x, Frame(q) + y;
    assert u[..HEADER_SIZE] == ToNetwork(|p|) && v[..HEADER_SIZE] == ToNetwork(|q|);
    HeaderRoundTrip(|p|);
    HeaderRoundTrip(|q|);
    assert u[HEADER_SIZE..HEADER_SIZE + |p|] == p && v[HEADER_SIZE..HEADER_SIZE + |q|] == q;
    assert u[HEADER_SIZE + |p|..] == x && v[HEADER_SIZE + |q|..] == y;
  }

  /** A stream has at most one reading as a sequence of frames. */
  lemma {:induction false} UniqueReading(xs: seq<seq<byte>>, rest: seq<byte>, ps: seq<seq<byte>>)
    requires Payloads(xs) && Payloads(ps) && Encode(xs) + rest <= Encode(ps)
    ensures xs <= ps && rest <= Encode(ps[|xs|..])
  {
    if xs == [] {
      assert Encode(xs) + rest == rest;
    } else {
      assert ps != [];
      var more := Encode(xs[1..]) + rest;
      assert Encode(xs) + rest == Frame(xs[0]) + more;
      FramesAgree(xs[0], ps[0], more, Encode(ps[1..]));
      UniqueReading(xs[1..], rest, ps[1..]);
      assert xs == [xs[0]] + xs[1..] && ps == [ps[0]] + ps[1..];
      assert ps[1..][|xs| - 1..] == ps[|xs|..];
    }
  }

  // ----- a connection over its whole life -----

  datatype Event = ReadVisit(recv: Recv) | Response(bytes: seq<byte>) | WriteVisit(send: Send)

  /** History: bytes consumed and bodies submitted, responses received from the workers and bytes sent, all in order. */
  datatype Connection = Connection(
    session: ClientSession,
    consumed: seq<byte>,
    emitted: seq<seq<byte>>,
    answered: seq<seq<byte>>,
    sent: seq<byte>,
    open: bool)

  function Opened(): Connection {
    Connection(NewSession(), [], [], [], [], true)
  }

  /** A response comes only for a pending request; a closed connection gets no more events. */
  predicate Possible(c: Connection, e: Event) {
    c.open && Readable(c.session) && (e.Response? ==> c.session.state.InferencePending?)
  }

  /** The bytes that a write visit hands to the kernel and the kernel takes. */
  function Written(s: ClientSession, r: Send): seq<byte> {
    if r.Sent? && s.bytesSent <= |s.response| then Take(s.response[s.bytesSent..], r.count) else []
  }

  function Happen(c: Connection, e: Event): Connection
    requires Possible(c, e)
  {
    match e
    case ReadVisit(recv) =>
      var o := HandleClientData(c.session, recv);
      c.(session := o.session, consumed := c.consumed + o.taken,
         emitted := if o.submitted.Some? then c.emitted + [o.submitted.value] else c.emitted,
         open := o.code > 0)
    case Response(bytes) => c.(session := Respond(c.session, bytes), answered := c.answered + [bytes])
    case WriteVisit(send) =>
      var r := SendResponse(c.session, send);
      if r.Some? then c.(session := r.value, sent := c.sent + Written(c.session, send)) else c.(open := false)
  }

  function Life(events: seq<Event>): Option<Connection> {
    if events == [] then Some(Opened())
    else
      var before := Life(events[..|events| - 1]);
      var e := events[|events| - 1];
      if before.Some? && Possible(before.value, e) then Some(Happen(before.value, e)) else None
  }

  predicate ConnectionFits(c: Connection) {
    && SessionFits(c.session)
    && Payloads(c.emitted)
    && c.consumed == Encode(c.emitted) + Partial(c.session)
  }

  lemma HeaderVisit(c: Connection, recv: Recv)
    requires ConnectionFits(c) && c.open && c.session.state.HeaderPending?
    ensures ConnectionFits(Happen(c, ReadVisit(recv)))
  {
    var o := ProcessHeader(c.session, recv);
    assert Encode(c.emitted) + (c.session.header + o.taken) == Encode(c.emitted) + c.session.header + o.taken;
  }

  /** A body visit adds the bytes it takes; the last one submits exactly the body of the frame. */
  lemma BodyBytes(s: ClientSession, recv: Recv)
    requires SessionFits(s) && s.state.BodyPending?
    ensures var o := ProcessBody(s, recv);
            && SessionFits(o.session)
            && (o.submitted.None? ==> Partial(o.session) == Partial(s) + o.taken)
            && (o.submitted.Some? ==>
                  && Payload(o.submitted.value)
                  && Partial(o.session) == []
                  && Frame(o.submitted.value) == Partial(s) + o.taken)
  {
    var o, before := ProcessBody(s, recv), s.body[..s.bytesReceived];
    if o.submitted.Some? {
      HeaderInverse(s.header);
      assert o.submitted.value == before + o.taken;
      assert Frame(o.submitted.value) == s.header + before + o.taken;
    } else if o.taken != [] {
      assert o.session.body[..o.session.bytesReceived] == before + o.taken;
      assert s.header + (before + o.taken) == s.header + before + o.taken;
    }
  }

  lemma BodyVisit(c: Connection, recv: Recv)
    requires ConnectionFits(c) && c.open && c.session.state.BodyPending?
    ensures ConnectionFits(Happen(c, ReadVisit(recv)))
  {
    var o := ProcessBody(c.session, recv);
    BodyBytes(c.session, recv);
    var start := Encode(c.emitted);
    Joined(start, Partial(c.session), o.taken);
    if o.submitted.Some? {
      EncodeAppend(c.emitted, o.submitted.value);
      Joined(start, Frame(o.submitted.value), []);
    }
  }

  lemma Joined(start: seq<byte>, part: seq<byte>, more: seq<byte>)
    ensures start + part + more == start + (part + more)
    ensures more == [] ==> part + more == part
  {
  }

  lemma EventKeepsFit(c: Connection, e: Event)
    requires ConnectionFits(c) && Possible(c, e)
    ensures ConnectionFits(Happen(c, e))
  {
    if e.ReadVisit? && c.session.state.HeaderPending? {
      HeaderVisit(c, e.recv);
    } else if e.ReadVisit? && c.session.state.BodyPending? {
      BodyVisit(c, e.recv);
    }
  }

  /** Whatever the client sends, however cut, the bytes consumed are the submitted frames plus the current part. */
  lemma {:induction false} ConsumedIsEmitted(events: seq<Event>)
    requires Life(events).Some?
    ensures ConnectionFits(Life(events).value)
  {
    if events != [] {
      ConsumedIsEmitted(events[..|events| - 1]);
      EventKeepsFit(Life(events[..|events| - 1]).value, events[|events| - 1]);
    }
  }

  // ----- the way back -----

  function Concat(xs: seq<seq<byte>>): seq<byte> {
    if xs == [] then [] else Concat(xs[..|xs| - 1]) + xs[|xs| - 1]
  }

  lemma ConcatAppend(xs: seq<seq<byte>>, x: seq<byte>)
    ensures Concat(xs + [x]) == Concat(xs) + x
  {
    assert (xs + [x])[..|xs|] == xs;
  }

  /** Requests and responses alternate, and the bytes sent are the responses in order, up to the current position. */
  predicate RepliesFit(c: Connection) {
    && SessionFits(c.session)
    && |c.emitted| == |c.answered| + (if c.session.state.InferencePending? then 1 else 0)
    && c.sent + c.session.response[c.session.bytesSent..] == Concat(c.answered)
  }

  lemma SendAdvances(s: ClientSession, send: Send)
    requires SessionFits(s)
    ensures var r, k := SendResponse(s, send), |Written(s, send)|;
            r.Some? ==>
              && SessionFits(r.value) && r.value.response == s.response && r.value.bytesSent == s.bytesSent + k
              && Written(s, send) == s.response[s.bytesSent..s.bytesSent + k]
              && (r.value.state.InferencePending? <==> s.state.InferencePending?)
  {
  }

  lemma SplitRest(sent: seq<byte>, response: seq<byte>, at: nat, k: nat)
    requires at + k <= |response|
    ensures sent + response[at..at + k] + response[at + k..] == sent + response[at..]
  {
    assert response[at..] == response[at..at + k] + response[at + k..];
  }

  lemma WriteKeepsReplies(c: Connection, send: Send)
    requires RepliesFit(c) && Possible(c, WriteVisit(send))
    ensures RepliesFit(Happen(c, WriteVisit(send)))
  {
    SendAdvances(c.session, send);
    if SendResponse(c.session, send).Some? {
      SplitRest(c.sent, c.session.response, c.session.bytesSent, |Written(c.session, send)|);
    }
  }

  lemma EventKeepsReplies(c: Connection, e: Event)
    requires RepliesFit(c) && Possible(c, e)
    ensures RepliesFit(Happen(c, e))
  {
    match e
    case ReadVisit(recv) =>
      assert Happen(c, e).session.response == c.session.response;
      assert Happen(c, e).session.bytesSent == c.session.bytesSent;
    case Response(bytes) =>
      ConcatAppend(c.answered, bytes);
      assert c.session.response[c.session.bytesSent..] == [] && bytes[0..] == bytes;
    case WriteVisit(send) => WriteKeepsReplies(c, send);
  }

  /** Over the whole life of a connection, however the kernel cuts what is sent. */
  lemma {:induction false} SentIsAnswered(events: seq<Event>)
    requires Life(events).Some?
    ensures RepliesFit(Life(events).value)
  {
    if events != [] {
      SentIsAnswered(events[..|events| - 1]);
      EventKeepsReplies(Life(events[..|events| - 1]).value, events[|events| - 1]);
    }
  }

  /** The rest of the response is sent: the session becomes as fresh as a new one, unless the response is empty. */
  lemma CompletedReplyResets(s: ClientSession, send: Send)
    requires SessionFits(s) && s.state.ResponseSending? && send.Sent?
    requires Written(s, send) == s.response[s.bytesSent..]
    ensures var r := SendResponse(s, send);
            && r.Some? && SessionFits(r.value)
            && (s.response != [] ==> r.value.(response := [], bytesSent := 0) == NewSession())
            && (s.response == [] ==> r.value == s)
  {
  }

  /** The session after a sequence of write visits, or None when one of them closes the connection. */
  function SendAll(s: ClientSession, sends: seq<Send>): Option<ClientSession> {
    if sends == [] then Some(s)
    else
      var before := SendAll(s, sends[..|sends| - 1]);
      if before.None? then None else SendResponse(before.value, sends[|sends| - 1])
  }

  predicate Completes(s: ClientSession, sends: seq<Send>) {
    SendAll(s, sends).Some? && SendAll(s, sends).value.state.HeaderPending?
  }

  lemma {:induction false} EmptyReplySticks(s: ClientSession, sends: seq<Send>)
    requires SessionFits(s) && s.state.ResponseSending? && s.response == []
    ensures SendAll(s, sends).Some? ==> SendAll(s, sends).value == s
  {
    if sends != [] {
      EmptyReplySticks(s, sends[..|sends| - 1]);
    }
  }

  /** A session that sends can come back to the next header exactly when its response is not empty. */
  lemma ReplyCompletesExactlyWhen(s: ClientSession)
    requires SessionFits(s) && s.state.ResponseSending?
    ensures (exists sends :: Completes(s, sends)) <==> s.response != []
  {
    if s.response == [] {
      forall sends: seq<Send> ensures !Completes(s, sends) {
        EmptyReplySticks(s, sends);
      }
    } else {
      var sends := [Sent(|s.response|)];
      assert sends[..0] == [];
      assert SendAll(s, sends) == SendResponse(s, Sent(|s.response|));
      assert Completes(s, sends);
    }
  }

  // ----- which answers of the kernel close a connection -----

  /** recv took nothing: the peer has closed its side. */
  predicate NoBytes(recv: Recv) {
    recv.EndOfStream? || (recv.Data? && recv.offered == [])
  }

  /**
   The events that end a connection: a failed send, an end of stream, a failed or would-block
   read of a header, a failed read of a body, and any read after a header of length zero.
   */
  predicate Fatal(s: ClientSession, e: Event) {
    match e
    case Response(_) => false
    case WriteVisit(send) => send.SendFailed?
    case ReadVisit(recv) =>
      || (s.state.HeaderPending? && (NoBytes(recv) || recv.RecvFailed? || recv.WouldBlock?))
      || (s.state.BodyPending? && (NoBytes(recv) || recv.RecvFailed? || s.header == [0, 0, 0, 0]))
  }

  lemma EventCloses(c: Connection, e: Event)
    requires ConnectionFits(c) && Possible(c, e)
    ensures Happen(c, e).open <==> !Fatal(c.session, e)
  {
    if e.ReadVisit? && c.session.state.BodyPending? {
      ZeroLength(c.session.header);
    }
  }

  lemma ZeroLength(header: seq<byte>)
    requires |header| == HEADER_SIZE
    ensures FromNetwork(header) == 0 <==> header == [0, 0, 0, 0]
  {
    assert header == [header[0], header[1], header[2], header[3]];
  }

  predicate FatalAt(events: seq<Event>, i: nat)
    requires i < |events|
  {
    Life(events[..i]).Some? && Fatal(Life(events[..i]).value.session, events[i])
  }

  lemma LastCloses(events: seq<Event>)
    requires Life(events).Some? && events != [] && ConnectionFits(Life(events[..|events| - 1]).value)
    ensures var last := |events| - 1;
            Life(events[..last]).value.open && (Life(events).value.open <==> !FatalAt(events, last))
  {
    EventCloses(Life(events[..|events| - 1]).value, events[|events| - 1]);
  }

  predicate NoneFatal(events: seq<Event>) {
    forall i :: 0 <= i < |events| ==> !FatalAt(events, i)
  }

  lemma NoneFatalStep(events: seq<Event>)
    requires events != []
    ensures NoneFatal(events) <==> NoneFatal(events[..|events| - 1]) && !FatalAt(events, |events| - 1)
  {
    var before := events[..|events| - 1];
    forall i | 0 <= i < |before| ensures FatalAt(events, i) <==> FatalAt(before, i) {
      assert events[..i] == before[..i] && events[i] == before[i];
    }
  }

  /** Over the whole life, a connection is open exactly when none of these has happened. */
  lemma {:induction false} OpenExactlyWhen(events: seq<Event>)
    requires Life(events).Some?
    ensures Life(events).value.open <==> NoneFatal(events)
  {
    if events != [] {
      OpenExactlyWhen(events[..|events| - 1]);
      ConsumedIsEmitted(events[..|events| - 1]);
      LastCloses(events);
      NoneFatalStep(events);
    }
  }

  /** The session has read part of the frame of p, not all of it, and nothing else. */
  predicate Unfinished(s: ClientSession, p: seq<byte>)
    requires Readable(s) && Payload(p)
  {
    Partial(s) <= Frame(p) && |Partial(s)| < |Frame(p)|
  }

  /**
   Framing round trip. If the client sends the frames of ps, then whatever part has been
   consumed, the session has submitted a prefix of ps, it has read less than the whole of
   the next frame and nothing beyond it, and once everything is consumed it has submitted ps.
   */
  lemma FramingRoundTrip(events: seq<Event>, ps: seq<seq<byte>>)
    requires Life(events).Some? && Payloads(ps) && Life(events).value.consumed <= Encode(ps)
    ensures var c := Life(events).value;
            && c.emitted <= ps
            && Readable(c.session)
            && (|c.emitted| < |ps| ==> Unfinished(c.session, ps[|c.emitted|]))
            && (c.consumed == Encode(ps) ==> c.emitted == ps)
  {
    ConsumedIsEmitted(events);
    FitMeansFramed(Life(events).value, ps);
  }

  lemma FitMeansFramed(c: Connection, ps: seq<seq<byte>>)
    requires ConnectionFits(c) && Payloads(ps) && c.consumed <= Encode(ps)
    ensures c.emitted <= ps
    ensures |c.emitted| < |ps| ==> Unfinished(c.session, ps[|c.emitted|])
    ensures c.consumed == Encode(ps) ==> c.emitted == ps
  {
    UniqueReading(c.emitted, Partial(c.session), ps);
    if |c.emitted| < |ps| {
      NextFrame(c.session, c.emitted, ps);
      NotEverythingRead(c.session, c.emitted, ps);
    }
  }

  lemma NextFrame(s: ClientSession, xs: seq<seq<byte>>, ps: seq<seq<byte>>)
    requires SessionFits(s) && Payloads(ps) && |xs| < |ps| && Partial(s) <= Encode(ps[|xs|..])
    ensures Unfinished(s, ps[|xs|])
  {
    PartialIsShort(s, ps[|xs|..]);
  }

  lemma NotEverythingRead(s: ClientSession, xs: seq<seq<byte>>, ps: seq<seq<byte>>)
    requires SessionFits(s) && Payloads(ps) && xs <= ps && |xs| < |ps| && Partial(s) <= Encode(ps[|xs|..])
    ensures Encode(xs) + Partial(s) != Encode(ps)
  {
    PartialIsShort(s, ps[|xs|..]);
    EncodedLengths(xs, ps);
    assert |Encode(xs) + Partial(s)| < |Encode(ps)|;
  }

  lemma PartialIsShort(s: ClientSession, ps: seq<seq<byte>>)
    requires SessionFits(s) && Payloads(ps) && ps != [] && Partial(s) <= Encode(ps)
    ensures Unfinished(s, ps[0]) && |Partial(s)| < |Encode(ps)|
  {
    if s.state.BodyPending? {
      assert s.header == Partial(s)[..HEADER_SIZE] == Encode(ps)[..HEADER_SIZE] == ToNetwork(|ps[0]|);
      HeaderRoundTrip(|ps[0]|);
    }
  }

  lemma {:induction false} EncodedLengths(xs: seq<seq<byte>>, ps: seq<seq<byte>>)
    requires Payloads(ps) && xs <= ps
    ensures |Encode(ps)| == |Encode(xs)| + |Encode(ps[|xs|..])|
  {
    if xs != [] {
      EncodedLengths(xs[1..], ps[1..]);
      assert ps[1..][|xs| - 1..] == ps[|xs|..];
    }
  }

  /** A read visit of a connection that waits for bytes takes at least one when one is there, or closes. */
  lemma ReadsMakeProgress(c: Connection, offered: seq<byte>)
    requires ConnectionFits(c) && c.open && offered != []
    requires c.session.state.HeaderPending? || c.session.state.BodyPending?
    ensures var d := Happen(c, ReadVisit(Data(offered)));
            || (!d.open && c.session.state.BodyPending? && c.session.expectedSize == 0)
            || (d.open && |d.consumed| > |c.consumed| && d.consumed <= c.consumed + offered)
  {
  }

  /** A zero length in a header closes the connection at the next read visit. */
  lemma EmptyFrameCloses(events: seq<Event>, ps: seq<seq<byte>>, recv: Recv)
    requires Life(events).Some? && Payloads(ps) && Life(events).value.open
    requires Life(events).value.consumed == Encode(ps) + [0, 0, 0, 0] && Life(events).value.emitted == ps
    ensures var c := Life(events).value;
            && Possible(c, ReadVisit(recv))
            && !Happen(c, ReadVisit(recv)).open
            && Happen(c, ReadVisit(recv)).emitted == ps
  {
    ConsumedIsEmitted(events);
    var c := Life(events).value;
    assert c.consumed[|Encode(ps)|..] == Partial(c.session);
    ZeroHeader(c.session);
  }

  lemma ZeroHeader(s: ClientSession)
    requires SessionFits(s) && Partial(s) == [0, 0, 0, 0]
    ensures s.state.BodyPending? && s.expectedSize == 0
  {
    assert |Partial(s)| == 4;
    if s.state.BodyPending? {
      assert s.header == Partial(s)[..HEADER_SIZE];
    }
  }
}
