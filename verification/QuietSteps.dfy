/**
  What the client's handlers leave alone. Two invariants of whole runs, one about the times
  the watchdog uses and one about the order of the log, rest on the same observation: every
  handler except mqtt_client_connect and the watchdog is `Calm`.
 */
module QuietSteps {
  import opened Basics
  import opened Trace
  import opened Wire
  import opened Reader
  import opened ClientSpec

  // ---------------------------------------------------------------- the clock

  function Later(now: Ms, reading: Option<Ms>): Ms {
    if reading.Some? && reading.value >= now then reading.value else now
  }

  predicate NotBefore(now: Ms, reading: Option<Ms>) {
    reading.Some? ==> reading.value >= now
  }

  /** The clock reading a send makes, in the events that send one packet. */
  function SendReading(e: Event): Option<Ms> {
    match e
    case OpenComplete(_, _, send) => send.clock
    case PacketArrived(_, env) => env.send.clock
    case PublishCall(_, send) => send.clock
    case SubscribeCall(_, send) => send.clock
    case UnsubscribeCall(_, send) => send.clock
    case RespondCall(_, _, env) => env.send.clock
    case DisconnectCall(_, send, _) => send.clock
    case KeepAlive(_, send, _, _) => send.clock
    case _ => None
  }

  /** The latest clock value after an event, from the value before it. */
  function Advance(now: Ms, e: Event): Ms {
    match e
    case KeepAlive(clock, send, stamp, _) => Later(Later(Later(now, clock), send.clock), stamp)
    case _ => Later(now, SendReading(e))
  }

  /** The event's readings come in order and not before `now`. */
  predicate Monotone(now: Ms, e: Event) {
    match e
    case KeepAlive(clock, send, stamp, _) =>
      && NotBefore(now, clock)
      && NotBefore(Later(now, clock), send.clock)
      && NotBefore(Later(Later(now, clock), send.clock), stamp)
    case _ => NotBefore(now, SendReading(e))
  }

  predicate MonotoneRun(now: Ms, events: seq<Event>)
    decreases |events|
  {
    events == [] || (Monotone(now, events[0]) && MonotoneRun(Advance(now, events[0]), events[1..]))
  }

  function ClockAfter(now: Ms, events: seq<Event>): Ms
    decreases |events|
  {
    if events == [] then now else ClockAfter(Advance(now, events[0]), events[1..])
  }

  // ---------------------------------------------------------------- invariants

  /** How many milliseconds a PINGREQ may go unanswered: one second more than half the interval or 80 seconds. */
  function PingTime(keepAlive: uint16): nat {
    1000 * ((if keepAlive / 2 < 80 then keepAlive / 2 else 80) + 1)
  }

  /**
    The last send is recorded, unless the connection was given up after it; the watchdog's time stamp
    was read after some unanswered PINGREQ; and the last keep-alive check found the last send less than
    an interval old.
   */
  ghost predicate SendInv(s: State, now: Ms) {
    var h := HistoryOf(s.log);
    && h.lastSent <= now && (s.packetSendTimeMs == h.lastSent || (s.packetSendTimeMs == 0 && h.givenUp))
    && (h.waiting.Some? ==> h.waiting.value.first <= now)
    && (s.timeSincePing > 0 ==> h.waiting.Some? && h.waiting.value.first <= s.timeSincePing <= now)
    && (s.keepAliveInterval > 0 ==> 1000 * (s.maxPingRespTime + 1) == PingTime(s.keepAliveInterval))
    && (h.check.Some? ==>
          Watching(s) && h.check.value <= now && h.check.value < s.packetSendTimeMs + 1000 * s.keepAliveInterval)
  }

  /** How late a ping's time stamp may be read without opening a gap between the two deadlines. */
  function Margin(keepAlive: uint16): nat
    requires keepAlive > 0
  {
    1000 * keepAlive - PingTime(keepAlive)
  }

  /**
    The watchdog's time stamp is that of the last PINGREQ, which nobody has answered, read at most
    `delta` after its send; and the last check found it not overdue.
   */
  ghost predicate StampInv(s: State, delta: nat) {
    var h := HistoryOf(s.log);
    && (s.timeSincePing > 0 ==>
          && h.waiting.Some? && h.waiting.value.last <= s.timeSincePing <= h.waiting.value.last + delta
          && s.timeSincePing <= s.packetSendTimeMs + delta)
    && (h.ping.Some? ==>
          && h.waiting.Some? && h.ping.value.last == h.waiting.value.last && s.timeSincePing > 0
          && h.check.Some? && h.check.value < s.timeSincePing + 1000 * (s.maxPingRespTime + 1))
  }

  /** The interval leaves a margin of `delta`, and no PINGREQ went out while one was unanswered. */
  ghost predicate PingInv(s: State, delta: nat) {
    && (s.keepAliveInterval > 0 ==> delta <= Margin(s.keepAliveInterval))
    && OnePing(s.log)
  }

  // ---------------------------------------------------------------- what everything but the watchdog does

  /** The client's own flags agree with the log, and the log is in order. */
  ghost predicate Orderly(s: State) {
    var h := HistoryOf(s.log);
    && s.socketConnected == h.open
    && (s.clientConnected ==> h.accepted)
    && Ordered(s.log)
  }

  /**
    From s to t the watchdog's settings stay; its send time stays or becomes a reading in [now, later];
    a time stamp stays until it is answered; an unanswered PINGREQ is dropped only when it is answered
    or its connection is over; no PINGREQ is sent while one is unanswered; and order is kept.
   */
  ghost predicate Calm(s: State, t: State, now: Ms, later: Ms) {
    var h, k := HistoryOf(s.log), HistoryOf(t.log);
    && t.keepAliveInterval == s.keepAliveInterval && t.maxPingRespTime == s.maxPingRespTime
    && ((t.timeSincePing == s.timeSincePing && k.waiting == h.waiting)
        || (t.timeSincePing == 0 && k.ping == None && k.waiting == None))
    && (k.ping == h.ping || (k.ping == None && (k.waiting == None || k.check == None)))
    && (k.check == h.check || (k.check == None && k.ping == None))
    && k.timeouts == h.timeouts
    && (s.clientConnected ==> t.clientConnected)
    && (k.check.Some? && s.socketConnected ==> t.socketConnected)
    && ((t.packetSendTimeMs == s.packetSendTimeMs && k.lastSent == h.lastSent && (h.givenUp ==> k.givenUp))
        || (t.packetSendTimeMs == k.lastSent && now <= k.lastSent <= later))
    && (OnePing(s.log) ==> OnePing(t.log))
    && (Orderly(s) ==> Orderly(t))
  }

  lemma CalmTwice(a: State, b: State, c: State, now: Ms, later: Ms)
    requires Calm(a, b, now, later) && Calm(b, c, now, later)
    ensures Calm(a, c, now, later)
  {
    hide HistoryOf, Ordered, OnePing;
  }

  lemma CalmLater(s: State, t: State, now: Ms, later: Ms)
    requires now <= later && Calm(s, t, now, now)
    ensures Calm(s, t, now, later)
  {
    hide HistoryOf, Ordered, OnePing;
  }

  lemma CalmPing(s: State, now: Ms, later: Ms)
    ensures Calm(s, s, now, later)
    ensures Calm(s, Emit(s.(timeSincePing := 0), PingAnswered), now, later)
  {
    hide HistoryOf, Ordered, OnePing;
  }

  lemma CalmClosed(s: State, now: Ms)
    ensures Calm(s, OnConnectionClosed(s), now, now)
  {
    hide HistoryOf, Ordered, OnePing;
  }

  lemma CalmCloseRequest(s: State, now: Ms)
    ensures Calm(s, Emit(s, CloseRequested), now, now)
    ensures Calm(s, NotifyDisconnect(s), now, now)
  {
    hide HistoryOf, Ordered, OnePing;
  }

  lemma CalmHandle(s: State, t: State, now: Ms)
    requires Calm(s, t, now, now)
    ensures Calm(s, t.(xio := false), now, now)
  {
    hide HistoryOf, Ordered, OnePing;
  }

  lemma CalmClose(s: State, closing: Closing, now: Ms)
    ensures Calm(s, CloseConnection(s, closing), now, now)
  {
    hide Calm, Emit, OnConnectionClosed, NotifyDisconnect;
    CalmCloseRequest(s, now);
    var s1 := Emit(s, CloseRequested);
    CalmClosed(s1, now);
    CalmTwice(s, s1, OnConnectionClosed(s1), now, now);
    CalmHandle(s, s1, now);
    CalmHandle(s, OnConnectionClosed(s1), now);
  }

  lemma CalmError(s: State, e: ErrorKind, closing: Closing, now: Ms)
    requires e != NoPingResponse
    ensures Calm(s, SetError(s, e, closing), now, now)
  {
    hide HistoryOf, Ordered, OnePing;
    var s1 := if s.errorCb then Emit(s, ErrorReported(e)) else s;
    CalmClose(s1, closing, now);
  }

  /** A send may be attempted: CONNECT directly after the open, DISCONNECT once accepted, no PINGREQ. */
  predicate MaySend(s: State, kind: PacketType) {
    && kind != PingReq
    && (kind == Connect ==> s.log != [] && s.log[|s.log| - 1].SocketOpened?)
    && (kind == Disconnect ==> s.clientConnected)
  }

  lemma CalmSendFailed(s: State, kind: PacketType, now: Ms)
    requires MaySend(s, kind)
    ensures Calm(s, Emit(s, SendFailed(kind)), now, now)
  {
    hide HistoryOf, Ordered, OnePing;
  }

  lemma CalmSent(s: State, kind: PacketType, wire: seq<byte>, at: Option<Ms>, now: Ms)
    requires MaySend(s, kind) && NotBefore(now, at)
    ensures var t := Emit(s, Sent(kind, wire, at));
            Calm(s, if at.Some? then t.(packetSendTimeMs := at.value) else t, now, Later(now, at))
  {
    hide HistoryOf, Ordered, OnePing;
  }

  lemma CalmSend(s: State, kind: PacketType, wire: seq<byte>, r: SendResult, now: Ms)
    requires MaySend(s, kind) && NotBefore(now, r.clock)
    ensures Calm(s, SendPacket(s, kind, wire, r).0, now, Later(now, r.clock))
  {
    hide Calm, Emit;
    CalmSendFailed(s, kind, now);
    CalmLater(s, Emit(s, SendFailed(kind)), now, Later(now, r.clock));
    CalmSent(s, kind, wire, r.clock, now);
  }

  lemma CalmReply(s: State, kind: PacketType, flags: nat, packetId: uint16, env: ReceiveEnv, now: Ms)
    requires kind in {PubAck, PubRec, PubRel, PubComp} && flags < 16 && NotBefore(now, env.send.clock)
    ensures Calm(s, SendReply(s, kind, flags, packetId, env), now, Later(now, env.send.clock))
  {
    hide HistoryOf, Ordered, OnePing;
    var (s1, sent) := SendPacket(s, kind, ReplyWire(kind, flags, packetId), env.send);
    CalmSend(s, kind, ReplyWire(kind, flags, packetId), env.send, now);
    if !sent {
      CalmError(s1, CommunicationError, env.closing, now);
    }
  }

  lemma CalmAck(s: State, packetId: uint16, qos: QosValue, env: ReceiveEnv, now: Ms)
    requires NotBefore(now, env.send.clock)
    ensures Calm(s, AckMessage(s, packetId, qos, env), now, Later(now, env.send.clock))
  {
    hide HistoryOf, Ordered, OnePing, SendReply;
    CalmReply(s, PubRec, 0, packetId, env, now);
    CalmReply(s, PubAck, 0, packetId, env, now);
  }

  /** Reporting something that settles nothing. */
  lemma CalmEmit(s: State, o: Output, now: Ms)
    requires o.Acked? || o.SubAcked? || o.UnsubAcked? || o.ConnAcked? || o.MessageReceived?
    ensures Calm(s, Emit(s, o), now, now)
  {
    hide HistoryOf, Ordered, OnePing;
  }

  lemma CalmPublish(s: State, p: Packet, env: ReceiveEnv, now: Ms)
    requires NotBefore(now, env.send.clock)
    ensures Calm(s, OnPublish(s, p, env), now, Later(now, env.send.clock))
  {
    hide Calm, Emit, AckMessage, SetError, ReceivePublish;
    var later := Later(now, env.send.clock);
    CalmError(s, ParseError, env.closing, now);
    CalmLater(s, SetError(s, ParseError, env.closing), now, later);
    var received := ReceivePublish(p.body, p.flags);
    if received.Some? {
      var m := received.value;
      var s1 := Emit(s, MessageReceived(m));
      CalmEmit(s, MessageReceived(m), now);
      CalmLater(s, s1, now, later);
      CalmAck(s1, m.packetId, m.qos, env, now);
      CalmTwice(s, s1, AckMessage(s1, m.packetId, m.qos, env), now, later);
    }
  }

  lemma CalmPublishReply(s: State, p: Packet, env: ReceiveEnv, now: Ms)
    requires NotBefore(now, env.send.clock)
    ensures Calm(s, OnPublishReply(s, p, env), now, Later(now, env.send.clock))
  {
    hide SendReply, SetError, Calm, Emit;
    var later := Later(now, env.send.clock);
    if |p.body| != 2 {
      CalmError(s, CommunicationError, env.closing, now);
      CalmLater(s, SetError(s, CommunicationError, env.closing), now, later);
    } else {
      var packetId := FromU16(p.body[0], p.body[1]);
      var s1 := Emit(s, Acked(p.kind, packetId));
      CalmEmit(s, Acked(p.kind, packetId), now);
      CalmLater(s, s1, now, later);
      if p.kind == PubRec {
        CalmReply(s1, PubRel, 2, packetId, env, now);
        CalmTwice(s, s1, SendReply(s1, PubRel, 2, packetId, env), now, later);
      } else if p.kind == PubRel {
        CalmReply(s1, PubComp, 0, packetId, env, now);
        CalmTwice(s, s1, SendReply(s1, PubComp, 0, packetId, env), now, later);
      }
    }
  }

  lemma CalmConnAck(s: State, body: seq<byte>, env: ReceiveEnv, now: Ms)
    ensures Calm(s, OnConnAck(s, body, env), now, now)
  {
    hide HistoryOf, Ordered, OnePing, SetError;
    CalmError(s, CommunicationError, env.closing, now);
  }

  lemma CalmSubAck(s: State, body: seq<byte>, env: ReceiveEnv, now: Ms)
    requires body != []
    ensures Calm(s, OnSubAck(s, body, env), now, now)
  {
    hide SetError, SubackCodes, Calm, Emit;
    CalmError(s, CommunicationError, env.closing, now);
    CalmError(s, MemoryError, env.closing, now);
    if |body| > 1 {
      var (codes, clean) := SubackCodes(body[2..]);
      var s1 := if clean then s else SetError(s, CommunicationError, env.closing);
      CalmPing(s, now, now);
      CalmEmit(s1, SubAcked(FromU16(body[0], body[1]), codes), now);
      CalmTwice(s, s1, Emit(s1, SubAcked(FromU16(body[0], body[1]), codes)), now, now);
    }
  }

  lemma CalmUnsubAck(s: State, body: seq<byte>, env: ReceiveEnv, now: Ms)
    ensures Calm(s, OnUnsubAck(s, body, env), now, now)
  {
    hide SetError, Calm, Emit;
    CalmError(s, CommunicationError, env.closing, now);
    if |body| == 2 {
      CalmEmit(s, UnsubAcked(FromU16(body[0], body[1])), now);
    }
  }

  lemma CalmPacket(s: State, p: Packet, env: ReceiveEnv, now: Ms)
    requires NotBefore(now, env.send.clock)
    ensures Calm(s, OnPacket(s, p, env), now, Later(now, env.send.clock))
  {
    hide Calm, Emit, OnPublish, OnPublishReply, OnConnAck, OnSubAck, OnUnsubAck;
    var later := Later(now, env.send.clock);
    CalmPing(s, now, later);
    CalmPublish(s, p, env, now);
    CalmPublishReply(s, p, env, now);
    if p.body != [] {
      CalmConnAck(s, p.body, env, now);
      CalmSubAck(s, p.body, env, now);
      CalmUnsubAck(s, p.body, env, now);
      CalmLater(s, OnConnAck(s, p.body, env), now, later);
      CalmLater(s, OnSubAck(s, p.body, env), now, later);
      CalmLater(s, OnUnsubAck(s, p.body, env), now, later);
    }
  }

  lemma CalmDisconnect(s: State, callback: bool, r: SendResult, closing: Closing, now: Ms)
    requires NotBefore(now, r.clock)
    ensures Calm(s, OnDisconnectCall(s, callback, r, closing), now, Later(now, r.clock))
  {
    hide HistoryOf, Ordered, OnePing, CloseConnection, SendPacket;
    var s1 := s.(disconnectCb := callback);
    if s.clientConnected {
      CalmSend(s1.(packetState := Disconnect), Disconnect, DISCONNECT_WIRE, r, now);
    }
    CalmClose(s1, closing, now);
    CalmLater(s1, CloseConnection(s1, closing), now, Later(now, r.clock));
  }

  lemma CalmDisconnectDone(s: State, now: Ms)
    ensures Calm(s, Emit(s, DisconnectDone).(pendingClose := true), now, now)
  {
    hide HistoryOf, Ordered, OnePing;
  }

  lemma CalmSendComplete(s: State, outcome: SendOutcome, closing: Closing, now: Ms)
    ensures Calm(s, OnSendComplete(s, outcome, closing), now, now)
  {
    hide Calm, Emit, SetError;
    CalmPing(s, now, now);
    CalmDisconnectDone(s, now);
    CalmError(s, CommunicationError, closing, now);
  }

  lemma CalmClosePending(s: State, closing: Closing, now: Ms)
    ensures Calm(s, OnClosePending(s, closing), now, now)
  {
    hide HistoryOf, Ordered, OnePing, CloseConnection;
    CalmClose(s, closing, now);
  }

  lemma CalmCall(s: State, kind: PacketType, built: Option<seq<byte>>, r: SendResult, now: Ms)
    requires kind in {Publish, Subscribe, Unsubscribe} && NotBefore(now, r.clock)
    ensures Calm(s, OnSendCall(s, kind, built, r), now, Later(now, r.clock))
  {
    hide HistoryOf, Ordered, OnePing;
    if built.Some? {
      CalmSend(s.(packetState := kind), kind, built.value, r, now);
    }
  }

  lemma CalmOpen(s: State, ok: bool, built: Option<seq<byte>>, r: SendResult, now: Ms)
    requires NotBefore(now, r.clock)
    ensures Calm(s, OnOpenComplete(s, ok, built, r), now, Later(now, r.clock))
  {
    hide HistoryOf, Ordered, OnePing;
    if ok && !s.socketConnected && built.Some? {
      CalmSend(Emit(s.(packetState := Connect, socketConnected := true), SocketOpened), Connect, built.value, r, now);
    }
  }

  lemma CalmEvent(s: State, e: Event, now: Ms)
    requires !e.ConnectCall? && !e.KeepAlive? && Monotone(now, e)
    ensures Calm(s, Handle(s, e), now, Advance(now, e))
  {
    hide HistoryOf, Ordered, OnePing, SetError, OnPacket, OnSendCall, OnOpenComplete, OnDisconnectCall,
         AckMessage, OnSendComplete, OnConnectionClosed, OnClosePending;
    match e {
      case OpenComplete(ok, built, send) => CalmOpen(s, ok, built, send, now);
      case ConnectionClosed => CalmClosed(s, now);
      case PacketArrived(packet, env) => CalmPacket(s, packet, env, now);
      case DecodeFailed(closing) => CalmError(s, ParseError, closing, now);
      case SendCompleted(outcome, closing) => CalmSendComplete(s, outcome, closing, now);
      case IoError(closing) => CalmError(s, ConnectionError, closing, now);
      case PublishCall(built, send) => CalmCall(s, Publish, built, send, now);
      case SubscribeCall(built, send) => CalmCall(s, Subscribe, built, send, now);
      case UnsubscribeCall(built, send) => CalmCall(s, Unsubscribe, built, send, now);
      case RespondCall(packetId, qos, env) => CalmAck(s, packetId, qos, env, now);
      case DisconnectCall(callback, send, closing) => CalmDisconnect(s, callback, send, closing, now);
      case ClosePending(closing) => CalmClosePending(s, closing, now);
      case _ =>
    }
  }

  lemma CalmKeepsInv(s: State, t: State, now: Ms, later: Ms)
    requires now <= later && Calm(s, t, now, later) && SendInv(s, now)
    ensures SendInv(t, later)
    ensures forall delta: nat :: StampInv(s, delta) ==> StampInv(t, delta)
    ensures forall delta: nat :: PingInv(s, delta) ==> PingInv(t, delta)
  {
    hide HistoryOf, Ordered, OnePing;
  }
}
