/**
  Laws about the events of whole runs: what a PINGRESP that arrives, an interval that has not passed,
  and a socket that opens mean for what the client reports and sends afterwards.
 */
module EventLaws {
  import opened Basics
  import opened Trace
  import opened Wire
  import opened Reader
  import opened ClientSpec
  import opened QuietSteps
  import opened KeepAliveRuns
  import opened Effects
  import opened BodyRoundTrips
  import Decoder
  import Framing

  // ---------------------------------------------------------------- the log grows

  predicate Grows(a: Log, b: Log) {
    |a| <= |b| && b[..|a|] == a
  }

  /** Moreover, no socket opens and no PINGREQ is attempted. */
  predicate GrowsQuietly(a: Log, b: Log) {
    && Grows(a, b)
    && forall i | |a| <= i < |b| :: !b[i].SocketOpened? && !Attempt(b[i], PingReq)
  }

  /** Moreover, no socket opens. */
  predicate GrowsUnopened(a: Log, b: Log) {
    Grows(a, b) && forall i | |a| <= i < |b| :: !b[i].SocketOpened?
  }

  lemma GrowsTwice(a: Log, b: Log, c: Log)
    requires Grows(a, b) && Grows(b, c)
    ensures Grows(a, c)
  {
    assert c[..|b|][..|a|] == c[..|a|];
  }

  lemma QuietlyTwice(a: Log, b: Log, c: Log)
    requires GrowsQuietly(a, b) && GrowsQuietly(b, c)
    ensures GrowsQuietly(a, c)
  {
    GrowsTwice(a, b, c);
    forall i | |a| <= i < |c| ensures !c[i].SocketOpened? && !Attempt(c[i], PingReq) {
      if i < |b| {
        assert c[..|b|][i] == c[i];
      }
    }
  }

  lemma UnopenedTwice(a: Log, b: Log, c: Log)
    requires GrowsUnopened(a, b) && GrowsUnopened(b, c)
    ensures GrowsUnopened(a, c)
  {
    GrowsTwice(a, b, c);
    forall i | |a| <= i < |c| ensures !c[i].SocketOpened? {
      if i < |b| {
        assert c[..|b|][i] == c[i];
      }
    }
  }

  lemma CloseQuietly(s: State, closing: Closing)
    ensures GrowsQuietly(s.log, CloseConnection(s, closing).log)
  {
    hide CloseConnection;
    CloseEffect(s, closing);
  }

  lemma ErrorQuietly(s: State, e: ErrorKind, closing: Closing)
    ensures GrowsQuietly(s.log, SetError(s, e, closing).log)
  {
    hide CloseConnection, SetError;
    ErrorEffect(s, e, closing);
    var t := s.(log := s.log + if s.errorCb then [ErrorReported(e)] else []);
    CloseQuietly(t, closing);
    QuietlyTwice(s.log, t.log, SetError(s, e, closing).log);
  }

  lemma SendQuietly(s: State, kind: PacketType, wire: seq<byte>, r: SendResult)
    requires kind != PingReq
    ensures GrowsQuietly(s.log, SendPacket(s, kind, wire, r).0.log)
  {
    hide SendPacket;
    SendEffect(s, kind, wire, r);
  }

  lemma ReplyQuietly(s: State, kind: PacketType, flags: nat, packetId: uint16, env: ReceiveEnv)
    requires kind in {PubAck, PubRec, PubRel, PubComp} && flags < 16
    ensures GrowsQuietly(s.log, SendReply(s, kind, flags, packetId, env).log)
  {
    hide SendPacket, SetError;
    var wire := ReplyWire(kind, flags, packetId);
    var t := SendPacket(s, kind, wire, env.send).0;
    SendQuietly(s, kind, wire, env.send);
    ErrorQuietly(t, CommunicationError, env.closing);
    QuietlyTwice(s.log, t.log, SetError(t, CommunicationError, env.closing).log);
  }

  lemma AckQuietly(s: State, packetId: uint16, qos: QosValue, env: ReceiveEnv)
    ensures GrowsQuietly(s.log, AckMessage(s, packetId, qos, env).log)
  {
    hide SendReply;
    ReplyQuietly(s, PubRec, 0, packetId, env);
    ReplyQuietly(s, PubAck, 0, packetId, env);
  }

  lemma PublishQuietly(s: State, p: Packet, env: ReceiveEnv)
    ensures GrowsQuietly(s.log, OnPublish(s, p, env).log)
  {
    hide HistoryOf, Ordered, OnePing, InOrder, SetError, AckMessage, ReceivePublish;
    ErrorQuietly(s, ParseError, env.closing);
    var received := ReceivePublish(p.body, p.flags);
    if received.Some? {
      var m := received.value;
      var t := Emit(s, MessageReceived(m));
      AckQuietly(t, m.packetId, m.qos, env);
      QuietlyTwice(s.log, t.log, AckMessage(t, m.packetId, m.qos, env).log);
    }
  }

  lemma PublishReplyQuietly(s: State, p: Packet, env: ReceiveEnv)
    ensures GrowsQuietly(s.log, OnPublishReply(s, p, env).log)
  {
    hide HistoryOf, Ordered, OnePing, InOrder, SetError, SendReply;
    ErrorQuietly(s, CommunicationError, env.closing);
    if |p.body| == 2 {
      var packetId := FromU16(p.body[0], p.body[1]);
      var t := Emit(s, Acked(p.kind, packetId));
      ReplyQuietly(t, PubRel, 2, packetId, env);
      ReplyQuietly(t, PubComp, 0, packetId, env);
      QuietlyTwice(s.log, t.log, SendReply(t, PubRel, 2, packetId, env).log);
      QuietlyTwice(s.log, t.log, SendReply(t, PubComp, 0, packetId, env).log);
    }
  }

  lemma EmitQuietly(s: State, o: Output)
    requires !o.SocketOpened? && !Attempt(o, PingReq)
    ensures GrowsQuietly(s.log, Emit(s, o).log) && GrowsQuietly(s.log, s.log)
  {
    hide HistoryOf, Ordered, OnePing, InOrder;
  }

  lemma SubAckQuietly(s: State, body: seq<byte>, env: ReceiveEnv)
    requires body != []
    ensures GrowsQuietly(s.log, OnSubAck(s, body, env).log)
  {
    hide SetError, SubackCodes, Handle;
    ErrorQuietly(s, CommunicationError, env.closing);
    ErrorQuietly(s, MemoryError, env.closing);
    if |body| > 1 {
      var (codes, clean) := SubackCodes(body[2..]);
      var t := if clean then s else SetError(s, CommunicationError, env.closing);
      var o := SubAcked(FromU16(body[0], body[1]), codes);
      EmitQuietly(t, o);
      QuietlyTwice(s.log, t.log, Emit(t, o).log);
    }
  }

  lemma UnsubAckQuietly(s: State, body: seq<byte>, env: ReceiveEnv)
    ensures GrowsQuietly(s.log, OnUnsubAck(s, body, env).log)
  {
    hide SetError, Emit;
    ErrorQuietly(s, CommunicationError, env.closing);
    if |body| == 2 {
      EmitQuietly(s, UnsubAcked(FromU16(body[0], body[1])));
    }
  }

  lemma ConnAckQuietly(s: State, body: seq<byte>, env: ReceiveEnv)
    ensures GrowsQuietly(s.log, OnConnAck(s, body, env).log)
  {
    hide SetError, Emit;
    ErrorQuietly(s, CommunicationError, env.closing);
    if |body| == 2 {
      EmitQuietly(s, ConnAcked(body[0] == 1, if body[1] < 6 then body[1] else 6));
    }
  }

  lemma PacketQuietly(s: State, p: Packet, env: ReceiveEnv)
    ensures GrowsQuietly(s.log, OnPacket(s, p, env).log)
  {
    hide Emit, GrowsQuietly, OnPublish, OnPublishReply, OnSubAck, OnUnsubAck, OnConnAck;
    EmitQuietly(s, PingAnswered);
    EmitQuietly(s.(timeSincePing := 0), PingAnswered);
    PublishQuietly(s, p, env);
    PublishReplyQuietly(s, p, env);
    if p.body != [] {
      ConnAckQuietly(s, p.body, env);
      SubAckQuietly(s, p.body, env);
      UnsubAckQuietly(s, p.body, env);
    }
  }

  lemma CallQuietly(s: State, kind: PacketType, built: Option<seq<byte>>, r: SendResult)
    requires kind != PingReq
    ensures GrowsQuietly(s.log, OnSendCall(s, kind, built, r).log)
  {
    hide SendPacket;
    if built.Some? {
      SendQuietly(s.(packetState := kind), kind, built.value, r);
    }
  }

  lemma SimpleQuietly(s: State, keepAlive: uint16, cloned: bool, xioOpened: bool)
    ensures GrowsQuietly(s.log, OnConnectCall(s, keepAlive, cloned, xioOpened).log)
    ensures GrowsQuietly(s.log, ClientSpec.OnConnectionClosed(s).log)
  {
    ConnectEffect(s, keepAlive, cloned, xioOpened);
    ClosedEffect(s);
    hide OnConnectCall, ClientSpec.OnConnectionClosed;
  }

  lemma CompletedQuietly(s: State, outcome: SendOutcome, closing: Closing)
    ensures GrowsQuietly(s.log, OnSendComplete(s, outcome, closing).log)
  {
    hide SetError, Emit;
    ErrorQuietly(s, CommunicationError, closing);
    EmitQuietly(s, DisconnectDone);
  }

  lemma DisconnectQuietly(s: State, callback: bool, r: SendResult, closing: Closing)
    ensures GrowsQuietly(s.log, OnDisconnectCall(s, callback, r, closing).log)
  {
    hide SendPacket, CloseConnection;
    SendQuietly(s.(disconnectCb := callback, packetState := PacketType.Disconnect), Disconnect, DISCONNECT_WIRE, r);
    CloseQuietly(s.(disconnectCb := callback), closing);
  }

  lemma PendingQuietly(s: State, closing: Closing)
    ensures GrowsQuietly(s.log, OnClosePending(s, closing).log)
  {
    hide CloseConnection;
    CloseQuietly(s, closing);
  }

  /** Only an accepted open opens a socket, and only the watchdog sends PINGREQ. */
  lemma EventQuietly(s: State, e: Event)
    requires !e.OpenComplete? && !e.KeepAlive?
    ensures GrowsQuietly(s.log, Handle(s, e).log)
  {
    hide Emit, Append, GrowsQuietly, SetError, CloseConnection, SendPacket, OnPacket, AckMessage, OnSendCall,
         OnSendComplete, OnConnectionClosed, OnConnectCall, OnDisconnectCall, OnClosePending, NotifyDisconnect;
    EmitQuietly(s, PingAnswered);
    match e {
      case ConnectCall(keepAlive, cloned, xioOpened) => SimpleQuietly(s, keepAlive, cloned, xioOpened);
      case ConnectionClosed => SimpleQuietly(s, 0, true, true);
      case PacketArrived(packet, env) => PacketQuietly(s, packet, env);
      case DecodeFailed(closing) => ErrorQuietly(s, ParseError, closing);
      case SendCompleted(outcome, closing) => CompletedQuietly(s, outcome, closing);
      case IoError(closing) => ErrorQuietly(s, ConnectionError, closing);
      case PublishCall(built, r) => CallQuietly(s, Publish, built, r);
      case SubscribeCall(built, r) => CallQuietly(s, Subscribe, built, r);
      case UnsubscribeCall(built, r) => CallQuietly(s, Unsubscribe, built, r);
      case RespondCall(packetId, qos, env) => AckQuietly(s, packetId, qos, env);
      case DisconnectCall(callback, r, closing) => DisconnectQuietly(s, callback, r, closing);
      case ClosePending(closing) => PendingQuietly(s, closing);
      case _ =>
    }
  }

  lemma AddedOutputs(log: Log, outputs: seq<Output>)
    ensures Grows(log, log + outputs)
    ensures forall i | |log| <= i < |log + outputs| :: (log + outputs)[i] == outputs[i - |log|]
  {
  }

  lemma OpenWithConnectGrows(s: State, wire: seq<byte>, r: SendResult)
    requires !s.socketConnected
    ensures var t := Handle(s, OpenComplete(true, Some(wire), r));
      && Grows(s.log, t.log)
      && forall i | |s.log| <= i < |t.log| :: !Attempt(t.log[i], PingReq) && (t.log[i].SocketOpened? ==> i == |s.log|)
  {
    hide Handle;
    OpenEffect(s, wire, r);
    var sent := if r.accepted then Sent(Connect, wire, r.clock) else SendFailed(Connect);
    var more := if (!r.accepted || r.clock.None?) && s.errorCb then [ErrorReported(ConnectionError)] else [];
    var outputs := [SocketOpened, sent] + more;
    assert forall i | 0 <= i < |outputs| :: !Attempt(outputs[i], PingReq) && (outputs[i].SocketOpened? ==> i == 0);
    assert Handle(s, OpenComplete(true, Some(wire), r)).log == s.log + outputs;
    AddedOutputs(s.log, outputs);
  }

  lemma OpenGrows(s: State, ok: bool, built: Option<seq<byte>>, r: SendResult)
    ensures var t := Handle(s, OpenComplete(ok, built, r));
      && Grows(s.log, t.log)
      && (!ok || s.socketConnected ==> GrowsQuietly(s.log, t.log))
      && forall i | |s.log| <= i < |t.log| :: !Attempt(t.log[i], PingReq) && (t.log[i].SocketOpened? ==> i == |s.log|)
  {
    hide Handle;
    if !ok || s.socketConnected {
      OpenFailedEffect(s, ok, built, r);
    } else if built.None? {
      OpenEffect(s, [], r);
    } else {
      OpenWithConnectGrows(s, built.value, r);
    }
  }

  lemma SendUnopened(s: State, kind: PacketType, wire: seq<byte>, r: SendResult)
    ensures GrowsUnopened(s.log, SendPacket(s, kind, wire, r).0.log)
  {
    SendEffect(s, kind, wire, r);
    hide SendPacket;
  }

  lemma QuietlyUnopened(a: Log, b: Log)
    requires GrowsQuietly(a, b)
    ensures GrowsUnopened(a, b)
  {
  }

  lemma PingGrows(s: State, r: SendResult, stamp: Option<Ms>, closing: Closing)
    ensures GrowsUnopened(s.log, ClientSpec.SendPing(s, r, stamp, closing).log)
  {
    hide SetError, SendPacket, GrowsUnopened, GrowsQuietly;
    var u := SendPacket(s, PingReq, PINGREQ_WIRE, r).0;
    assert GrowsUnopened(s.log, u.log) by {
      SendUnopened(s, PingReq, PINGREQ_WIRE, r);
    }
    var v := u.(timeSincePing := 0, packetSendTimeMs := 0, packetState := PacketType.Unknown);
    ErrorQuietly(v, CommunicationError, closing);
    QuietlyUnopened(v.log, SetError(v, CommunicationError, closing).log);
    UnopenedTwice(s.log, u.log, SetError(v, CommunicationError, closing).log);
  }

  /** A check that finds a ping overdue, or no send due, sends nothing; otherwise a PINGREQ is attempted. */
  lemma CheckGrows(s: State, e: Event)
    requires e.KeepAlive?
    ensures GrowsUnopened(s.log, Handle(s, e).log)
    ensures GrowsQuietly(s.log, Handle(s, e).log) || (Watching(s) && e.clock.Some? && PingDue(s, e.clock.value))
  {
    hide Emit, SetError, ClientSpec.SendPing, GrowsUnopened, GrowsQuietly;
    EmitQuietly(s, PingAnswered);
    QuietlyUnopened(s.log, s.log);
    if Watching(s) && e.clock.Some? {
      var t := Emit(s, Checked(e.clock.value));
      EmitQuietly(s, Checked(e.clock.value));
      ErrorQuietly(t, NoPingResponse, e.closing);
      QuietlyTwice(s.log, t.log, SetError(t, NoPingResponse, e.closing).log);
      QuietlyUnopened(s.log, t.log);
      QuietlyUnopened(s.log, SetError(t, NoPingResponse, e.closing).log);
      PingGrows(t, e.send, e.stamp, e.closing);
      UnopenedTwice(s.log, t.log, ClientSpec.SendPing(t, e.send, e.stamp, e.closing).log);
    }
  }

  lemma EventGrows(s: State, e: Event)
    ensures Grows(s.log, Handle(s, e).log)
  {
    hide Handle;
    if e.OpenComplete? {
      OpenGrows(s, e.ok, e.built, e.send);
    } else if e.KeepAlive? {
      CheckGrows(s, e);
    } else {
      EventQuietly(s, e);
    }
  }

  lemma {:induction false} RunGrows(s: State, events: seq<Event>)
    ensures Grows(s.log, Run(s, events).log)
    decreases |events|
  {
    hide Handle;
    if events != [] {
      EventGrows(s, events[0]);
      RunGrows(Handle(s, events[0]), events[1..]);
      GrowsTwice(s.log, Handle(s, events[0]).log, Run(s, events).log);
    }
  }

  /** A run up to event i, that event, and the rest. */
  lemma RunSplit(errorCb: bool, events: seq<Event>, i: nat)
    requires i < |events|
    ensures RunOf(errorCb, events[..i + 1]) == Handle(RunOf(errorCb, events[..i]), events[i])
    ensures Grows(RunOf(errorCb, events[..i + 1]).log, RunOf(errorCb, events).log)
  {
    hide Handle, Run;
    assert events[..i + 1] == events[..i] + [events[i]];
    RunAppend(Initial(errorCb), events[..i], [events[i]]);
    RunOne(RunOf(errorCb, events[..i]), events[i]);
    assert events == events[..i + 1] + events[i + 1..];
    RunAppend(Initial(errorCb), events[..i + 1], events[i + 1..]);
    RunGrows(RunOf(errorCb, events[..i + 1]), events[i + 1..]);
  }

  // ---------------------------------------------------------------- a PINGRESP answers

  lemma ObserveWaiting(h: History, o: Output)
    ensures var k := Observe(h, o);
      k.waiting.Some? ==>
        if h.waiting.Some?
        then k.waiting.value.first == h.waiting.value.first && !o.PingAnswered? && !o.ConnectCalled?
        else o.Sent? && o.kind == PingReq && o.at == Some(k.waiting.value.first)
  {
  }

  /** The first of the PINGREQs that wait is in the log, with no answer and no connect call after it. */
  lemma {:induction false} WaitingSince(log: Log) returns (p: nat)
    requires HistoryOf(log).waiting.Some?
    ensures p < |log| && log[p].Sent? && log[p].kind == PingReq
    ensures log[p].at == Some(HistoryOf(log).waiting.value.first)
    ensures forall q | p < q < |log| :: !log[q].PingAnswered? && !log[q].ConnectCalled?
  {
    var before, last := log[..|log| - 1], log[|log| - 1];
    ObserveWaiting(HistoryOf(before), last);
    hide Observe;
    if HistoryOf(before).waiting.Some? {
      p := WaitingSince(before);
      forall q | p < q < |log| ensures !log[q].PingAnswered? && !log[q].ConnectCalled? {
        if q < |before| {
          assert before[q] == log[q];
        }
      }
    } else {
      p := |log| - 1;
    }
  }

  /** A PINGRESP that arrives, whatever its flags and body. */
  predicate Answers(e: Event) {
    e.PacketArrived? && e.packet.kind == PingResp
  }

  /** The output of event i that shows a PINGRESP or a connect call. */
  lemma AnswerShown(errorCb: bool, events: seq<Event>, i: nat)
    requires i < |events| && (Answers(events[i]) || events[i].ConnectCall?)
    ensures var log, n := RunOf(errorCb, events).log, |RunOf(errorCb, events[..i]).log|;
      && n < |log| && (log[n].PingAnswered? || log[n].ConnectCalled?)
      && |RunOf(errorCb, events[..i + 1]).log| == n + 1
  {
    hide Handle, Run, RunOf, HistoryOf;
    RunSplit(errorCb, events, i);
    var s, e := RunOf(errorCb, events[..i]), events[i];
    if e.ConnectCall? {
      ConnectEffect(s, e.keepAlive, e.cloned, e.xioOpened);
    } else {
      PingResponseEffect(s, e.packet.flags, e.packet.body, e.env);
      assert e.packet == Packet(PingResp, e.packet.flags, e.packet.body);
    }
    var next, log := RunOf(errorCb, events[..i + 1]).log, RunOf(errorCb, events).log;
    assert log[..|next|][|s.log|] == next[|s.log|];
  }

  lemma AnswersBefore(errorCb: bool, events: seq<Event>, p: nat)
    requires var log := RunOf(errorCb, events).log;
      && p < |log| && log[p].Sent?
      && forall q | p < q < |log| :: !log[q].PingAnswered? && !log[q].ConnectCalled?
    ensures forall i | 0 <= i < |events| && (Answers(events[i]) || events[i].ConnectCall?) ::
              |RunOf(errorCb, events[..i + 1]).log| <= p
  {
    hide RunOf;
    var log := RunOf(errorCb, events).log;
    forall i | 0 <= i < |events| && (Answers(events[i]) || events[i].ConnectCall?)
      ensures |RunOf(errorCb, events[..i + 1]).log| <= p
    {
      AnswerShown(errorCb, events, i);
      var n := |RunOf(errorCb, events[..i]).log|;
      assert n <= p;
    }
  }

  /**
    A missing response is reported only for a PINGREQ that went out after every PINGRESP that arrived and
    every connect call made, and at least min(80, K / 2) + 1 seconds before the check; whatever readings
    fail or come late.
   */
  lemma TimeoutMeansUnanswered(errorCb: bool, events: seq<Event>, e: Event) returns (p: nat)
    requires MonotoneRun(0, events) && Monotone(ClockAfter(0, events), e)
    requires var s := RunOf(errorCb, events); HistoryOf(Handle(s, e).log).timeouts != HistoryOf(s.log).timeouts
    ensures var s := RunOf(errorCb, events);
      && e.KeepAlive? && e.clock.Some?
      && p < |s.log| && s.log[p].Sent? && s.log[p].kind == PingReq && s.log[p].at.Some?
      && e.clock.value >= s.log[p].at.value
                          + 1000 * ((if s.keepAliveInterval / 2 < 80 then s.keepAliveInterval / 2 else 80) + 1)
      && forall i | 0 <= i < |events| && (Answers(events[i]) || events[i].ConnectCall?) ::
           |RunOf(errorCb, events[..i + 1]).log| <= p
  {
    hide Handle, RunOf, HistoryOf, MonotoneRun, Monotone, ClockAfter;
    PingTimeoutNotEarly(errorCb, events, e);
    p := WaitingSince(RunOf(errorCb, events).log);
    AnswersBefore(errorCb, events, p);
  }

  // ---------------------------------------------------------------- no early PINGREQ

  /**
    A PINGREQ is attempted only by a check at least an interval after the last send, unless the
    connection was given up since: then the send time has been forgotten.
   */
  lemma NoEarlyPing(errorCb: bool, events: seq<Event>, e: Event, p: nat)
    requires MonotoneRun(0, events) && Monotone(ClockAfter(0, events), e)
    requires var s := RunOf(errorCb, events); var t := Handle(s, e);
             |s.log| <= p < |t.log| && Attempt(t.log[p], PingReq)
    ensures var s := RunOf(errorCb, events); var h := HistoryOf(s.log);
      && e.KeepAlive? && e.clock.Some? && s.keepAliveInterval > 0
      && (e.clock.value >= h.lastSent + 1000 * s.keepAliveInterval || h.givenUp)
  {
    var s := RunOf(errorCb, events);
    hide HistoryOf, Handle;
    InitialInv(errorCb);
    RunKeepsSendInv(Initial(errorCb), events, 0);
    if e.OpenComplete? {
      OpenGrows(s, e.ok, e.built, e.send);
    } else if e.KeepAlive? {
      CheckGrows(s, e);
    } else {
      EventQuietly(s, e);
    }
  }

  // ---------------------------------------------------------------- every socket gets its CONNECT

  lemma OnlyOpenOpens(s: State, e: Event, p: nat)
    requires var t := Handle(s, e); |s.log| <= p < |t.log| && t.log[p].SocketOpened?
    ensures e.OpenComplete? && e.ok && !s.socketConnected && p == |s.log|
  {
    hide Handle;
    if e.OpenComplete? {
      OpenGrows(s, e.ok, e.built, e.send);
      if !s.socketConnected {
        OpenEffect(s, if e.built.Some? then e.built.value else [], e.send);
      }
    } else if e.KeepAlive? {
      CheckGrows(s, e);
    } else {
      EventQuietly(s, e);
    }
  }

  /** Every socket that opens is opened by an accepted open on a client without one. */
  lemma {:induction false} OpenedByEvent(errorCb: bool, events: seq<Event>, p: nat) returns (i: nat)
    requires p < |RunOf(errorCb, events).log| && RunOf(errorCb, events).log[p].SocketOpened?
    ensures i < |events| && events[i].OpenComplete? && events[i].ok
    ensures !RunOf(errorCb, events[..i]).socketConnected && |RunOf(errorCb, events[..i]).log| == p
    decreases |events|
  {
    if events == [] {
      assert false;
    }
    hide Handle, Run, HistoryOf, RunOf;
    var n := |events| - 1;
    var before, e := events[..n], events[n];
    var s, t := RunOf(errorCb, before), RunOf(errorCb, events);
    RunSplit(errorCb, events, n);
    assert events[..n + 1] == events;
    EventGrows(s, e);
    if p < |s.log| {
      assert t.log[..|s.log|][p] == s.log[p];
      i := OpenedByEvent(errorCb, before, p);
      assert before[..i] == events[..i];
    } else {
      i := n;
      OnlyOpenOpens(s, e, p);
    }
  }

  lemma BuiltSome(o: ClientOptions, built: Option<seq<byte>>)
    requires Connectable(o) && BuiltFrom(o, built)
    ensures built.Some?
  {
  }

  /**
    In every run, an accepted open on a client without a socket, with options that mqtt_codec_connect
    takes, opens the socket and attempts a CONNECT directly after it.
   */
  lemma OpenedSocketGetsConnect(errorCb: bool, events: seq<Event>, i: nat, o: ClientOptions)
    requires i < |events| && events[i].OpenComplete? && events[i].ok && !RunOf(errorCb, events[..i]).socketConnected
    requires Connectable(o) && BuiltFrom(o, events[i].built)
    ensures var log, n, e := RunOf(errorCb, events).log, |RunOf(errorCb, events[..i]).log|, events[i];
      && n + 1 < |log| && log[n] == SocketOpened
      && log[n + 1] == if e.send.accepted then Sent(Connect, e.built.value, e.send.clock) else SendFailed(Connect)
  {
    hide Handle, Run, RunOf, BuiltFrom;
    assert events[i].built.Some? by {
      BuiltSome(o, events[i].built);
    }
    RunSplit(errorCb, events, i);
    OpenEffect(RunOf(errorCb, events[..i]), events[i].built.value, events[i].send);
    var next, log := RunOf(errorCb, events[..i + 1]).log, RunOf(errorCb, events).log;
    var n := |RunOf(errorCb, events[..i]).log|;
    assert log[..|next|][n] == next[n] && log[..|next|][n + 1] == next[n + 1];
  }

  /** What a server reads from that CONNECT are the options, and the bytes left over are the unwritten ones. */
  lemma ConnectSaysOptions(o: ClientOptions, built: Option<seq<byte>>) returns (body: seq<byte>)
    requires Connectable(o) && BuiltFrom(o, built)
    ensures built.Some? && Decoder.Feed(Decoder.FRESH, built.value).ok
    ensures Decoder.Feed(Decoder.FRESH, built.value).packets == [Packet(Connect, 0, body)]
    ensures var read := ParseConnect(body);
            read.Some? && read.value.0 == Meaning(o) && |read.value.1| == Slack(o)
  {
    var slack: seq<byte> :|
      |slack| == Slack(o) && built.value == FrameWire(PacketType.Connect, 0, ConnectBody(o) + slack);
    body := ConnectBody(o) + slack;
    ConnectSize(o);
    ConnectRoundTrip(o, slack);
    hide ConnectBody, FrameWire, ParseConnect, Decoder.Feed;
    var p := Framing.ConnectPacket(o, slack);
    assert Framing.Fits(p) && Framing.Bytes(p) == built.value && Framing.Sent(p) == Packet(Connect, 0, body);
    Framing.FeedBytes(p);
  }
}
