/**
  What every event does to a client, completely: the outputs it adds, byte by byte where they are
  packets, and the fields it changes.
 */
module Effects {
  import opened Basics
  import opened Trace
  import opened Wire
  import opened Reader
  import opened ClientSpec
  import opened Decoder
  import opened Client

  /** A new client: no handle, no connection, nothing sent, no interval and a ping limit of 80 seconds. */
  lemma InitialEffect(errorCb: bool)
    ensures var s := Initial(errorCb);
      && !s.xio && !s.clientConnected && !s.socketConnected && !s.pendingClose && !s.disconnectCb
      && s.errorCb == errorCb && s.packetState == Unknown && s.packetSendTimeMs == 0 && s.timeSincePing == 0
      && s.keepAliveInterval == 0 && s.maxPingRespTime == 80 && s.log == []
  {
  }

  // ---------------------------------------------------------------- sending and closing

  /** The packet may be out although the call fails, when the clock cannot be read. */
  lemma SendEffect(s: State, kind: PacketType, wire: seq<byte>, r: SendResult)
    ensures SendPacket(s, kind, wire, r) ==
      if !r.accepted then (s.(log := s.log + [SendFailed(kind)]), false)
      else if r.clock.None? then (s.(log := s.log + [Sent(kind, wire, None)]), false)
      else (s.(log := s.log + [Sent(kind, wire, r.clock)], packetSendTimeMs := r.clock.value), true)
  {
    hide HistoryOf, Ordered, OnePing, InOrder, Observe;
  }

  lemma ClosedEffect(s: State)
    ensures Handle(s, ConnectionClosed)
         == s.(socketConnected := false,
               log := s.log + if s.disconnectCb then [SocketClosed, DisconnectNotified] else [SocketClosed])
  {
    hide HistoryOf, Ordered, OnePing, InOrder, Observe;
    assert s.log + [SocketClosed] + [DisconnectNotified] == s.log + [SocketClosed, DisconnectNotified];
  }

  /**
    A close asks for the end of an open connection and drops the handle; the connection is closed on
    return if xio_close closed it at once or, without a disconnect callback, within 20 rounds. Without a
    connection, the callback alone is told.
   */
  lemma CloseEffect(s: State, closing: Closing)
    ensures CloseConnection(s, closing) ==
      if !s.socketConnected then s.(log := s.log + if s.disconnectCb then [DisconnectNotified] else [])
      else if closing.None? || closing.value > (if s.disconnectCb then 0 else 20) then
        s.(xio := false, log := s.log + [CloseRequested])
      else
        s.(xio := false, socketConnected := false,
           log := s.log + [CloseRequested, SocketClosed] + if s.disconnectCb then [DisconnectNotified] else [])
  {
    hide HistoryOf, Ordered, OnePing, InOrder, Observe;
    assert s.log + [CloseRequested] + [SocketClosed] == s.log + [CloseRequested, SocketClosed];
  }

  /** An error is reported to the callback, if there is one, and then the connection is closed. */
  lemma ErrorEffect(s: State, e: ErrorKind, closing: Closing)
    ensures SetError(s, e, closing)
         == CloseConnection(s.(log := s.log + if s.errorCb then [ErrorReported(e)] else []), closing)
    ensures Handle(s, IoError(closing)) == SetError(s, ConnectionError, closing)
    ensures Handle(s, DecodeFailed(closing)) == SetError(s, ParseError, closing)
  {
    hide HistoryOf, Ordered, OnePing, InOrder, Observe, CloseConnection;
    assert s.log + [] == s.log;
  }

  // ---------------------------------------------------------------- socket events

  /** The socket opens: the CONNECT goes out, or the failure is reported and a close pending. */
  lemma OpenEffect(s: State, wire: seq<byte>, r: SendResult)
    requires !s.socketConnected
    ensures var u := s.(packetState := Connect, socketConnected := true);
      Handle(s, OpenComplete(true, Some(wire), r)) ==
           if r.accepted && r.clock.Some? then
             u.(packetSendTimeMs := r.clock.value, log := s.log + [SocketOpened, Sent(Connect, wire, r.clock)])
           else
             u.(pendingClose := true,
                log := s.log + [SocketOpened, if r.accepted then Sent(Connect, wire, None) else SendFailed(Connect)]
                             + if s.errorCb then [ErrorReported(ConnectionError)] else [])
    ensures Handle(s, OpenComplete(true, None, r))
         == s.(packetState := Connect, socketConnected := true, log := s.log + [SocketOpened])
  {
    hide HistoryOf, Ordered, OnePing, InOrder, Observe;
    var o := if r.accepted then Sent(Connect, wire, r.clock) else SendFailed(Connect);
    assert s.log + [SocketOpened] + [o] == s.log + [SocketOpened, o];
  }

  /** The socket does not open, or is open already. */
  lemma OpenFailedEffect(s: State, ok: bool, built: Option<seq<byte>>, r: SendResult)
    requires !ok || s.socketConnected
    ensures Handle(s, OpenComplete(ok, built, r))
         == s.(pendingClose := true,
               log := s.log + if !s.socketConnected && s.errorCb then [ErrorReported(ConnectionError)] else [])
  {
    hide HistoryOf, Ordered, OnePing, InOrder, Observe;
  }

  /** A completed send matters after a DISCONNECT only; a failed one always, and a cancelled one never. */
  lemma SendCompletedEffect(s: State, closing: Closing)
    ensures Handle(s, SendCompleted(SendOk, closing))
         == if s.packetState == Disconnect then s.(pendingClose := true, log := s.log + [DisconnectDone]) else s
    ensures Handle(s, SendCompleted(SendError, closing)) == SetError(s, CommunicationError, closing)
    ensures Handle(s, SendCompleted(SendCancelled, closing)) == s
  {
    hide HistoryOf, Ordered, OnePing, InOrder, Observe, SetError;
  }

  // ---------------------------------------------------------------- received packets

  /** CONNACK: two bytes, of which the first is 0 or 1; return codes from 6 on are reported as 6. */
  lemma ConnAckEffect(s: State, body: seq<byte>, env: ReceiveEnv)
    requires body != []
    ensures Handle(s, PacketArrived(Packet(ConnAck, 0, body), env)) ==
      if |body| == 2 && body[0] <= 1 then
        s.(clientConnected := s.clientConnected || body[1] == 0,
           log := s.log + [ConnAcked(body[0] == 1, if body[1] <= 5 then body[1] else 6)])
      else SetError(s, CommunicationError, env.closing)
  {
    hide HistoryOf, Ordered, OnePing, InOrder, Observe, SetError;
  }

  /** The four bytes of an acknowledgement; a send that fails is an error. */
  lemma ReplyEffect(s: State, packetId: uint16, env: ReceiveEnv)
    ensures forall kind, first: byte |
      (kind, first) in {(PubAck, 0x40), (PubRec, 0x50), (PubRel, 0x62), (PubComp, 0x70)} ::
      var (t, sent) := SendPacket(s, kind, [first, 2, packetId / 256, packetId % 256], env.send);
      SendReply(s, kind, first % 16, packetId, env) == if sent then t else SetError(t, CommunicationError, env.closing)
  {
    hide SendPacket, SetError;
    forall kind, first: byte | (kind, first) in {(PubAck, 0x40), (PubRec, 0x50), (PubRel, 0x62), (PubComp, 0x70)}
      ensures var (t, sent) := SendPacket(s, kind, [first, 2, packetId / 256, packetId % 256], env.send);
        SendReply(s, kind, first % 16, packetId, env)
          == if sent then t else SetError(t, CommunicationError, env.closing)
    {
      assert ReplyWire(kind, first % 16, packetId) == [first, 2, packetId / 256, packetId % 256];
    }
  }

  /** QoS 2 is acknowledged with a PUBREC, QoS 1 with a PUBACK, and nothing else is. */
  lemma AckEffect(s: State, packetId: uint16, qos: QosValue, env: ReceiveEnv)
    ensures AckMessage(s, packetId, qos, env) ==
      if qos == ExactlyOnce then SendReply(s, PubRec, 0, packetId, env)
      else if qos == AtLeastOnce then SendReply(s, PubAck, 0, packetId, env)
      else s
    ensures Handle(s, RespondCall(packetId, qos, env)) == if packetId == 0 then s else AckMessage(s, packetId, qos, env)
  {
    hide SendReply;
  }

  /** PUBLISH: the message callback, then the acknowledgement if it asks for a synchronous one. */
  lemma PublishEffect(s: State, flags: nat, body: seq<byte>, env: ReceiveEnv)
    requires body != []
    ensures Handle(s, PacketArrived(Packet(Publish, flags, body), env)) ==
      match ReceivePublish(body, flags)
      case None => SetError(s, ParseError, env.closing)
      case Some(m) =>
        var t := s.(log := s.log + [MessageReceived(m)]);
        if env.ackSync then AckMessage(t, m.packetId, m.qos, env) else t
  {
    hide HistoryOf, Ordered, OnePing, InOrder, Observe, SetError, AckMessage, ReceivePublish;
  }

  /** PUBACK, PUBREC, PUBREL and PUBCOMP: the callback, and the next packet of a QoS 2 exchange. */
  lemma PublishReplyEffect(s: State, hi: byte, lo: byte, env: ReceiveEnv)
    ensures var id := 256 * hi + lo;
      && Handle(s, PacketArrived(Packet(PubAck, 0, [hi, lo]), env)) == s.(log := s.log + [Acked(PubAck, id)])
      && Handle(s, PacketArrived(Packet(PubRec, 0, [hi, lo]), env))
         == SendReply(s.(log := s.log + [Acked(PubRec, id)]), PubRel, 2, id, env)
      && Handle(s, PacketArrived(Packet(PubRel, 2, [hi, lo]), env))
         == SendReply(s.(log := s.log + [Acked(PubRel, id)]), PubComp, 0, id, env)
      && Handle(s, PacketArrived(Packet(PubComp, 0, [hi, lo]), env)) == s.(log := s.log + [Acked(PubComp, id)])
  {
    hide HistoryOf, Ordered, OnePing, InOrder, Observe, SendReply;
  }

  /** An acknowledgement or UNSUBACK of any other length is an error. */
  lemma WrongLengthEffect(s: State, kind: PacketType, flags: nat, body: seq<byte>, env: ReceiveEnv)
    requires kind in {PubAck, PubRec, PubRel, PubComp, UnsubAck} && body != [] && |body| != 2
    ensures Handle(s, PacketArrived(Packet(kind, flags, body), env)) == SetError(s, CommunicationError, env.closing)
  {
    hide SetError;
  }

  /** Return codes by their numbers. */
  lemma SubackNumbers(b: byte)
    ensures SubackCode(b) == AtMostOnce <==> b == 0
    ensures SubackCode(b) == AtLeastOnce <==> b == 1
    ensures SubackCode(b) == ExactlyOnce <==> b == 2
    ensures SubackCode(b) == DeliverFailure <==> b > 2
  {
  }

  /** SUBACK: one byte is too few; otherwise the codes are delivered, after an error if a reserved bit ends them. */
  lemma SubAckEffect(s: State, body: seq<byte>, env: ReceiveEnv)
    requires body != []
    ensures Handle(s, PacketArrived(Packet(SubAck, 0, body), env)) ==
      if |body| == 1 then SetError(s, MemoryError, env.closing)
      else
        var (codes, clean) := SubackCodes(body[2..]);
        var t := if clean then s else SetError(s, CommunicationError, env.closing);
        t.(log := t.log + [SubAcked(256 * (body[0] as nat) + body[1], codes)])
  {
    hide HistoryOf, Ordered, OnePing, InOrder, Observe, SetError, SubackCodes;
  }

  lemma UnsubAckEffect(s: State, hi: byte, lo: byte, env: ReceiveEnv)
    ensures Handle(s, PacketArrived(Packet(UnsubAck, 0, [hi, lo]), env))
         == s.(log := s.log + [UnsubAcked(256 * hi + lo)])
  {
    hide HistoryOf, Ordered, OnePing, InOrder, Observe;
  }

  /** A PINGRESP clears the ping's time stamp, and the application is told. */
  lemma PingResponseEffect(s: State, flags: nat, body: seq<byte>, env: ReceiveEnv)
    ensures var t := Handle(s, PacketArrived(Packet(PingResp, flags, body), env));
      && t == s.(timeSincePing := 0, log := s.log + [PingAnswered])
      && HistoryOf(t.log).waiting == None && HistoryOf(t.log).ping == None
  {
    hide HistoryOf, Ordered, OnePing, InOrder;
  }

  /** Packets without a body, and those only a client sends, are passed over. */
  lemma IgnoredEffect(s: State, p: Packet, env: ReceiveEnv)
    requires p.kind != PingResp
    requires p.body == [] || p.kind !in {ConnAck, Publish, PubAck, PubRec, PubRel, PubComp, SubAck, UnsubAck}
    ensures Handle(s, PacketArrived(p, env)) == s
  {
  }

  // ---------------------------------------------------------------- calls by the application

  /** The time allowed for a PINGRESP is half the interval, or 80 seconds if that is less. */
  lemma ConnectEffect(s: State, keepAlive: uint16, cloned: bool, xioOpened: bool)
    ensures var t := Handle(s, ConnectCall(keepAlive, cloned, xioOpened)); var m := t.maxPingRespTime;
      && t == s.(xio := cloned ==> xioOpened, packetState := Unknown, keepAliveInterval := keepAlive,
                 maxPingRespTime := m, timeSincePing := 0, log := s.log + [ConnectCalled])
      && m <= 80 && 2 * m <= keepAlive && (m == 80 || keepAlive < 2 * m + 2)
  {
    hide HistoryOf, Ordered, OnePing, InOrder, Observe;
  }

  /** A call whose packet could not be built changes nothing; otherwise the packet is sent. */
  lemma CallEffect(s: State, wire: seq<byte>, r: SendResult)
    ensures Handle(s, PublishCall(None, r)) == s
    ensures Handle(s, SubscribeCall(None, r)) == Handle(s, UnsubscribeCall(None, r)) == s
    ensures Handle(s, PublishCall(Some(wire), r)) == SendPacket(s.(packetState := Publish), Publish, wire, r).0
    ensures Handle(s, SubscribeCall(Some(wire), r)) == SendPacket(s.(packetState := Subscribe), Subscribe, wire, r).0
    ensures Handle(s, UnsubscribeCall(Some(wire), r))
         == SendPacket(s.(packetState := Unsubscribe), Unsubscribe, wire, r).0
  {
    hide SendPacket;
  }

  /** Once the server has accepted, a disconnect sends DISCONNECT; before, it closes. */
  lemma DisconnectEffect(s: State, callback: bool, r: SendResult, closing: Closing)
    ensures Handle(s, DisconnectCall(callback, r, closing)) ==
      if s.clientConnected
      then SendPacket(s.(disconnectCb := callback, packetState := Disconnect), Disconnect, [0xE0, 0], r).0
      else CloseConnection(s.(disconnectCb := callback), closing)
  {
    hide SendPacket, CloseConnection;
  }

  lemma ClearEffect(s: State)
    ensures Handle(s, ClearXio) == s.(xio := false)
  {
  }

  // ---------------------------------------------------------------- dowork

  lemma PendingCloseEffect(s: State, closing: Closing)
    ensures Handle(s, ClosePending(closing)) == CloseConnection(s, closing).(pendingClose := false)
  {
    hide CloseConnection;
  }

  /** Elapsed times are differences modulo 2^64. */
  lemma ElapsedEffect(now: Ms, since: Ms)
    ensures (since + Elapsed(now, since)) % 0x1_0000_0000_0000_0000 == now
  {
  }

  /**
    The keep-alive check, in whole seconds: without a connection, an interval or a clock it does
    nothing; a ping unanswered for more than the limit gives the connection up; and after an interval
    without a send a PINGREQ goes out.
   */
  lemma CheckEffect(s: State, clock: Option<Ms>, r: SendResult, stamp: Option<Ms>, closing: Closing)
    ensures Handle(s, KeepAlive(clock, r, stamp, closing)) ==
      if !s.socketConnected || !s.clientConnected || s.keepAliveInterval == 0 || clock.None? then s
      else
        var t := s.(log := s.log + [Checked(clock.value)]);
        if s.timeSincePing > 0 && Elapsed(clock.value, s.timeSincePing) >= 1000 * (s.maxPingRespTime + 1) then
          SetError(t, NoPingResponse, closing).(timeSincePing := 0, packetSendTimeMs := 0, packetState := Unknown)
        else if Elapsed(clock.value, s.packetSendTimeMs) < 1000 * s.keepAliveInterval then t
        else
          var (u, sent) := SendPacket(t, PingReq, [0xC0, 0], r);
          if !sent then
            SetError(u.(timeSincePing := 0, packetSendTimeMs := 0, packetState := Unknown), CommunicationError, closing)
          else if stamp.Some? then u.(timeSincePing := stamp.value)
          else u
  {
    hide HistoryOf, Ordered, OnePing, InOrder, Observe, SetError, SendPacket, Elapsed;
  }

  /** What xio_dowork's callbacks amount to, one by one; `events` is what the model makes of one. */
  lemma CallbackEffect(s: State, c: CodecState, io: Io, events: seq<Event>)
    requires IoYields(c, io, events)
    ensures io.Opened? ==>
      exists built :: BuiltFrom(io.options, built) && Run(s, events) == Handle(s, OpenComplete(io.ok, built, io.send))
    ensures io.Closed? ==> Run(s, events) == Handle(s, ConnectionClosed)
    ensures io.SendDone? ==> Run(s, events) == Handle(s, SendCompleted(io.outcome, io.closing))
    ensures io.Failure? ==> Run(s, events) == Handle(s, IoError(io.closing))
    ensures !io.Bytes? ==> CodecAfter(c, io) == c
  {
    hide Handle, Run, BuiltFrom, BytesEvents;
    if |events| == 1 {
      assert events == [events[0]];
      RunOne(s, events[0]);
    }
  }

  /**
    Bytes are handled packet by packet, in order; when the codec fails, as it does on an empty chunk, it is
    reset and a parse error follows.
   */
  lemma BytesEffect(s: State, c: CodecState, chunk: seq<byte>, envs: nat -> ReceiveEnv, closing: Closing,
                    events: seq<Event>)
    requires IoYields(c, Bytes(chunk, envs, closing), events)
    ensures var r := Receive(c, chunk); var packets := PacketEvents(r.packets, envs);
      && Run(s, events) == (if r.ok then Run(s, packets) else SetError(Run(s, packets), ParseError, closing))
      && CodecAfter(c, Bytes(chunk, envs, closing)) == (if r.ok then r.state else FRESH)
    ensures var packets := PacketEvents(Receive(c, chunk).packets, envs);
      && |packets| == |Receive(c, chunk).packets|
      && forall i | 0 <= i < |packets| :: packets[i] == PacketArrived(Receive(c, chunk).packets[i], envs(i))
    ensures chunk == [] ==> !Receive(c, chunk).ok && Receive(c, chunk).packets == []
  {
    hide Run, SetError;
    var packets := PacketEvents(Receive(c, chunk).packets, envs);
    FailureEvent(s, packets, closing);
    assert packets + [] == packets;
  }

  /** mqtt_client_dowork: nothing without a handle; a pending close and nothing more; or I/O and the check. */
  lemma DoWorkEffect(s: State, c: CodecState, ios: seq<Io>, watchdog: Event, events: seq<Event>)
    requires watchdog.KeepAlive? && DoWorkYields(s, c, ios, watchdog, events)
    ensures !s.xio ==> Run(s, events) == s
    ensures s.xio && s.pendingClose ==>
      Run(s, events) == CloseConnection(s, watchdog.closing).(pendingClose := false)
    ensures s.xio && !s.pendingClose ==>
      exists made :: AllIoYield(c, ios, made) && Run(s, events) == Handle(Run(s, made), watchdog)
  {
    hide Run, CloseConnection, AllIoYield, OnKeepAlive;
    if !s.xio {
      RunNone(s);
    } else if s.pendingClose {
      RunOne(s, ClosePending(watchdog.closing));
    } else {
      var made := events[..|events| - 1];
      assert events == made + [watchdog];
      RunAppend(s, made, [watchdog]);
      RunOne(Run(s, made), watchdog);
    }
  }
}
