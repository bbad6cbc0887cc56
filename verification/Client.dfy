/**
  The client as the source writes it: a record whose fields the handlers update in place,
  proved against `ClientSpec`. The parameters of a method are what the unseen libraries answer
  while it runs.
 */
module Client {
  import opened Basics
  import opened Trace
  import opened Wire
  import opened Decoder
  import opened Reader
  import opened ClientSpec
  import Codec
  import Encoder
  import RL = RemainingLength

  /** A callback that xio_dowork makes. */
  datatype Io =
    | Opened(ok: bool, options: ClientOptions, send: SendResult)
    | Bytes(chunk: seq<byte>, envs: nat -> ReceiveEnv, closing: Closing)
    | Closed
    | SendDone(outcome: SendOutcome, closing: Closing)
    | Failure(closing: Closing)

  // ---------------------------------------------------------------- events of one callback

  function PacketEvents(packets: seq<Packet>, envs: nat -> ReceiveEnv): seq<Event> {
    seq(|packets|, i requires 0 <= i < |packets| => PacketArrived(packets[i], envs(i)))
  }

  /** The packets of one chunk as events, and the parse error if it ends in one. */
  function BytesEvents(r: Feeding, envs: nat -> ReceiveEnv, closing: Closing): seq<Event> {
    PacketEvents(r.packets, envs) + if r.ok then [] else [DecodeFailed(closing)]
  }

  lemma SomethingBuilt(o: ClientOptions) returns (built: Option<seq<byte>>)
    ensures BuiltFrom(o, built)
  {
    if Connectable(o) {
      var slack := seq(Slack(o), _ => 0);
      built := Some(FrameWire(PacketType.Connect, 0, ConnectBody(o) + slack));
    } else {
      built := None;
    }
  }

  /** The events a callback amounts to, from the codec's state before it. */
  ghost predicate IoYields(c: CodecState, io: Io, events: seq<Event>) {
    match io
    case Opened(ok, options, send) =>
      |events| == 1 && events[0].OpenComplete? && BuiltFrom(options, events[0].built)
      && events[0] == OpenComplete(ok, events[0].built, send)
    case Bytes(chunk, envs, closing) => events == BytesEvents(Receive(c, chunk), envs, closing)
    case Closed => events == [ConnectionClosed]
    case SendDone(outcome, closing) => events == [SendCompleted(outcome, closing)]
    case Failure(closing) => events == [IoError(closing)]
  }

  function CodecAfter(c: CodecState, io: Io): CodecState {
    if io.Bytes? then StateAfter(c, io.chunk) else c
  }

  function CodecAfterAll(c: CodecState, ios: seq<Io>): CodecState
    decreases |ios|
  {
    if ios == [] then c else CodecAfterAll(CodecAfter(c, ios[0]), ios[1..])
  }

  /** The events a sequence of callbacks amounts to, in order. */
  ghost predicate AllIoYield(c: CodecState, ios: seq<Io>, events: seq<Event>)
    decreases |ios|
  {
    if ios == [] then events == []
    else exists n: nat | n <= |events| ::
      IoYields(c, ios[0], events[..n]) && AllIoYield(CodecAfter(c, ios[0]), ios[1..], events[n..])
  }

  /** One more callback at the end. */
  lemma {:induction false} AllIoYieldSnoc(c: CodecState, ios: seq<Io>, made: seq<Event>, io: Io, events: seq<Event>)
    requires AllIoYield(c, ios, made) && IoYields(CodecAfterAll(c, ios), io, events)
    ensures AllIoYield(c, ios + [io], made + events)
    ensures CodecAfterAll(c, ios + [io]) == CodecAfter(CodecAfterAll(c, ios), io)
    decreases |ios|
  {
    hide IoYields, CodecAfter;
    var all, after := ios + [io], made + events;
    if ios == [] {
      assert all[0] == io && all[1..] == [] && after[..|events|] == events && after[|events|..] == [];
    } else {
      var n: nat :| n <= |made| && IoYields(c, ios[0], made[..n])
                    && AllIoYield(CodecAfter(c, ios[0]), ios[1..], made[n..]);
      AllIoYieldSnoc(CodecAfter(c, ios[0]), ios[1..], made[n..], io, events);
      assert all[0] == ios[0] && all[1..] == ios[1..] + [io];
      assert after[..n] == made[..n] && after[n..] == made[n..] + events;
    }
  }

  /** mqtt_client_dowork as events: nothing without a handle, the pending close, or I/O and then the watchdog. */
  ghost predicate DoWorkYields(s: State, c: CodecState, ios: seq<Io>, watchdog: Event, events: seq<Event>)
    requires watchdog.KeepAlive?
  {
    if !s.xio then events == []
    else if s.pendingClose then events == [ClosePending(watchdog.closing)]
    else events != [] && events[|events| - 1] == watchdog && AllIoYield(c, ios, events[..|events| - 1])
  }

  lemma WatchdogHandled(s: State, clock: Option<Ms>, r: SendResult, stamp: Option<Ms>, closing: Closing)
    ensures Handle(s, KeepAlive(clock, r, stamp, closing)) == OnKeepAlive(s, clock, r, stamp, closing)
  {
  }

  /** The loop over the return codes of a SUBACK. */
  method ReadSubackCodes(body: seq<byte>, start: nat) returns (codes: seq<QosValue>, clean: bool)
    requires start <= |body|
    ensures codes == SubackCodes(body[start..]).0 && clean == SubackCodes(body[start..]).1
  {
    codes := [];
    clean := true;
    var position, remainLen := start, |body| - start;
    while remainLen > 0
      invariant 0 <= remainLen && position + remainLen == |body|
      invariant SubackCodes(body[start..]).0 == codes + SubackCodes(body[position..]).0
      invariant SubackCodes(body[start..]).1 == SubackCodes(body[position..]).1
      decreases remainLen
    {
      var qosRet := body[position];
      assert body[position..][1..] == body[position + 1..];
      if qosRet / 4 % 32 != 0 {
        clean := false;
        break;
      }
      codes := codes + [SubackCode(qosRet)];
      position := position + 1;
      remainLen := remainLen - 1;
    }
  }

  lemma FailureEvent(s: State, events: seq<Event>, closing: Closing)
    ensures Run(s, events + [DecodeFailed(closing)]) == SetError(Run(s, events), ParseError, closing)
  {
    RunAppend(s, events, [DecodeFailed(closing)]);
    RunOne(Run(s, events), DecodeFailed(closing));
  }

  lemma PacketEventHandled(s: State, packets: seq<Packet>, envs: nat -> ReceiveEnv, i: nat)
    requires i < |packets|
    ensures var events := PacketEvents(packets, envs);
            Run(s, events[..i + 1]) == OnPacket(Run(s, events[..i]), packets[i], envs(i))
  {
    hide OnPacket;
    var events := PacketEvents(packets, envs);
    assert events[..i + 1] == events[..i] + [events[i]];
    RunAppend(s, events[..i], [events[i]]);
    RunOne(Run(s, events[..i]), events[i]);
  }

  class MqttClient {
    var xioHandle: bool
    const codec: Codec.Codec
    var packetState: PacketType
    var packetSendTimeMs: Ms
    var timeSincePing: Ms
    var keepAliveInterval: uint16
    var maxPingRespTime: uint16
    var clientConnected: bool
    var socketConnected: bool
    var pendingClose: bool
    var disconnectCb: bool
    const errorCb: bool
    var log: Log

    function State(): State
      reads this
    {
      ClientSpec.State(xioHandle, packetState, packetSendTimeMs, timeSincePing, keepAliveInterval, maxPingRespTime,
                       clientConnected, socketConnected, pendingClose, disconnectCb, errorCb, log)
    }

    /** mqtt_client_init */
    constructor (errorCb: bool)
      ensures State() == Initial(errorCb)
      ensures fresh(codec) && codec.Valid() && fresh(codec.Repr()) && codec.State() == FRESH
    {
      var c := new Codec.Codec();
      codec := c;
      this.errorCb := errorCb;
      xioHandle, packetState, packetSendTimeMs, timeSincePing := false, Unknown, 0, 0;
      keepAliveInterval, maxPingRespTime := 0, DEFAULT_MAX_PING_RESPONSE_TIME;
      clientConnected, socketConnected, pendingClose, disconnectCb := false, false, false, false;
      log := [];
    }

    // -------------------------------------------------------------- sending and closing

    method SendPacketItem(kind: PacketType, wire: seq<byte>, r: SendResult) returns (ok: bool)
      modifies this
      ensures (State(), ok) == SendPacket(old(State()), kind, wire, r)
    {
      hide HistoryOf, Ordered, OnePing, InOrder, Observe;
      if !r.accepted {
        log := Append(log, SendFailed(kind));
        return false;
      }
      log := Append(log, Sent(kind, wire, r.clock));
      if r.clock.None? {
        return false;
      }
      packetSendTimeMs := r.clock.value;
      ok := true;
    }

    method OnConnectionClosed()
      modifies this
      ensures State() == ClientSpec.OnConnectionClosed(old(State()))
    {
      hide HistoryOf, Ordered, OnePing, InOrder, Observe;
      socketConnected := false;
      log := Append(log, SocketClosed);
      if disconnectCb {
        log := Append(log, DisconnectNotified);
      }
    }

    /** close_connection, with its retry loop around xio_dowork */
    method CloseConnection(closing: Closing)
      modifies this
      ensures State() == ClientSpec.CloseConnection(old(State()), closing)
    {
      hide HistoryOf, Ordered, OnePing, InOrder, Observe;
      if socketConnected {
        log := Append(log, CloseRequested);
        ghost var requested := State();
        if closing == Some(0) {
          OnConnectionClosed();
        }
        if !disconnectCb {
          var counter := 0;
          while true
            invariant counter < MAX_CLOSE_RETRIES && (counter > 0 ==> socketConnected)
            invariant State() == if closing.Some? && closing.value <= counter
                                 then ClientSpec.OnConnectionClosed(requested) else requested
            decreases MAX_CLOSE_RETRIES - counter
          {
            counter := counter + 1;
            if closing == Some(counter) {
              OnConnectionClosed();
            }
            if !(socketConnected && counter < MAX_CLOSE_RETRIES) {
              break;
            }
          }
        }
        xioHandle := false;
      } else {
        if disconnectCb {
          log := Append(log, DisconnectNotified);
        }
      }
    }

    method SetErrorCallback(e: ErrorKind, closing: Closing)
      modifies this
      ensures State() == SetError(old(State()), e, closing)
    {
      hide HistoryOf, Ordered, OnePing, InOrder, Observe;
      if errorCb {
        log := Append(log, ErrorReported(e));
      }
      CloseConnection(closing);
    }

    // -------------------------------------------------------------- socket events

    /** mqtt_codec_connect, as onOpenComplete calls it */
    static method BuildConnect(options: ClientOptions) returns (built: Option<seq<byte>>)
      ensures BuiltFrom(options, built)
    {
      ghost var slack;
      built, slack := Encoder.Connect(options);
    }

    /** The CONNECT of onOpenComplete: failing to send it marks the connection for closing. */
    method SendConnect(wire: seq<byte>, r: SendResult)
      modifies this
      ensures State() == ClientSpec.SendConnect(old(State()), wire, r)
    {
      hide HistoryOf, Ordered, OnePing, InOrder, Observe, SendPacket;
      var sent := SendPacketItem(PacketType.Connect, wire, r);
      if !sent {
        if errorCb {
          log := Append(log, ErrorReported(ConnectionError));
        }
        pendingClose := true;
      }
    }

    /** onOpenComplete; `options` is the client's option record, `built` what mqtt_codec_connect makes of it. */
    method OnOpenComplete(ok: bool, options: ClientOptions, r: SendResult) returns (ghost built: Option<seq<byte>>)
      modifies this
      ensures BuiltFrom(options, built)
      ensures State() == ClientSpec.OnOpenComplete(old(State()), ok, built, r)
    {
      hide HistoryOf, Ordered, OnePing, InOrder, Observe, SendPacket, BuiltFrom;
      if ok && !socketConnected {
        packetState := PacketType.Connect;
        socketConnected := true;
        log := Append(log, SocketOpened);
        var connPacket := BuildConnect(options);
        built := connPacket;
        if connPacket.Some? {
          SendConnect(connPacket.value, r);
        }
      } else {
        built := SomethingBuilt(options);
        if !socketConnected && errorCb {
          log := Append(log, ErrorReported(ConnectionError));
        }
        pendingClose := true;
      }
    }

    method SendComplete(outcome: SendOutcome, closing: Closing)
      modifies this
      ensures State() == OnSendComplete(old(State()), outcome, closing)
    {
      hide HistoryOf, Ordered, OnePing, InOrder, Observe;
      if outcome == SendOk {
        if packetState == PacketType.Disconnect {
          log := Append(log, DisconnectDone);
          pendingClose := true;
        }
      } else if outcome == SendError {
        SetErrorCallback(CommunicationError, closing);
      }
    }

    // -------------------------------------------------------------- received packets

    method SendReply(kind: PacketType, flags: byte, packetId: uint16, env: ReceiveEnv)
      requires !kind.TypeError? && !kind.Unknown? && flags < 16
      modifies this
      ensures State() == ClientSpec.SendReply(old(State()), kind, flags, packetId, env)
    {
      var wire := Encoder.ConstructPublishReply(kind, flags, packetId);
      var sent := SendPacketItem(kind, wire, env.send);
      if !sent {
        SetErrorCallback(CommunicationError, env.closing);
      }
    }

    method SendMessageAck(packetId: uint16, qos: QosValue, env: ReceiveEnv)
      modifies this
      ensures State() == AckMessage(old(State()), packetId, qos, env)
    {
      if qos == ExactlyOnce {
        SendReply(PubRec, 0, packetId, env);
      } else if qos == AtLeastOnce {
        SendReply(PubAck, 0, packetId, env);
      }
    }

    method ProcessPublishMessage(p: Packet, env: ReceiveEnv)
      modifies this
      ensures State() == OnPublish(old(State()), p, env)
    {
      hide HistoryOf, Ordered, OnePing, InOrder, Observe;
      var message := ParsePublish(p.body, p.flags);
      if message.None? {
        SetErrorCallback(ParseError, env.closing);
      } else {
        log := Append(log, MessageReceived(message.value));
        if env.ackSync {
          SendMessageAck(message.value.packetId, message.value.qos, env);
        }
      }
    }

    method ProcessConnAck(body: seq<byte>, env: ReceiveEnv)
      modifies this
      ensures State() == OnConnAck(old(State()), body, env)
    {
      hide HistoryOf, Ordered, OnePing, InOrder, Observe;
      if |body| != 2 {
        SetErrorCallback(CommunicationError, env.closing);
        return;
      }
      if body[0] >= 2 {
        SetErrorCallback(CommunicationError, env.closing);
        return;
      }
      var returnCode := if body[1] < 6 then body[1] else 6;
      log := Append(log, ConnAcked(body[0] == 1, returnCode));
      if returnCode == 0 {
        clientConnected := true;
      }
    }

    method ProcessPublishReply(p: Packet, env: ReceiveEnv)
      modifies this
      ensures State() == OnPublishReply(old(State()), p, env)
    {
      hide HistoryOf, Ordered, OnePing, InOrder, Observe;
      if |p.body| != 2 {
        SetErrorCallback(CommunicationError, env.closing);
        return;
      }
      var packetId, next := ReadUint16(p.body, 0, |p.body|);
      assert p.body[0..next] == [p.body[0], p.body[1]];
      U16RoundTrip(packetId);
      log := Append(log, Acked(p.kind, packetId));
      if p.kind == PubRec {
        SendReply(PubRel, 2, packetId, env);
      } else if p.kind == PubRel {
        SendReply(PubComp, 0, packetId, env);
      }
    }

    /** SUBACK: a reserved bit is reported and ends the list, which is delivered all the same. */
    method ProcessSubAck(body: seq<byte>, env: ReceiveEnv)
      requires body != []
      modifies this
      ensures State() == OnSubAck(old(State()), body, env)
    {
      hide HistoryOf, Ordered, OnePing, InOrder, Observe;
      if |body| < 2 {
        SetErrorCallback(MemoryError, env.closing);
        return;
      }
      var packetId, position := ReadUint16(body, 0, |body|);
      assert body[0..position] == [body[0], body[1]];
      U16RoundTrip(packetId);
      var codes, clean := ReadSubackCodes(body, position);
      if !clean {
        SetErrorCallback(CommunicationError, env.closing);
      }
      log := Append(log, SubAcked(packetId, codes));
    }

    method RecvCompleteCallback(p: Packet, env: ReceiveEnv)
      modifies this
      ensures State() == OnPacket(old(State()), p, env)
    {
      if p.body == [] && p.kind != PingResp {
        return;
      }
      hide HistoryOf, Ordered, OnePing, InOrder, Observe, OnConnAck, OnPublish, OnPublishReply, OnSubAck, SetError;
      match p.kind
      case ConnAck => ProcessConnAck(p.body, env);
      case Publish => ProcessPublishMessage(p, env);
      case PubAck => ProcessPublishReply(p, env);
      case PubRec => ProcessPublishReply(p, env);
      case PubRel => ProcessPublishReply(p, env);
      case PubComp => ProcessPublishReply(p, env);
      case SubAck => ProcessSubAck(p.body, env);
      case UnsubAck =>
        if |p.body| != 2 {
          SetErrorCallback(CommunicationError, env.closing);
        } else {
          var packetId, next := ReadUint16(p.body, 0, |p.body|);
          assert p.body[0..next] == [p.body[0], p.body[1]];
          U16RoundTrip(packetId);
          log := Append(log, UnsubAcked(packetId));
        }
      case PingResp =>
        timeSincePing := 0;
        log := Append(log, PingAnswered);
      case _ =>
    }

    /** The packet-complete callbacks of one chunk. */
    method HandlePackets(packets: seq<Packet>, envs: nat -> ReceiveEnv)
      modifies this
      ensures State() == Run(old(State()), PacketEvents(packets, envs))
    {
      hide OnPacket, Handle;
      ghost var start, events := State(), PacketEvents(packets, envs);
      var i := 0;
      while i < |packets|
        invariant i <= |packets|
        invariant State() == Run(start, events[..i])
      {
        RecvCompleteCallback(packets[i], envs(i));
        PacketEventHandled(start, packets, envs, i);
        i := i + 1;
      }
      assert events[..i] == events;
    }

    /** mqtt_codec_bytesReceived, and mqtt_codec_reset if it fails */
    method FeedCodec(chunk: seq<byte>) returns (ok: bool, packets: seq<Packet>)
      requires codec.Valid()
      modifies codec.Repr()
      ensures codec.Valid() && fresh(codec.Repr() - old(codec.Repr()))
      ensures codec.State() == StateAfter(old(codec.State()), chunk)
      ensures ok == Receive(old(codec.State()), chunk).ok && packets == Receive(old(codec.State()), chunk).packets
    {
      hide Receive;
      var first := |codec.completed|;
      ok := codec.BytesReceived(chunk);
      packets := codec.completed[first..];
      if !ok {
        codec.Reset();
      }
    }

    /**
      onBytesReceived: the packets the codec completed, in order, then on a failure the codec's reset
      and the error. The callbacks do not touch the codec, so handling them after the codec has used
      the chunk is the same as handling each inside it.
     */
    method OnBytesReceived(chunk: seq<byte>, envs: nat -> ReceiveEnv, closing: Closing)
      requires codec.Valid()
      modifies this, codec.Repr()
      ensures codec.Valid() && fresh(codec.Repr() - old(codec.Repr()))
      ensures codec.State() == StateAfter(old(codec.State()), chunk)
      ensures State() == Run(old(State()), BytesEvents(Receive(old(codec.State()), chunk), envs, closing))
    {
      hide Handle, Receive, SetError, Run, PacketEvents, StateAfter;
      ghost var start := State();
      var ok, packets := FeedCodec(chunk);
      HandlePackets(packets, envs);
      ghost var events := PacketEvents(packets, envs);
      if !ok {
        SetErrorCallback(ParseError, closing);
        FailureEvent(start, events, closing);
      } else {
        assert events + [] == events;
      }
    }

    // -------------------------------------------------------------- calls by the application

    method Connect(keepAlive: uint16, cloned: bool, xioOpened: bool) returns (ok: bool)
      modifies this
      ensures State() == OnConnectCall(old(State()), keepAlive, cloned, xioOpened)
      ensures ok <==> cloned && xioOpened
    {
      hide HistoryOf, Ordered, OnePing, InOrder, Observe;
      log := Append(log, ConnectCalled);
      xioHandle := true;
      packetState := Unknown;
      keepAliveInterval := keepAlive;
      var half := keepAlive / 2;
      maxPingRespTime := if DEFAULT_MAX_PING_RESPONSE_TIME < half then DEFAULT_MAX_PING_RESPONSE_TIME else half;
      timeSincePing := 0;
      if !cloned {
        ok := false;
      } else if !xioOpened {
        xioHandle := false;
        ok := false;
      } else {
        ok := true;
      }
    }

    method Publish(m: Message, r: SendResult) returns (ok: bool)
      requires |m.topic| <= USHRT_MAX && |m.payload| <= MAX_SEND_SIZE ==> |PublishBody(m)| < RL.LENGTH_LIMIT
      modifies this
      ensures var built := if |m.topic| <= USHRT_MAX && |m.payload| <= MAX_SEND_SIZE then Some(PublishWire(m))
                           else None;
              && State() == Handle(old(State()), PublishCall(built, r))
              && (ok <==> built.Some? && r.accepted && r.clock.Some?)
    {
      var built := Encoder.Publish(m);
      if built.None? {
        return false;
      }
      packetState := PacketType.Publish;
      ok := SendPacketItem(PacketType.Publish, built.value, r);
    }

    method Subscribe(packetId: uint16, list: seq<Subscription>, r: SendResult) returns (ok: bool)
      requires (forall s | s in list :: |s.topic| <= USHRT_MAX) ==> 2 + |SubscribeItems(list)| < RL.LENGTH_LIMIT
      modifies this
      ensures var built := if packetId != 0 && list != [] && forall s | s in list :: |s.topic| <= USHRT_MAX
                           then Some(FrameWire(PacketType.Subscribe, 2, U16(packetId) + SubscribeItems(list)))
                           else None;
              && State() == Handle(old(State()), SubscribeCall(built, r))
              && (ok <==> built.Some? && r.accepted && r.clock.Some?)
    {
      if |list| == 0 || packetId == 0 {
        return false;
      }
      var built := Encoder.Subscribe(packetId, list);
      if built.None? {
        return false;
      }
      packetState := PacketType.Subscribe;
      ok := SendPacketItem(PacketType.Subscribe, built.value, r);
    }

    method Unsubscribe(packetId: uint16, list: seq<CString>, r: SendResult) returns (ok: bool)
      requires (forall s | s in list :: |s| <= USHRT_MAX) ==> 2 + |UnsubscribeItems(list)| < RL.LENGTH_LIMIT
      modifies this
      ensures var built := if packetId != 0 && list != [] && forall s | s in list :: |s| <= USHRT_MAX
                           then Some(FrameWire(PacketType.Unsubscribe, 2, U16(packetId) + UnsubscribeItems(list)))
                           else None;
              && State() == Handle(old(State()), UnsubscribeCall(built, r))
              && (ok <==> built.Some? && r.accepted && r.clock.Some?)
    {
      if |list| == 0 || packetId == 0 {
        return false;
      }
      var built := Encoder.Unsubscribe(packetId, list);
      if built.None? {
        return false;
      }
      packetState := PacketType.Unsubscribe;
      ok := SendPacketItem(PacketType.Unsubscribe, built.value, r);
    }

    method SendMessageResponse(packetId: uint16, qos: QosValue, env: ReceiveEnv) returns (ok: bool)
      modifies this
      ensures State() == Handle(old(State()), RespondCall(packetId, qos, env)) && (ok <==> packetId != 0)
    {
      hide AckMessage;
      if packetId == 0 {
        return false;
      }
      SendMessageAck(packetId, qos, env);
      ok := true;
    }

    method Disconnect(callback: bool, r: SendResult, closing: Closing) returns (ok: bool)
      modifies this
      ensures State() == OnDisconnectCall(old(State()), callback, r, closing)
      ensures ok <==> (old(clientConnected) ==> r.accepted && r.clock.Some?)
    {
      disconnectCb := callback;
      if clientConnected {
        packetState := PacketType.Disconnect;
        ok := SendPacketItem(PacketType.Disconnect, DISCONNECT_WIRE, r);
      } else {
        CloseConnection(closing);
        ok := true;
      }
    }

    method ClearXio()
      modifies this
      ensures State() == Handle(old(State()), Event.ClearXio)
    {
      xioHandle := false;
    }

    // -------------------------------------------------------------- dowork

    /** The PINGREQ of mqtt_client_dowork. */
    method SendPing(r: SendResult, stamp: Option<Ms>, closing: Closing)
      modifies this
      ensures State() == ClientSpec.SendPing(old(State()), r, stamp, closing)
    {
      hide HistoryOf, Ordered, OnePing, InOrder, Observe, SetError, SendPacket;
      var sent := SendPacketItem(PingReq, PINGREQ_WIRE, r);
      if !sent {
        timeSincePing, packetSendTimeMs, packetState := 0, 0, Unknown;
        SetErrorCallback(CommunicationError, closing);
      } else if stamp.Some? {
        timeSincePing := stamp.value;
      }
    }

    /** The second half of mqtt_client_dowork. */
    method CheckKeepAlive(clock: Option<Ms>, r: SendResult, stamp: Option<Ms>, closing: Closing)
      modifies this
      ensures State() == OnKeepAlive(old(State()), clock, r, stamp, closing)
    {
      hide HistoryOf, Ordered, OnePing, InOrder, Observe, SetError, ClientSpec.SendPing;
      if socketConnected && clientConnected && keepAliveInterval > 0 {
        if clock.Some? {
          var now := clock.value;
          log := Append(log, Checked(now));
          if timeSincePing > 0 && Elapsed(now, timeSincePing) / 1000 > maxPingRespTime {
            SetErrorCallback(NoPingResponse, closing);
            timeSincePing, packetSendTimeMs, packetState := 0, 0, Unknown;
          } else if Elapsed(now, packetSendTimeMs) / 1000 >= keepAliveInterval {
            SendPing(r, stamp, closing);
          }
        }
      }
    }

    /** A callback out of xio_dowork */
    method Dispatch(io: Io) returns (ghost events: seq<Event>)
      requires codec.Valid()
      modifies this, codec.Repr()
      ensures codec.Valid() && fresh(codec.Repr() - old(codec.Repr()))
      ensures codec.State() == CodecAfter(old(codec.State()), io)
      ensures IoYields(old(codec.State()), io, events) && State() == Run(old(State()), events)
    {
      hide Run, BytesEvents, ClientSpec.OnOpenComplete, SetError, OnSendComplete, ClientSpec.OnConnectionClosed;
      hide BuiltFrom, Receive, StateAfter;
      ghost var s := State();
      match io
      case Opened(ok, options, send) =>
        ghost var built := OnOpenComplete(ok, options, send);
        events := [OpenComplete(ok, built, send)];
        RunOne(s, events[0]);
      case Bytes(chunk, envs, closing) =>
        events := BytesEvents(Receive(codec.State(), chunk), envs, closing);
        OnBytesReceived(chunk, envs, closing);
      case Closed =>
        events := [ConnectionClosed];
        RunOne(s, ConnectionClosed);
        OnConnectionClosed();
      case SendDone(outcome, closing) =>
        events := [SendCompleted(outcome, closing)];
        RunOne(s, SendCompleted(outcome, closing));
        SendComplete(outcome, closing);
      case Failure(closing) =>
        events := [IoError(closing)];
        RunOne(s, IoError(closing));
        SetErrorCallback(ConnectionError, closing);
    }

    /** xio_dowork, making the callbacks `ios` */
    method XioDoWork(ios: seq<Io>) returns (ghost events: seq<Event>)
      requires codec.Valid()
      modifies this, codec.Repr()
      ensures codec.Valid() && fresh(codec.Repr() - old(codec.Repr()))
      ensures AllIoYield(old(codec.State()), ios, events) && State() == Run(old(State()), events)
    {
      hide Handle, IoYields, CodecAfter;
      ghost var s, c := State(), codec.State();
      events := [];
      var i := 0;
      while i < |ios|
        invariant i <= |ios|
        invariant codec.Valid() && fresh(codec.Repr() - old(codec.Repr()))
        invariant State() == Run(s, events)
        invariant AllIoYield(c, ios[..i], events) && codec.State() == CodecAfterAll(c, ios[..i])
      {
        ghost var more := Dispatch(ios[i]);
        AllIoYieldSnoc(c, ios[..i], events, ios[i], more);
        RunAppend(s, events, more);
        assert ios[..i + 1] == ios[..i] + [ios[i]];
        events := events + more;
        i := i + 1;
      }
      assert ios[..i] == ios;
    }

    /** The first half of mqtt_client_dowork, when a close is pending. */
    method CloseIfPending(closing: Closing)
      modifies this
      ensures State() == Handle(old(State()), ClosePending(closing))
    {
      hide ClientSpec.CloseConnection;
      CloseConnection(closing);
      pendingClose := false;
    }

    /** mqtt_client_dowork, while xio_dowork makes the callbacks `ios` */
    method DoWork(ios: seq<Io>, clock: Option<Ms>, r: SendResult, stamp: Option<Ms>, closing: Closing)
      returns (ghost events: seq<Event>)
      requires codec.Valid()
      modifies this, codec.Repr()
      ensures codec.Valid() && fresh(codec.Repr() - old(codec.Repr()))
      ensures DoWorkYields(old(State()), old(codec.State()), ios, KeepAlive(clock, r, stamp, closing), events)
      ensures State() == Run(old(State()), events)
    {
      hide Run, Handle, OnKeepAlive, AllIoYield;
      ghost var s := State();
      ghost var watchdog := KeepAlive(clock, r, stamp, closing);
      RunNone(s);
      events := [];
      if xioHandle {
        if pendingClose {
          events := [ClosePending(closing)];
          RunOne(s, ClosePending(closing));
          CloseIfPending(closing);
        } else {
          ghost var made := XioDoWork(ios);
          events := made + [watchdog];
          RunAppend(s, made, [watchdog]);
          RunOne(State(), watchdog);
          WatchdogHandled(State(), clock, r, stamp, closing);
          CheckKeepAlive(clock, r, stamp, closing);
          assert events[..|events| - 1] == made;
        }
      }
    }
  }
}
