/**
  The client as an event-driven state machine, on values. Every handler of the source is a
  function from states to states; callbacks, sends and socket operations append to the log.
  What the unseen libraries decide (whether a send is accepted, what the clock reads, when the
  closed callback runs) arrives with the event.
 */
module ClientSpec {
  import opened Basics
  import opened Trace
  import opened Wire
  import opened Reader

  const DEFAULT_MAX_PING_RESPONSE_TIME: nat := 80
  const MAX_CLOSE_RETRIES: nat := 20

  datatype State = State(
    xio: bool,                    // xioHandle != NULL
    packetState: PacketType,
    packetSendTimeMs: Ms,
    timeSincePing: Ms,
    keepAliveInterval: uint16,
    maxPingRespTime: uint16,
    clientConnected: bool,        // the three bits of mqtt_status
    socketConnected: bool,
    pendingClose: bool,
    disconnectCb: bool,           // disconnect_cb != NULL
    errorCb: bool,                // fnOnErrorCallBack != NULL
    log: Log)

  function Initial(errorCb: bool): State {
    State(false, Unknown, 0, 0, 0, DEFAULT_MAX_PING_RESPONSE_TIME, false, false, false, false, errorCb, [])
  }

  /** xio_send's verdict and the clock reading that follows an accepted send. */
  datatype SendResult = SendResult(accepted: bool, clock: Option<Ms>)

  /** In which xio_dowork the closed callback runs: 0 is xio_close itself, None is not during the handler. */
  type Closing = Option<nat>

  datatype ReceiveEnv = ReceiveEnv(send: SendResult, ackSync: bool, closing: Closing)

  datatype SendOutcome = SendOk | SendError | SendCancelled

  datatype Event =
    | ConnectCall(keepAlive: uint16, cloned: bool, xioOpened: bool)
    | OpenComplete(ok: bool, built: Option<seq<byte>>, send: SendResult)
    | ConnectionClosed
    | PacketArrived(packet: Packet, env: ReceiveEnv)
    | DecodeFailed(closing: Closing)
    | SendCompleted(outcome: SendOutcome, closing: Closing)
    | IoError(closing: Closing)
    | PublishCall(built: Option<seq<byte>>, send: SendResult)
    | SubscribeCall(built: Option<seq<byte>>, send: SendResult)
    | UnsubscribeCall(built: Option<seq<byte>>, send: SendResult)
    | RespondCall(packetId: uint16, qos: QosValue, env: ReceiveEnv)
    | DisconnectCall(callback: bool, send: SendResult, closing: Closing)
    | ClosePending(closing: Closing)
    | KeepAlive(clock: Option<Ms>, send: SendResult, stamp: Option<Ms>, closing: Closing)
    | ClearXio

  function Emit(s: State, o: Output): State {
    s.(log := Append(s.log, o))
  }

  /** Unsigned 64-bit subtraction. */
  function Elapsed(now: Ms, since: Ms): Ms {
    if now >= since then now - since else now + TWO_64 - since
  }

  // ---------------------------------------------------------------- sending and closing

  /** sendPacketItem: the packet may be out although the call fails, when the clock cannot be read. */
  function SendPacket(s: State, kind: PacketType, wire: seq<byte>, r: SendResult): (State, bool) {
    if !r.accepted then (Emit(s, SendFailed(kind)), false)
    else
      var s1 := Emit(s, Sent(kind, wire, r.clock));
      if r.clock.None? then (s1, false) else (s1.(packetSendTimeMs := r.clock.value), true)
  }

  function NotifyDisconnect(s: State): State {
    if s.disconnectCb then Emit(s, DisconnectNotified) else s
  }

  /** on_connection_closed */
  function OnConnectionClosed(s: State): State {
    NotifyDisconnect(Emit(s.(socketConnected := false), SocketClosed))
  }

  /** close_connection: without a disconnect callback it waits for the close, for at most 20 rounds. */
  function CloseConnection(s: State, closing: Closing): State {
    if s.socketConnected then
      var s1 := Emit(s, CloseRequested);
      var closed := closing.Some? && (closing.value == 0 || (!s.disconnectCb && closing.value <= MAX_CLOSE_RETRIES));
      (if closed then OnConnectionClosed(s1) else s1).(xio := false)
    else NotifyDisconnect(s)
  }

  /** set_error_callback */
  function SetError(s: State, e: ErrorKind, closing: Closing): State {
    CloseConnection(if s.errorCb then Emit(s, ErrorReported(e)) else s, closing)
  }

  // ---------------------------------------------------------------- socket events

  /** What mqtt_codec_connect makes of the options; the slack has unspecified contents. */
  ghost predicate BuiltFrom(o: ClientOptions, built: Option<seq<byte>>) {
    && (built.Some? <==> Connectable(o))
    && (built.Some? ==> exists slack: seq<byte> ::
          |slack| == Slack(o) && built.value == FrameWire(PacketType.Connect, 0, ConnectBody(o) + slack))
  }

  /** The CONNECT on a new socket: failing to send it marks the connection for closing. */
  function SendConnect(s: State, wire: seq<byte>, r: SendResult): State {
    var (s1, sent) := SendPacket(s, Connect, wire, r);
    if sent then s1
    else (if s1.errorCb then Emit(s1, ErrorReported(ConnectionError)) else s1).(pendingClose := true)
  }

  function OnOpenComplete(s: State, ok: bool, built: Option<seq<byte>>, r: SendResult): State {
    if ok && !s.socketConnected then
      var s1 := Emit(s.(packetState := Connect, socketConnected := true), SocketOpened);
      if built.None? then s1 else SendConnect(s1, built.value, r)
    else
      (if !s.socketConnected && s.errorCb then Emit(s, ErrorReported(ConnectionError)) else s).(pendingClose := true)
  }

  function OnSendComplete(s: State, outcome: SendOutcome, closing: Closing): State {
    match outcome
    case SendOk =>
      if s.packetState == Disconnect then Emit(s, DisconnectDone).(pendingClose := true) else s
    case SendError => SetError(s, CommunicationError, closing)
    case SendCancelled => s
  }

  // ---------------------------------------------------------------- received packets

  function SendReply(s: State, kind: PacketType, flags: nat, packetId: uint16, env: ReceiveEnv): State
    requires !kind.TypeError? && !kind.Unknown? && flags < 16
  {
    var (s1, sent) := SendPacket(s, kind, ReplyWire(kind, flags, packetId), env.send);
    if sent then s1 else SetError(s1, CommunicationError, env.closing)
  }

  /** SendMessageAck */
  function AckMessage(s: State, packetId: uint16, qos: QosValue, env: ReceiveEnv): State {
    match qos
    case ExactlyOnce => SendReply(s, PubRec, 0, packetId, env)
    case AtLeastOnce => SendReply(s, PubAck, 0, packetId, env)
    case _ => s
  }

  function OnPublish(s: State, p: Packet, env: ReceiveEnv): State {
    match ReceivePublish(p.body, p.flags)
    case None => SetError(s, ParseError, env.closing)
    case Some(m) =>
      var s1 := Emit(s, MessageReceived(m));
      if env.ackSync then AckMessage(s1, m.packetId, m.qos, env) else s1
  }

  function OnConnAck(s: State, body: seq<byte>, env: ReceiveEnv): State {
    if |body| != 2 || body[0] >= 2 then SetError(s, CommunicationError, env.closing)
    else
      var s1 := Emit(s, ConnAcked(body[0] == 1, if body[1] < 6 then body[1] else 6));
      if body[1] == 0 then s1.(clientConnected := true) else s1
  }

  function OnPublishReply(s: State, p: Packet, env: ReceiveEnv): State {
    if |p.body| != 2 then SetError(s, CommunicationError, env.closing)
    else
      var packetId := FromU16(p.body[0], p.body[1]);
      var s1 := Emit(s, Acked(p.kind, packetId));
      if p.kind == PubRec then SendReply(s1, PubRel, 2, packetId, env)
      else if p.kind == PubRel then SendReply(s1, PubComp, 0, packetId, env)
      else s1
  }

  function SubackCode(b: byte): QosValue {
    if b == 0 then AtMostOnce else if b == 1 then AtLeastOnce else if b == 2 then ExactlyOnce else DeliverFailure
  }

  /** The return codes of a SUBACK up to the first with a reserved bit, and whether there was none. */
  function SubackCodes(bs: seq<byte>): (seq<QosValue>, bool) {
    if bs == [] then ([], true)
    else if bs[0] / 4 % 32 != 0 then ([], false)
    else
      var rest := SubackCodes(bs[1..]);
      ([SubackCode(bs[0])] + rest.0, rest.1)
  }

  /** One code a byte, each by its own byte, up to the first byte with a reserved bit; clean when there is none. */
  lemma {:induction false} SubackOneCodePerByte(bs: seq<byte>)
    ensures var (codes, clean) := SubackCodes(bs);
      && |codes| <= |bs|
      && (forall i | 0 <= i < |codes| :: bs[i] / 4 % 32 == 0 && codes[i] == SubackCode(bs[i]))
      && (clean <==> |codes| == |bs|)
      && (!clean ==> bs[|codes|] / 4 % 32 != 0)
  {
    if bs != [] {
      SubackOneCodePerByte(bs[1..]);
    }
  }

  /** A one-byte SUBACK makes the length of the code list wrap around, which the allocation refuses. */
  function OnSubAck(s: State, body: seq<byte>, env: ReceiveEnv): State
    requires body != []
  {
    if |body| == 1 then SetError(s, MemoryError, env.closing)
    else
      var (codes, clean) := SubackCodes(body[2..]);
      Emit(if clean then s else SetError(s, CommunicationError, env.closing),
           SubAcked(FromU16(body[0], body[1]), codes))
  }

  function OnUnsubAck(s: State, body: seq<byte>, env: ReceiveEnv): State {
    if |body| != 2 then SetError(s, CommunicationError, env.closing)
    else Emit(s, UnsubAcked(FromU16(body[0], body[1])))
  }

  /** recvCompleteCallback */
  function OnPacket(s: State, p: Packet, env: ReceiveEnv): State {
    if p.body == [] && p.kind != PingResp then s
    else
      match p.kind
      case ConnAck => OnConnAck(s, p.body, env)
      case Publish => OnPublish(s, p, env)
      case PubAck => OnPublishReply(s, p, env)
      case PubRec => OnPublishReply(s, p, env)
      case PubRel => OnPublishReply(s, p, env)
      case PubComp => OnPublishReply(s, p, env)
      case SubAck => OnSubAck(s, p.body, env)
      case UnsubAck => OnUnsubAck(s, p.body, env)
      case PingResp => Emit(s.(timeSincePing := 0), PingAnswered)
      case _ => s
  }

  // ---------------------------------------------------------------- calls by the application

  /** The time allowed for a PINGRESP, in seconds. */
  function PingLimit(keepAlive: uint16): uint16 {
    if DEFAULT_MAX_PING_RESPONSE_TIME < keepAlive / 2 then DEFAULT_MAX_PING_RESPONSE_TIME else keepAlive / 2
  }

  /** mqtt_client_connect: whether the options could be cloned and whether xio_open accepted. */
  function OnConnectCall(s: State, keepAlive: uint16, cloned: bool, xioOpened: bool): State {
    Emit(s, ConnectCalled).(xio := !cloned || xioOpened, packetState := Unknown, keepAliveInterval := keepAlive,
                            maxPingRespTime := PingLimit(keepAlive), timeSincePing := 0)
  }

  /** mqtt_client_publish, _subscribe and _unsubscribe, given what the encoder built. */
  function OnSendCall(s: State, kind: PacketType, built: Option<seq<byte>>, r: SendResult): State {
    if built.None? then s else SendPacket(s.(packetState := kind), kind, built.value, r).0
  }

  function OnDisconnectCall(s: State, callback: bool, r: SendResult, closing: Closing): State {
    if s.clientConnected then
      SendPacket(s.(disconnectCb := callback, packetState := Disconnect), Disconnect, DISCONNECT_WIRE, r).0
    else CloseConnection(s.(disconnectCb := callback), closing)
  }

  /** mqtt_client_dowork when a close is pending. */
  function OnClosePending(s: State, closing: Closing): State {
    CloseConnection(s, closing).(pendingClose := false)
  }

  predicate Watching(s: State) {
    s.socketConnected && s.clientConnected && s.keepAliveInterval > 0
  }

  predicate PingOverdue(s: State, now: Ms) {
    s.timeSincePing > 0 && Elapsed(now, s.timeSincePing) / 1000 > s.maxPingRespTime
  }

  predicate PingDue(s: State, now: Ms) {
    Elapsed(now, s.packetSendTimeMs) / 1000 >= s.keepAliveInterval
  }

  function SendPing(s: State, r: SendResult, stamp: Option<Ms>, closing: Closing): State {
    var (s1, sent) := SendPacket(s, PingReq, PINGREQ_WIRE, r);
    if !sent then
      SetError(s1.(timeSincePing := 0, packetSendTimeMs := 0, packetState := Unknown), CommunicationError, closing)
    else if stamp.Some? then s1.(timeSincePing := stamp.value)
    else s1
  }

  /**
    The keep-alive half of mqtt_client_dowork: its clock reading, the PINGREQ's send, and the reading
    that stamps the ping.
   */
  function OnKeepAlive(s: State, clock: Option<Ms>, r: SendResult, stamp: Option<Ms>, closing: Closing): State {
    if !Watching(s) || clock.None? then s
    else
      var s1 := Emit(s, Checked(clock.value));
      if PingOverdue(s, clock.value) then
        SetError(s1, NoPingResponse, closing).(timeSincePing := 0, packetSendTimeMs := 0, packetState := Unknown)
      else if PingDue(s, clock.value) then SendPing(s1, r, stamp, closing)
      else s1
  }

  // ---------------------------------------------------------------- runs

  function Handle(s: State, e: Event): State {
    match e
    case ConnectCall(keepAlive, cloned, xioOpened) => OnConnectCall(s, keepAlive, cloned, xioOpened)
    case OpenComplete(ok, built, send) => OnOpenComplete(s, ok, built, send)
    case ConnectionClosed => OnConnectionClosed(s)
    case PacketArrived(packet, env) => OnPacket(s, packet, env)
    case DecodeFailed(closing) => SetError(s, ParseError, closing)
    case SendCompleted(outcome, closing) => OnSendComplete(s, outcome, closing)
    case IoError(closing) => SetError(s, ConnectionError, closing)
    case PublishCall(built, send) => OnSendCall(s, Publish, built, send)
    case SubscribeCall(built, send) => OnSendCall(s, Subscribe, built, send)
    case UnsubscribeCall(built, send) => OnSendCall(s, Unsubscribe, built, send)
    case RespondCall(packetId, qos, env) => if packetId == 0 then s else AckMessage(s, packetId, qos, env)
    case DisconnectCall(callback, send, closing) => OnDisconnectCall(s, callback, send, closing)
    case ClosePending(closing) => OnClosePending(s, closing)
    case KeepAlive(clock, send, stamp, closing) => OnKeepAlive(s, clock, send, stamp, closing)
    case ClearXio => s.(xio := false)
  }

  /** Any sequence of events, oldest first. */
  function Run(s: State, events: seq<Event>): State
    decreases |events|
  {
    if events == [] then s else Run(Handle(s, events[0]), events[1..])
  }

  lemma RunNone(s: State)
    ensures Run(s, []) == s
  {
  }

  lemma {:induction false} RunAppend(s: State, a: seq<Event>, b: seq<Event>)
    ensures Run(s, a + b) == Run(Run(s, a), b)
    decreases |a|
  {
    hide Handle;
    if a == [] {
      assert a + b == b;
    } else {
      assert (a + b)[1..] == a[1..] + b;
      RunAppend(Handle(s, a[0]), a[1..], b);
    }
  }

  lemma RunOne(s: State, e: Event)
    ensures Run(s, [e]) == Handle(s, e)
  {
    hide Handle;
    assert [e][1..] == [];
  }
}
