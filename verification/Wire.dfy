/**
  What the encoders put on the wire, as values. The methods of `Encoder` are proved to
  produce these byte strings; the properties of the encoding are proved about them.
 */
module Wire {
  import opened Basics
  import RL = RemainingLength

  /** constructFixedHeader in front of a finished body. */
  function FrameWire(t: PacketType, flags: nat, body: seq<byte>): (r: seq<byte>)
    requires !t.TypeError? && !t.Unknown? && flags < 16
  {
    FirstByteParts(t, flags);
    [TypeByte(t) + flags] + RL.Encode(|body|) + body
  }

  // ---------------------------------------------------------------- PUBLISH

  function PublishFlags(m: Message): (r: nat)
    ensures r < 16
  {
    (if m.duplicate then 8 else 0) + (if m.retain then 1 else 0)
    + (match m.qos case AtMostOnce => 0 case AtLeastOnce => 2 case _ => 4)
  }

  /** The variable header: the topic, and the packet id unless the QoS is 0. */
  function PublishHead(m: Message): seq<byte>
    requires |m.topic| <= USHRT_MAX
  {
    Utf(m.topic) + if m.qos != AtMostOnce then U16(m.packetId) else []
  }

  function PublishBody(m: Message): seq<byte>
    requires |m.topic| <= USHRT_MAX
  {
    PublishHead(m) + m.payload
  }

  function PublishWire(m: Message): seq<byte>
    requires |m.topic| <= USHRT_MAX
  {
    FrameWire(Publish, PublishFlags(m), PublishBody(m))
  }

  // ---------------------------------------------------------------- acknowledgements and empty packets

  /** constructPublishReply */
  function ReplyWire(t: PacketType, flags: nat, packetId: uint16): seq<byte>
    requires !t.TypeError? && !t.Unknown? && flags < 16
  {
    FirstByteParts(t, flags);
    [TypeByte(t) + flags, 2] + U16(packetId)
  }

  const PINGREQ_WIRE: seq<byte> := [0xC0, 0]
  const DISCONNECT_WIRE: seq<byte> := [0xE0, 0]

  // ---------------------------------------------------------------- SUBSCRIBE and UNSUBSCRIBE

  datatype Subscription = Subscription(topic: CString, qos: QosValue)

  function SubscribeItems(list: seq<Subscription>): seq<byte>
    requires forall s | s in list :: |s.topic| <= USHRT_MAX
  {
    if list == [] then [] else Utf(list[0].topic) + [list[0].qos.Code()] + SubscribeItems(list[1..])
  }

  function UnsubscribeItems(list: seq<CString>): seq<byte>
    requires forall s | s in list :: |s| <= USHRT_MAX
  {
    if list == [] then [] else Utf(list[0]) + UnsubscribeItems(list[1..])
  }

  // ---------------------------------------------------------------- CONNECT

  /** MQTT_CLIENT_OPTIONS; None is a NULL pointer. */
  datatype ClientOptions = ClientOptions(
    clientId: CString,
    willTopic: Option<CString>,
    willMessage: Option<CString>,
    username: Option<CString>,
    password: Option<CString>,
    keepAlive: uint16,
    messageRetain: bool,
    useCleanSession: bool,
    qos: QosValue)

  function Length(s: Option<CString>): nat {
    if s.None? then 0 else |s.value|
  }

  /** The conditions under which constructConnPayload succeeds. */
  predicate Connectable(o: ClientOptions) {
    && |o.clientId| <= USHRT_MAX
    && (Length(o.username) == 0 ==> Length(o.password) == 0)
    && (Length(o.willMessage) > 0 <==> Length(o.willTopic) > 0)
    && Length(o.willTopic) <= USHRT_MAX && Length(o.willMessage) <= USHRT_MAX
    && Length(o.username) <= USHRT_MAX && Length(o.password) <= USHRT_MAX
  }

  function WillFlags(o: ClientOptions): (r: byte)
    ensures r < 64 && r % 4 == 0
  {
    if Length(o.willTopic) > 0 then 4 + o.qos.Code() * 8 % 256 + (if o.messageRetain then 32 else 0) else 0
  }

  function CredentialFlags(o: ClientOptions): (r: byte)
    ensures r <= 192 && r % 64 == 0
  {
    (if Length(o.username) > 0 then 128 else 0) + (if Length(o.password) > 0 then 64 else 0)
  }

  /** The connect flags of section 3.1.2.3 of MQTT 3.1.1. */
  function ConnectFlags(o: ClientOptions): (r: byte) {
    WillFlags(o) + CredentialFlags(o) + (if o.useCleanSession then 2 else 0)
  }

  /** The ten bytes of the CONNECT variable header. */
  function ConnectHead(flags: byte, keepAlive: uint16): (r: seq<byte>)
    ensures |r| == 10 && r[7] == flags
  {
    Utf([0x4D, 0x51, 0x54, 0x54]) + [4, flags] + U16(keepAlive)
  }

  /** An optional field: nothing unless it has a character. */
  function Field(s: Option<CString>): seq<byte>
    requires Length(s) <= USHRT_MAX
  {
    if Length(s) > 0 then Utf(s.value) else []
  }

  function ConnectPayload(o: ClientOptions): seq<byte>
    requires Connectable(o)
  {
    Utf(o.clientId) + Field(o.willTopic) + Field(o.willMessage) + Field(o.username) + Field(o.password)
  }

  function ConnectBody(o: ClientOptions): seq<byte>
    requires Connectable(o)
  {
    ConnectHead(ConnectFlags(o), o.keepAlive) + ConnectPayload(o)
  }

  /** Bytes allocated for a field beyond those written: two for a field that is present but empty. */
  function FieldSlack(s: Option<CString>): nat {
    if s.Some? && s.value == [] then 2 else 0
  }

  function Slack(o: ClientOptions): nat {
    FieldSlack(o.willTopic) + FieldSlack(o.willMessage) + FieldSlack(o.username) + FieldSlack(o.password)
  }

  /** Bytes constructConnPayload allocates for a field. */
  function FieldRoom(s: Option<CString>): nat {
    if s.None? then 0 else 2 + |s.value|
  }

  lemma ConnectSize(o: ClientOptions)
    requires Connectable(o)
    ensures |ConnectBody(o)| + Slack(o) <= 327695
    ensures |ConnectPayload(o)| + Slack(o)
         == 2 + |o.clientId| + FieldRoom(o.willTopic) + FieldRoom(o.willMessage)
            + FieldRoom(o.username) + FieldRoom(o.password)
  {
  }
}
