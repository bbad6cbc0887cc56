/**
  From mqtt_codec_publish on one side to the message callback on the other.
 */
module PublishRoundTrip {
  import opened Basics
  import opened Wire
  import opened Decoder
  import opened Reader
  import Framing
  import RL = RemainingLength

  /** What the receiver should see: a QoS 0 message carries no packet id. */
  function Expected(m: Message): Message {
    if m.qos == AtMostOnce then m.(packetId := 0) else m
  }

  /** The messages that survive: see `PublishIsFaithfulIff`. */
  predicate Faithful(m: Message) {
    && m.topic != []
    && m.qos != DeliverFailure
    && if m.qos == AtMostOnce then !m.duplicate && !m.retain else m.packetId != 0
  }

  lemma FlagsRead(m: Message)
    ensures var flags := PublishFlags(m);
      && Bit(flags, 3) == m.duplicate && Bit(flags, 0) == m.retain
      && (flags == 0 <==> m.qos == AtMostOnce && !m.duplicate && !m.retain)
      && (Bit(flags, 1) <==> m.qos == AtLeastOnce)
  {
    var flags := PublishFlags(m);
    assert Bit(flags, 3) == Bit(flags / 2, 2) == Bit(flags / 2 / 2, 1) == Bit(flags / 2 / 2 / 2, 0);
  }

  /** What follows the topic in an encoded body. */
  function AfterTopic(m: Message): seq<byte> {
    (if m.qos != AtMostOnce then U16(m.packetId) else []) + m.payload
  }

  lemma BodyTaken(m: Message)
    requires |m.topic| <= USHRT_MAX
    ensures TakeUtf(PublishBody(m)) == Some((m.topic, AfterTopic(m)))
  {
    assert PublishBody(m) == Utf(m.topic) + AfterTopic(m);
    TakeUtfInverts(m.topic, AfterTopic(m));
  }

  lemma IdTaken(m: Message)
    ensures m.qos == AtMostOnce ==> AfterTopic(m) == m.payload
    ensures m.qos != AtMostOnce ==>
      var rest := AfterTopic(m);
      |rest| >= 2 && FromU16(rest[0], rest[1]) == m.packetId && rest[2..] == m.payload
  {
    var rest := AfterTopic(m);
    if m.qos != AtMostOnce {
      assert rest[0] == U16(m.packetId)[0] && rest[1] == U16(m.packetId)[1];
      U16RoundTrip(m.packetId);
      assert rest[2..] == m.payload;
    }
  }

  /** The messages a receiver finds unreadable: no topic, or a packet id that is called for and not there or zero. */
  predicate Dropped(m: Message) {
    || m.topic == []
    || if m.qos == AtMostOnce
       then (m.duplicate || m.retain) && (|m.payload| < 2 || FromU16(m.payload[0], m.payload[1]) == 0)
       else m.packetId == 0
  }

  /** What a receiver makes of any message whose body it decodes. */
  function ReadAs(m: Message): Option<Message> {
    if Dropped(m) then None
    else if m.qos == AtLeastOnce then Some(m)
    else if m.qos != AtMostOnce then Some(m.(qos := ExactlyOnce))
    else if m.duplicate || m.retain then
      Some(m.(qos := ExactlyOnce, packetId := FromU16(m.payload[0], m.payload[1]), payload := m.payload[2..]))
    else Some(m.(packetId := 0))
  }

  /** The receiver's parser reads every encoded body so. */
  lemma PublishReadAs(m: Message)
    requires |m.topic| <= USHRT_MAX
    ensures ReceivePublish(PublishBody(m), PublishFlags(m)) == ReadAs(m)
  {
    FlagsRead(m);
    BodyTaken(m);
    IdTaken(m);
    hide PublishBody, PublishFlags, TakeUtf, AfterTopic, Bit, FromU16;
  }

  /** Parsing an encoded body gives the message back exactly for the faithful ones. */
  lemma BodyRoundTrip(m: Message)
    requires |m.topic| <= USHRT_MAX
    ensures ReceivePublish(PublishBody(m), PublishFlags(m)) == Some(Expected(m)) <==> Faithful(m)
  {
    PublishReadAs(m);
    hide PublishBody, PublishFlags, ReceivePublish;
  }

  /** The messages among reported packets, in order; a packet that is not a parseable PUBLISH delivers none. */
  function Deliveries(packets: seq<Packet>): seq<Message> {
    if packets == [] then []
    else
      var m := if packets[0].kind == Publish then ReceivePublish(packets[0].body, packets[0].flags) else None;
      (if m.Some? then [m.value] else []) + Deliveries(packets[1..])
  }

  lemma PublishFrameDecodes(m: Message)
    requires |m.topic| <= USHRT_MAX && |PublishBody(m)| <= RL.MAX_DECODABLE
    ensures Feed(FRESH, PublishWire(m))
         == Feeding(FRESH, true, |PublishWire(m)|, [Packet(Publish, PublishFlags(m), PublishBody(m))])
  {
    Framing.FeedBytes(Framing.PublishPacket(m));
  }

  /** A body beyond the decoder's limit is refused at the fourth length byte. */
  lemma LongPublishRefused(m: Message)
    requires |m.topic| <= USHRT_MAX && RL.MAX_DECODABLE < |PublishBody(m)|
    ensures var r := Feed(FRESH, PublishWire(m)); !r.ok && r.used == 5 && r.packets == []
  {
    Framing.DecodesIffFits(Framing.PublishPacket(m));
  }

  lemma OneDelivery(p: Packet)
    requires p.kind == Publish
    ensures var m := ReceivePublish(p.body, p.flags);
            Deliveries([p]) == if m.Some? then [m.value] else []
  {
    assert [p][1..] == [];
  }

  /**
    The end-to-end law. For every message the encoder accepts, and every way of cutting its bytes
    into non-empty chunks, the receiver decodes without error and delivers exactly the message sent
    if and only if the body is at most 2,097,151 bytes and the message is faithful: a non-empty
    topic, and for QoS 0 neither dup nor retain, for QoS 1 and 2 a non-zero packet id.
   */
  lemma PublishIsFaithfulIff(m: Message, chunks: seq<seq<byte>>)
    requires |m.topic| <= USHRT_MAX
    requires forall c | c in chunks :: c != []
    requires Concat(chunks) == PublishWire(m)
    ensures var r := ReceiveAll(FRESH, chunks);
      r.ok && Deliveries(r.packets) == [Expected(m)] <==> |PublishBody(m)| <= RL.MAX_DECODABLE && Faithful(m)
  {
    ChunkingIndependent(FRESH, chunks);
    if |PublishBody(m)| <= RL.MAX_DECODABLE {
      PublishFrameDecodes(m);
      BodyRoundTrip(m);
      OneDelivery(Packet(Publish, PublishFlags(m), PublishBody(m)));
    } else {
      LongPublishRefused(m);
    }
  }

  /**
    What happens to a QoS 0 message with dup or retain: it is taken for QoS 2, its first two payload
    bytes for a packet id, and it is dropped when there are no such bytes or they are zero.
   */
  lemma FlaggedQos0Misread(m: Message)
    requires 0 < |m.topic| <= USHRT_MAX && m.qos == AtMostOnce && (m.duplicate || m.retain)
    ensures ReceivePublish(PublishBody(m), PublishFlags(m))
         == if |m.payload| < 2 || FromU16(m.payload[0], m.payload[1]) == 0 then None
            else Some(m.(qos := ExactlyOnce,
                         packetId := FromU16(m.payload[0], m.payload[1]),
                         payload := m.payload[2..]))
  {
    PublishReadAs(m);
  }

  /** A retained message of the standard that the receiver misreads. */
  lemma RetainedMessageMisread()
    ensures var m := Message([0x61], AtMostOnce, false, true, 0, [0, 7, 9]);
      ReceivePublish(PublishBody(m), PublishFlags(m)) == Some(Message([0x61], ExactlyOnce, false, true, 7, [9]))
  {
    FlaggedQos0Misread(Message([0x61], AtMostOnce, false, true, 0, [0, 7, 9]));
    assert [0, 7, 9][2..] == [9];
  }
}
