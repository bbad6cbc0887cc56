/**
  Lists of packets of all the kinds the codec builds, sent back to back.
 */
module Framing {
  import opened Basics
  import opened Wire
  import opened Decoder
  import SP = StreamParser
  import RL = RemainingLength

  datatype Outgoing =
    | ConnectPacket(options: ClientOptions, slack: seq<byte>)
    | PublishPacket(message: Message)
    | PubAckPacket(packetId: uint16)
    | PubRecPacket(packetId: uint16)
    | PubRelPacket(packetId: uint16)
    | PubCompPacket(packetId: uint16)
    | SubscribePacket(packetId: uint16, subscriptions: seq<Subscription>)
    | UnsubscribePacket(packetId: uint16, topics: seq<CString>)
    | PingResponse

  /**
    The packet's parts fit their fields. The encoders ask for that, and for at least one topic, which
    framing does not need.
   */
  predicate Encodable(p: Outgoing) {
    match p
    case ConnectPacket(o, slack) => Connectable(o) && |slack| == Slack(o)
    case PublishPacket(m) => |m.topic| <= USHRT_MAX
    case SubscribePacket(_, list) => forall s | s in list :: |s.topic| <= USHRT_MAX
    case UnsubscribePacket(_, list) => forall s | s in list :: |s| <= USHRT_MAX
    case _ => true
  }

  /** The packet a receiver should be told about. */
  function Sent(p: Outgoing): Packet
    requires Encodable(p)
  {
    match p
    case ConnectPacket(o, slack) => Packet(Connect, 0, ConnectBody(o) + slack)
    case PublishPacket(m) => Packet(Publish, PublishFlags(m), PublishBody(m))
    case PubAckPacket(id) => Packet(PubAck, 0, U16(id))
    case PubRecPacket(id) => Packet(PubRec, 0, U16(id))
    case PubRelPacket(id) => Packet(PubRel, 2, U16(id))
    case PubCompPacket(id) => Packet(PubComp, 0, U16(id))
    case SubscribePacket(id, list) => Packet(Subscribe, 2, U16(id) + SubscribeItems(list))
    case UnsubscribePacket(id, list) => Packet(Unsubscribe, 2, U16(id) + UnsubscribeItems(list))
    case PingResponse => Packet(PingResp, 0, [])
  }

  /** The bytes its encoder produces. */
  function Bytes(p: Outgoing): seq<byte>
    requires Encodable(p)
  {
    match p
    case PubAckPacket(id) => ReplyWire(PubAck, 0, id)
    case PubRecPacket(id) => ReplyWire(PubRec, 0, id)
    case PubRelPacket(id) => ReplyWire(PubRel, 2, id)
    case PubCompPacket(id) => ReplyWire(PubComp, 0, id)
    case PingResponse => [0xD0, 0]
    case _ => FrameWire(Sent(p).kind, Sent(p).flags, Sent(p).body)
  }

  predicate Fits(p: Outgoing) {
    Encodable(p) && |Sent(p).body| <= RL.MAX_DECODABLE
  }

  type Sendable = p: Outgoing | Fits(p) witness PingResponse

  function AllBytes(ps: seq<Sendable>): seq<byte> {
    if ps == [] then [] else Bytes(ps[0]) + AllBytes(ps[1..])
  }

  function AllSent(ps: seq<Sendable>): seq<Packet> {
    if ps == [] then [] else [Sent(ps[0])] + AllSent(ps[1..])
  }

  function FrameOf(p: Packet): SP.Frame
    requires !p.kind.TypeError? && !p.kind.Unknown? && p.flags < 16
  {
    FirstByteParts(p.kind, p.flags);
    SP.Frame(TypeByte(p.kind) + p.flags, RL.Encode(|p.body|), p.body)
  }

  lemma ReplyIsFrame(t: PacketType, flags: nat, id: uint16)
    requires !t.TypeError? && !t.Unknown? && flags < 16
    ensures ReplyWire(t, flags, id) == FrameWire(t, flags, U16(id))
  {
    assert RL.Encode(2) == [2];
  }

  /** Replies and PINGRESP, built by hand in the source, have the general form, too. */
  lemma BytesAreFrameWire(p: Outgoing)
    requires Encodable(p)
    ensures Bytes(p) == FrameWire(Sent(p).kind, Sent(p).flags, Sent(p).body)
    ensures Sent(p).kind == PingResp || Sent(p).body != []
    ensures Sent(p).kind == PingResp ==> Sent(p).body == []
    ensures Accepted(Sent(p).kind, Sent(p).flags)
  {
    var s := Sent(p);
    match p {
      case PubAckPacket(id) => ReplyIsFrame(PubAck, 0, id);
      case PubRecPacket(id) => ReplyIsFrame(PubRec, 0, id);
      case PubRelPacket(id) => ReplyIsFrame(PubRel, 2, id);
      case PubCompPacket(id) => ReplyIsFrame(PubComp, 0, id);
      case PingResponse => assert RL.Encode(0) == [0];
      case _ =>
    }
  }

  lemma PingLength(p: Packet)
    ensures p.body == [] ==> RL.Encode(|p.body|) == [0]
  {
  }

  lemma FirstByteFits(s: Packet)
    requires !s.kind.TypeError? && !s.kind.Unknown? && s.flags < 16 && Accepted(s.kind, s.flags)
    ensures var b := FrameOf(s).first;
      && TypeOf(b) == s.kind && b % 16 == s.flags
      && SP.StartsPacket(b) && (b / 16 == 13 <==> s.kind == PingResp)
  {
    FirstByteParts(s.kind, s.flags);
    SP.AcceptedStarts(FrameOf(s).first);
    hide SP.StartsPacket, TypeByte, Accepted;
  }

  lemma FrameBytes(s: Packet)
    requires !s.kind.TypeError? && !s.kind.Unknown? && s.flags < 16
    ensures FrameOf(s).Wire() == FrameWire(s.kind, s.flags, s.body)
  {
    hide RL.Encode;
  }

  lemma LengthFits(s: Packet)
    ensures var length := RL.Encode(|s.body|);
      && RL.WellFormed(length) && RL.Value(length) == |s.body|
      && (|length| <= 3 <==> |s.body| <= RL.MAX_DECODABLE)
      && (s.body == [] ==> length == [0])
  {
    RL.EncodeCorrect(|s.body|);
    RL.EncodeSizes(|s.body|);
    PingLength(s);
  }

  /** The general form, as a frame. */
  lemma FrameOfFits(s: Packet)
    requires !s.kind.TypeError? && !s.kind.Unknown? && s.flags < 16 && Accepted(s.kind, s.flags)
    requires s.kind == PingResp <==> s.body == []
    ensures FrameOf(s).Wire() == FrameWire(s.kind, s.flags, s.body) && FrameOf(s).Reported() == s
    ensures |s.body| <= RL.MAX_DECODABLE ==> SP.Decodable(FrameOf(s))
    ensures |s.body| > RL.MAX_DECODABLE ==> RL.WellFormed(FrameOf(s).length) && |FrameOf(s).length| >= 4
  {
    FirstByteFits(s);
    FrameBytes(s);
    LengthFits(s);
    var f := FrameOf(s);
    assert f.body == s.body && f.length == RL.Encode(|s.body|);
    hide RL.Encode, RL.Value, RL.WellFormed, Accepted, SP.StartsPacket, TypeOf, FrameOf, FrameWire;
  }

  lemma BytesAreAFrame(p: Outgoing)
    requires Encodable(p)
    ensures FrameOf(Sent(p)).Wire() == Bytes(p) && FrameOf(Sent(p)).Reported() == Sent(p)
    ensures Fits(p) ==> SP.Decodable(FrameOf(Sent(p)))
    ensures !Fits(p) ==>
      var f := FrameOf(Sent(p));
      RL.WellFormed(f.length) && |f.length| >= 4 && SP.StartsPacket(f.first) && f.first / 16 != 13
  {
    BytesAreFrameWire(p);
    FirstByteFits(Sent(p));
    hide SP.StartsPacket, TypeOf, Sent, Bytes, RL.Encode, RL.Value, RL.WellFormed, Accepted;
    FrameOfFits(Sent(p));
  }

  /** One encoded packet, fed to a fresh decoder. */
  lemma FeedBytes(p: Sendable)
    ensures Feed(FRESH, Bytes(p)) == Feeding(FRESH, true, |Bytes(p)|, [Sent(p)])
  {
    BytesAreAFrame(p);
    SP.FeedFrame(FrameOf(Sent(p)));
  }

  /** The decoder takes an encoded packet exactly when its body is at most 2,097,151 bytes long. */
  lemma DecodesIffFits(p: Outgoing)
    requires Encodable(p)
    ensures Feed(FRESH, Bytes(p)).ok <==> Fits(p)
    ensures !Fits(p) ==> Feed(FRESH, Bytes(p)).used == 5 && Feed(FRESH, Bytes(p)).packets == []
  {
    if Fits(p) {
      FeedBytes(p);
    } else {
      BytesAreAFrame(p);
      hide Feed, FrameOf, Sent, Bytes, SP.StartsPacket, RL.WellFormed;
      SP.LongFrameRefused(FrameOf(Sent(p)));
    }
  }

  lemma {:induction false} FeedList(ps: seq<Sendable>)
    ensures Feed(FRESH, AllBytes(ps)) == Feeding(FRESH, true, |AllBytes(ps)|, AllSent(ps))
  {
    if ps != [] {
      FeedBytes(ps[0]);
      FeedAppend(FRESH, Bytes(ps[0]), AllBytes(ps[1..]));
      FeedList(ps[1..]);
    }
  }

  /**
    Any list of encoded packets, sent back to back and received in any non-empty chunks, is
    reported as exactly those packets in order, and leaves the decoder as new.
   */
  lemma PacketListRoundTrip(ps: seq<Sendable>, chunks: seq<seq<byte>>)
    requires forall c | c in chunks :: c != []
    requires Concat(chunks) == AllBytes(ps)
    ensures ReceiveAll(FRESH, chunks) == Feeding(FRESH, true, |AllBytes(ps)|, AllSent(ps))
  {
    ChunkingIndependent(FRESH, chunks);
    FeedList(ps);
  }
}
