/**
  From the bytes of one side's mqtt_codec_publish to the other side's message callback, through
  any sequence of onBytesReceived calls.
 */
module EndToEnd {
  import opened Basics
  import opened Trace
  import opened Wire
  import opened Decoder
  import opened Reader
  import opened ClientSpec
  import opened Client
  import opened PublishRoundTrip
  import SP = StreamParser
  import RL = RemainingLength

  /** The messages the application has been given. */
  function Received(s: State): seq<Message> { HistoryOf(s.log).received }

  /** The parse errors it has been told of. */
  function ParseErrors(s: State): nat { HistoryOf(s.log).parseErrors }

  lemma CloseGivesNone(s: State, closing: Closing)
    ensures Received(CloseConnection(s, closing)) == Received(s)
    ensures ParseErrors(CloseConnection(s, closing)) == ParseErrors(s)
  {
    hide HistoryOf, Ordered, OnePing, InOrder;
  }

  lemma ErrorGivesNone(s: State, e: ErrorKind, closing: Closing)
    ensures Received(SetError(s, e, closing)) == Received(s)
    ensures ParseErrors(SetError(s, e, closing)) == ParseErrors(s) + if s.errorCb && e == ParseError then 1 else 0
  {
    hide HistoryOf, Ordered, OnePing, InOrder, CloseConnection;
    CloseGivesNone(if s.errorCb then Emit(s, ErrorReported(e)) else s, closing);
  }

  lemma EmitGivesNone(s: State, o: Output)
    requires o.Sent? || o.SendFailed?
    ensures Received(Emit(s, o)) == Received(s) && ParseErrors(Emit(s, o)) == ParseErrors(s)
  {
    hide HistoryOf, Ordered, OnePing, InOrder;
  }

  lemma SendGivesNone(s: State, kind: PacketType, wire: seq<byte>, r: SendResult)
    ensures Received(SendPacket(s, kind, wire, r).0) == Received(s)
    ensures ParseErrors(SendPacket(s, kind, wire, r).0) == ParseErrors(s)
  {
    EmitGivesNone(s, SendFailed(kind));
    EmitGivesNone(s, Sent(kind, wire, r.clock));
    hide HistoryOf, Emit;
  }

  lemma ReplyGivesNone(s: State, kind: PacketType, flags: nat, packetId: uint16, env: ReceiveEnv)
    requires kind in {PubAck, PubRec, PubRel, PubComp} && flags < 16
    ensures Received(SendReply(s, kind, flags, packetId, env)) == Received(s)
    ensures ParseErrors(SendReply(s, kind, flags, packetId, env)) == ParseErrors(s)
  {
    hide Received, ParseErrors, SendPacket, SetError, ReplyWire;
    SendGivesNone(s, kind, ReplyWire(kind, flags, packetId), env.send);
    ErrorGivesNone(SendPacket(s, kind, ReplyWire(kind, flags, packetId), env.send).0, CommunicationError, env.closing);
  }

  lemma PublishGives(s: State, p: Packet, env: ReceiveEnv)
    ensures Received(OnPublish(s, p, env)) == Received(s) + Deliveries([p.(kind := Publish)])
    ensures ParseErrors(OnPublish(s, p, env))
         == ParseErrors(s) + if s.errorCb && ReceivePublish(p.body, p.flags).None? then 1 else 0
  {
    hide HistoryOf, Ordered, OnePing, InOrder, SetError, SendReply, ReceivePublish;
    OneDelivery(p.(kind := Publish));
    ErrorGivesNone(s, ParseError, env.closing);
    var m := ReceivePublish(p.body, p.flags);
    if m.Some? {
      var s1 := Emit(s, MessageReceived(m.value));
      ReplyGivesNone(s1, PubRec, 0, m.value.packetId, env);
      ReplyGivesNone(s1, PubAck, 0, m.value.packetId, env);
    }
  }

  lemma PublishReplyGivesNone(s: State, p: Packet, env: ReceiveEnv)
    ensures Received(OnPublishReply(s, p, env)) == Received(s)
  {
    hide HistoryOf, Ordered, OnePing, InOrder, SetError, SendReply;
    ErrorGivesNone(s, CommunicationError, env.closing);
    if |p.body| == 2 {
      var packetId := FromU16(p.body[0], p.body[1]);
      var s1 := Emit(s, Acked(p.kind, packetId));
      ReplyGivesNone(s1, PubRel, 2, packetId, env);
      ReplyGivesNone(s1, PubComp, 0, packetId, env);
    }
  }

  lemma ConnAckGivesNone(s: State, body: seq<byte>, env: ReceiveEnv)
    ensures Received(OnConnAck(s, body, env)) == Received(s)
  {
    hide HistoryOf, Ordered, OnePing, InOrder, SetError;
    ErrorGivesNone(s, CommunicationError, env.closing);
  }

  lemma SubAcksGiveNone(s: State, body: seq<byte>, env: ReceiveEnv)
    requires body != []
    ensures Received(OnSubAck(s, body, env)) == Received(s)
    ensures Received(OnUnsubAck(s, body, env)) == Received(s)
  {
    hide HistoryOf, Ordered, OnePing, InOrder, SetError, SubackCodes;
    ErrorGivesNone(s, CommunicationError, env.closing);
    ErrorGivesNone(s, MemoryError, env.closing);
  }

  lemma PingGivesNone(s: State)
    ensures Received(Emit(s.(timeSincePing := 0), PingAnswered)) == Received(s)
  {
    hide HistoryOf, Ordered, OnePing, InOrder;
  }

  /** A packet gives the application the message of a parseable PUBLISH and nothing else. */
  lemma PacketGives(s: State, p: Packet, env: ReceiveEnv)
    ensures Received(OnPacket(s, p, env)) == Received(s) + Deliveries([p])
  {
    hide Received, Emit, OnPublish, OnPublishReply, OnConnAck, OnSubAck, OnUnsubAck, ReceivePublish;
    assert [p][1..] == [];
    PingGivesNone(s);
    if p.body == [] {
      DeliveryCondition(p.body, p.flags);
    } else {
      ConnAckGivesNone(s, p.body, env);
      SubAcksGiveNone(s, p.body, env);
    }
    PublishGives(s, p, env);
    PublishReplyGivesNone(s, p, env);
  }

  /**
    Totality of the PUBLISH handler: a PUBLISH with a body, and the decoder reports no other, either
    hands over its message or takes the parse-error path, never both and never neither, whatever
    becomes of the acknowledgement. That path reports to the error callback if there is one.
   */
  lemma PublishTotality(s: State, p: Packet, env: ReceiveEnv)
    requires p.kind == Publish && p.body != []
    ensures var t := OnPacket(s, p, env);
      match ReceivePublish(p.body, p.flags)
      case Some(m) => Received(t) == Received(s) + [m] && ParseErrors(t) == ParseErrors(s)
      case None => Received(t) == Received(s) && ParseErrors(t) == ParseErrors(s) + if s.errorCb then 1 else 0
  {
    hide Received, ParseErrors, OnPublish, ReceivePublish;
    OneDelivery(p);
    PublishGives(s, p, env);
  }

  lemma {:induction false} DeliveriesAppend(a: seq<Packet>, b: seq<Packet>)
    ensures Deliveries(a + b) == Deliveries(a) + Deliveries(b)
  {
    hide ReceivePublish;
    if a == [] {
      assert a + b == b;
    } else {
      assert (a + b)[1..] == a[1..] + b;
      DeliveriesAppend(a[1..], b);
    }
  }

  lemma NothingDelivered(s: State, events: seq<Event>, packets: seq<Packet>)
    requires events == [] && packets == []
    ensures Run(s, events) == s && Deliveries(packets) == []
  {
  }

  lemma {:induction false} PacketsGive(s: State, packets: seq<Packet>, envs: nat -> ReceiveEnv, n: nat)
    requires n <= |packets|
    ensures Received(Run(s, PacketEvents(packets, envs)[..n])) == Received(s) + Deliveries(packets[..n])
  {
    hide HistoryOf, OnPacket, Deliveries, Handle;
    if n == 0 {
      NothingDelivered(s, PacketEvents(packets, envs)[..0], packets[..0]);
    } else {
      PacketsGive(s, packets, envs, n - 1);
      PacketEventHandled(s, packets, envs, n - 1);
      PacketGives(Run(s, PacketEvents(packets, envs)[..n - 1]), packets[n - 1], envs(n - 1));
      assert packets[..n] == packets[..n - 1] + [packets[n - 1]];
      DeliveriesAppend(packets[..n - 1], [packets[n - 1]]);
    }
  }

  /** One onBytesReceived call gives the application the messages of the packets it completes. */
  lemma ChunkGives(s: State, c: CodecState, io: Io, yielded: seq<Event>)
    requires io.Bytes? && IoYields(c, io, yielded)
    ensures Received(Run(s, yielded)) == Received(s) + Deliveries(Receive(c, io.chunk).packets)
    ensures CodecAfter(c, io) == StateAfter(c, io.chunk)
  {
    hide HistoryOf, Run, Deliveries, Receive, SetError;
    var r := Receive(c, io.chunk);
    var events := PacketEvents(r.packets, io.envs);
    PacketsGive(s, r.packets, io.envs, |r.packets|);
    assert events[..|r.packets|] == events && r.packets[..|r.packets|] == r.packets;
    if r.ok {
      assert events + [] == events;
    } else {
      FailureEvent(s, events, io.closing);
      ErrorGivesNone(Run(s, events), ParseError, io.closing);
    }
  }

  function Chunks(ios: seq<Io>): seq<seq<byte>>
    requires forall io | io in ios :: io.Bytes?
  {
    seq(|ios|, i requires 0 <= i < |ios| => ios[i].chunk)
  }

  /** Any sequence of calls gives the messages of all packets the codec reports. */
  lemma {:induction false} ChunksGive(s: State, c: CodecState, ios: seq<Io>, events: seq<Event>)
    requires (forall io | io in ios :: io.Bytes?) && AllIoYield(c, ios, events)
    ensures Received(Run(s, events)) == Received(s) + Deliveries(ReceiveWithReset(c, Chunks(ios)).1)
    decreases |ios|
  {
    hide Received, Deliveries, Receive, StateAfter, IoYields, CodecAfter, Handle;
    if ios == [] {
      NothingDelivered(s, [], []);
    } else {
      var io, rest := ios[0], ios[1..];
      assert io in ios && forall x | x in rest :: x in ios;
      var n: nat :| n <= |events| && IoYields(c, io, events[..n]) && AllIoYield(CodecAfter(c, io), rest, events[n..]);
      ChunkGives(s, c, io, events[..n]);
      RunAppend(s, events[..n], events[n..]);
      assert events[..n] + events[n..] == events;
      ChunksGive(Run(s, events[..n]), StateAfter(c, io.chunk), rest, events[n..]);
      assert Chunks(ios)[0] == io.chunk && Chunks(ios)[1..] == Chunks(rest);
      DeliveriesAppend(Receive(c, io.chunk).packets, ReceiveWithReset(StateAfter(c, io.chunk), Chunks(rest)).1);
    }
  }

  lemma {:induction false} NoResetNeeded(c: CodecState, chunks: seq<seq<byte>>)
    requires ReceiveAll(c, chunks).ok
    ensures ReceiveWithReset(c, chunks).1 == ReceiveAll(c, chunks).packets
    decreases |chunks|
  {
    hide Receive;
    if chunks != [] {
      NoResetNeeded(Receive(c, chunks[0]).state, chunks[1..]);
    }
  }

  /**
    The end-to-end law at the callbacks. The bytes of any message the encoder accepts, received by a
    client in any state with a fresh codec, in any non-empty chunks and whatever its sends and its
    application do: no call fails and the application is given exactly the message sent, once, if and
    only if the body is at most 2,097,151 bytes and the message is faithful.
   */
  lemma ClientDeliversIff(s: State, m: Message, ios: seq<Io>, events: seq<Event>)
    requires |m.topic| <= USHRT_MAX && AllIoYield(FRESH, ios, events)
    requires forall io | io in ios :: io.Bytes? && io.chunk != []
    requires Concat(Chunks(ios)) == PublishWire(m)
    ensures ReceiveAll(FRESH, Chunks(ios)).ok && Received(Run(s, events)) == Received(s) + [Expected(m)]
       <==> |PublishBody(m)| <= RL.MAX_DECODABLE && Faithful(m)
  {
    hide HistoryOf, Deliveries, Receive, IoYields, Handle, Faithful, PublishBody, Run, AllIoYield, ReceiveAll;
    var chunks := Chunks(ios);
    forall chunk | chunk in chunks ensures chunk != [] {
      var i :| 0 <= i < |chunks| && chunks[i] == chunk;
      assert ios[i] in ios;
    }
    ChunksGive(s, FRESH, ios, events);
    PublishIsFaithfulIff(m, chunks);
    if ReceiveAll(FRESH, chunks).ok {
      NoResetNeeded(FRESH, chunks);
      var got := Deliveries(ReceiveAll(FRESH, chunks).packets);
      assert Received(s) + got == Received(s) + [Expected(m)] ==> got == [Expected(m)] by {
        assert got == (Received(s) + got)[|Received(s)|..];
        assert [Expected(m)] == (Received(s) + [Expected(m)])[|Received(s)|..];
      }
    }
  }

  lemma HalfHeader()
    ensures Feed(FRESH, [0x30, 4]) == Feeding(CodecState(Publish, VarHeader, 0, Body(4, []), []), true, 2, [])
  {
    var s1 := CodecState(Publish, FixedHeader, 0, NoBody, []);
    assert StepByte(FRESH, 0x30) == Step(s1, true, []);
    assert [] + [4 as byte] == [4] && RL.Value([4]) == 4;
    assert StepByte(s1, 4) == Step(CodecState(Publish, VarHeader, 0, Body(4, []), []), true, []);
    hide StepByte;
    assert [0x30, 4][1..] == [4] && [4][1..] == [];
  }

  lemma WholePublish()
    ensures Feed(FRESH, [0x30, 4, 0x20, 2, 0, 0]) == Feeding(FRESH, true, 6, [Packet(Publish, 0, [0x20, 2, 0, 0])])
  {
    hide Feed;
    var f := SP.Frame(0x30, [4], [0x20, 2, 0, 0]);
    assert RL.Value([4]) == 4;
    assert f.Wire() == [0x30, 4, 0x20, 2, 0, 0];
    SP.FeedFrame(f);
  }

  /** Two bytes of a PUBLISH, and what they make of four bytes that are a CONNACK. */
  lemma HalfPublish()
    ensures Receive(FRESH, [0x30, 4]).ok
    ensures Receive(StateAfter(FRESH, [0x30, 4]), [0x20, 2, 0, 0])
         == Feeding(FRESH, true, 4, [Packet(Publish, 0, [0x20, 2, 0, 0])])
  {
    hide Feed;
    HalfHeader();
    WholePublish();
    assert [0x30, 4] + [0x20, 2, 0, 0] == [0x30, 4, 0x20, 2, 0, 0];
    FeedAppend(FRESH, [0x30, 4], [0x20, 2, 0, 0]);
    var tail := Feed(Feed(FRESH, [0x30, 4]).state, [0x20, 2, 0, 0]);
    assert [] + tail.packets == tail.packets;
  }

  lemma WholeConnAck()
    ensures Receive(FRESH, [0x20, 2, 0, 0]).packets == [Packet(ConnAck, 0, [0, 0])]
  {
    var f := SP.Frame(0x20, [2], [0, 0]);
    assert RL.Value([2]) == 2;
    assert f.Wire() == [0x20, 2, 0, 0];
    SP.FeedFrame(f);
  }

  /**
    Only a failed chunk resets the codec: a connection that closes and the one that opens next leave it
    as it is. When two bytes of a PUBLISH were the last of the old connection, the CONNACK of the new
    one arrives as that PUBLISH's body.
   */
  lemma HalfPacketOutlivesConnection(reopen: Io, envs: nat -> ReceiveEnv, closing: Closing, events: seq<Event>)
    requires reopen.Opened?
    requires var c := CodecAfterAll(FRESH, [Bytes([0x30, 4], envs, closing), Closed, reopen]);
             IoYields(c, Bytes([0x20, 2, 0, 0], envs, closing), events)
    ensures events == [PacketArrived(Packet(Publish, 0, [0x20, 2, 0, 0]), envs(0))]
    ensures Receive(FRESH, [0x20, 2, 0, 0]).packets == [Packet(ConnAck, 0, [0, 0])]
  {
    var ios := [Bytes([0x30, 4], envs, closing), Closed, reopen];
    hide Receive, StateAfter;
    HalfPublish();
    WholeConnAck();
    var half := StateAfter(FRESH, [0x30, 4]);
    assert CodecAfterAll(FRESH, ios) == half by {
      assert ios[1..] == [Closed, reopen] && [Closed, reopen][1..] == [reopen] && [reopen][1..] == [];
      assert CodecAfterAll(half, [Closed, reopen]) == CodecAfterAll(half, [reopen]) == CodecAfterAll(half, []);
    }
    hide CodecAfterAll;
    var p := Packet(Publish, 0, [0x20, 2, 0, 0]);
    assert PacketEvents([p], envs) == [PacketArrived(p, envs(0))];
    assert events == PacketEvents([p], envs) + [];
  }
}
