/**
  The sending half of the codec: packets built in a growing buffer, proved to come out as
  `Wire` says.
 */
module Encoder {
  import opened Basics
  import opened Buffers
  import opened Wire
  import RL = RemainingLength

  const CONN_FLAG_BYTE_OFFSET: nat := 7

  /** constructFixedHeader */
  method ConstructFixedHeader(ctrlPacket: Buffer, t: PacketType, flags: byte)
    requires !t.TypeError? && !t.Unknown? && flags < 16
    requires |ctrlPacket.bytes| < RL.LENGTH_LIMIT
    modifies ctrlPacket
    ensures ctrlPacket.bytes == FrameWire(t, flags, old(ctrlPacket.bytes))
  {
    var remainSize, index := RL.EncodeLoop(|ctrlPacket.bytes|);
    FirstByteParts(t, flags);
    ctrlPacket.Prepend([OrBytes(TypeByte(t), flags)] + remainSize[..index]);
  }

  // ---------------------------------------------------------------- PUBLISH

  /** constructPublishVariableHeader */
  method ConstructPublishVariableHeader(ctrlPacket: Buffer, m: Message) returns (ok: bool)
    modifies ctrlPacket
    ensures ok <==> |m.topic| <= USHRT_MAX
    ensures ok ==> ctrlPacket.bytes == old(ctrlPacket.bytes) + PublishHead(m)
  {
    var currLen := |ctrlPacket.bytes|;
    var idLen := if m.qos != AtMostOnce then 2 else 0;
    if |m.topic| > USHRT_MAX {
      return false;
    }
    ctrlPacket.Enlarge(|m.topic| + idLen + 2);
    var position := ctrlPacket.WriteUtf(currLen, m.topic);
    if idLen > 0 {
      position := ctrlPacket.WriteInt(position, m.packetId);
    }
    assert ctrlPacket.bytes[..position] == ctrlPacket.bytes;
    ok := true;
  }

  /** The flag nibble of mqtt_codec_publish, or-ed together bit by bit. */
  method PublishHeaderFlags(m: Message) returns (headerFlags: byte)
    ensures headerFlags == PublishFlags(m)
  {
    hide BitOr;
    headerFlags := 0;
    if m.duplicate { headerFlags := OrFlag(headerFlags, 8, 3); }
    if m.retain { headerFlags := OrFlag(headerFlags, 1, 0); }
    assert headerFlags in {0, 1, 8, 9};
    if m.qos != AtMostOnce {
      if m.qos == AtLeastOnce {
        headerFlags := OrFlag(headerFlags, 2, 1);
      } else {
        headerFlags := OrFlag(headerFlags, 4, 2);
      }
    }
  }

  /** mqtt_codec_publish */
  method Publish(m: Message) returns (packet: Option<seq<byte>>)
    requires |m.topic| <= USHRT_MAX && |m.payload| <= MAX_SEND_SIZE ==> |PublishBody(m)| < RL.LENGTH_LIMIT
    ensures packet == if |m.topic| <= 65535 && |m.payload| <= 4294967167 then Some(PublishWire(m)) else None
  {
    if |m.payload| > MAX_SEND_SIZE {
      return None;
    }
    var headerFlags := PublishHeaderFlags(m);
    var result := new Buffer();
    var ok := ConstructPublishVariableHeader(result, m);
    if !ok {
      return None;
    }
    var payloadOffset := |result.bytes|;
    if |m.payload| > 0 {
      result.Enlarge(|m.payload|);
      var end := result.Write(payloadOffset, m.payload);
      assert result.bytes[..end] == result.bytes;
    }
    assert result.bytes == PublishBody(m);
    ConstructFixedHeader(result, PacketType.Publish, headerFlags);
    packet := Some(result.bytes);
  }

  // ---------------------------------------------------------------- acknowledgements

  /** constructPublishReply */
  method ConstructPublishReply(t: PacketType, flags: byte, packetId: uint16) returns (packet: seq<byte>)
    requires !t.TypeError? && !t.Unknown? && flags < 16
    ensures packet == ReplyWire(t, flags, packetId)
  {
    FirstByteParts(t, flags);
    var result := new Buffer();
    result.Enlarge(4);
    var position := result.WriteByte(0, OrBytes(TypeByte(t), flags));
    position := result.WriteByte(position, 2);
    position := result.WriteInt(position, packetId);
    packet := result.bytes;
    assert packet[..4] == packet;
  }

  // ---------------------------------------------------------------- SUBSCRIBE and UNSUBSCRIBE

  lemma {:induction false} SubscribeItemsSnoc(list: seq<Subscription>, item: Subscription)
    requires forall s | s in list :: |s.topic| <= USHRT_MAX
    requires |item.topic| <= USHRT_MAX
    ensures SubscribeItems(list + [item]) == SubscribeItems(list) + Utf(item.topic) + [item.qos.Code()]
  {
    if list == [] {
      assert [item][1..] == [];
    } else {
      assert (list + [item])[1..] == list[1..] + [item];
      SubscribeItemsSnoc(list[1..], item);
    }
  }

  /** addListItemsToSubscribePacket: earlier bytes stay, and every item is appended, or a topic is too long. */
  method AddListItemsToSubscribePacket(ctrlPacket: Buffer, list: seq<Subscription>) returns (ok: bool)
    modifies ctrlPacket
    ensures ok <==> forall s | s in list :: |s.topic| <= USHRT_MAX
    ensures ok ==> ctrlPacket.bytes == old(ctrlPacket.bytes) + SubscribeItems(list)
  {
    assert SubscribeItems([]) == [];
    hide SubscribeItems;
    ok := true;
    var index := 0;
    while index < |list| && ok
      invariant index <= |list|
      invariant ok ==> forall s | s in list[..index] :: |s.topic| <= USHRT_MAX
      invariant ok ==> ctrlPacket.bytes == old(ctrlPacket.bytes) + SubscribeItems(list[..index])
      invariant !ok ==> exists s :: s in list && |s.topic| > USHRT_MAX
    {
      var offsetLen := |ctrlPacket.bytes|;
      var item := list[index];
      if |item.topic| > USHRT_MAX {
        ok := false;
      } else {
        assert list[..index + 1] == list[..index] + [item];
        SubscribeItemsSnoc(list[..index], item);
        ctrlPacket.Enlarge(|item.topic| + 2 + 1);
        var position := ctrlPacket.WriteUtf(offsetLen, item.topic);
        position := ctrlPacket.WriteByte(position, item.qos.Code());
        assert ctrlPacket.bytes[..position] == ctrlPacket.bytes;
      }
      index := index + 1;
    }
    if ok {
      assert list[..index] == list;
    }
  }

  /** constructSubscibeTypeVariableHeader, on the empty buffer its callers pass */
  method ConstructSubscribeTypeVariableHeader(ctrlPacket: Buffer, packetId: uint16)
    requires ctrlPacket.bytes == []
    modifies ctrlPacket
    ensures ctrlPacket.bytes == U16(packetId)
  {
    ctrlPacket.Enlarge(2);
    var position := ctrlPacket.WriteInt(0, packetId);
    assert ctrlPacket.bytes[..position] == ctrlPacket.bytes;
  }

  /** mqtt_codec_subscribe */
  method Subscribe(packetId: uint16, list: seq<Subscription>) returns (packet: Option<seq<byte>>)
    requires (forall s | s in list :: |s.topic| <= USHRT_MAX) ==> 2 + |SubscribeItems(list)| < RL.LENGTH_LIMIT
    ensures packet == if list != [] && forall s | s in list :: |s.topic| <= 65535
                      then Some(FrameWire(PacketType.Subscribe, 2, U16(packetId) + SubscribeItems(list))) else None
  {
    if |list| == 0 {
      return None;
    }
    var result := new Buffer();
    ConstructSubscribeTypeVariableHeader(result, packetId);
    var ok := AddListItemsToSubscribePacket(result, list);
    if !ok {
      return None;
    }
    ConstructFixedHeader(result, PacketType.Subscribe, 2);
    packet := Some(result.bytes);
  }

  /** One turn of addListItemsToUnsubscribePacket */
  method AppendTopic(ctrlPacket: Buffer, topic: CString)
    requires |topic| <= USHRT_MAX
    modifies ctrlPacket
    ensures ctrlPacket.bytes == old(ctrlPacket.bytes) + Utf(topic)
  {
    var offsetLen := |ctrlPacket.bytes|;
    ctrlPacket.Enlarge(|topic| + 2);
    var position := ctrlPacket.WriteUtf(offsetLen, topic);
    assert ctrlPacket.bytes[..position] == ctrlPacket.bytes;
  }

  lemma {:induction false} UnsubscribeItemsSnoc(list: seq<CString>, item: CString)
    requires forall s | s in list :: |s| <= USHRT_MAX
    requires |item| <= USHRT_MAX
    ensures UnsubscribeItems(list + [item]) == UnsubscribeItems(list) + Utf(item)
  {
    if list == [] {
      assert [item][1..] == [];
    } else {
      assert (list + [item])[1..] == list[1..] + [item];
      UnsubscribeItemsSnoc(list[1..], item);
    }
  }

  /** addListItemsToUnsubscribePacket */
  method AddListItemsToUnsubscribePacket(ctrlPacket: Buffer, list: seq<CString>) returns (ok: bool)
    modifies ctrlPacket
    ensures ok <==> forall s | s in list :: |s| <= USHRT_MAX
    ensures ok ==> ctrlPacket.bytes == old(ctrlPacket.bytes) + UnsubscribeItems(list)
  {
    assert UnsubscribeItems([]) == [];
    hide UnsubscribeItems, Utf;
    ok := true;
    var index := 0;
    while index < |list| && ok
      invariant index <= |list|
      invariant ok ==> forall s | s in list[..index] :: |s| <= USHRT_MAX
      invariant ok ==> ctrlPacket.bytes == old(ctrlPacket.bytes) + UnsubscribeItems(list[..index])
      invariant !ok ==> exists s :: s in list && |s| > USHRT_MAX
    {
      var item := list[index];
      if |item| > USHRT_MAX {
        ok := false;
      } else {
        assert list[..index + 1] == list[..index] + [item];
        UnsubscribeItemsSnoc(list[..index], item);
        AppendTopic(ctrlPacket, item);
      }
      index := index + 1;
    }
    if ok {
      assert list[..index] == list;
    }
  }

  /** mqtt_codec_unsubscribe */
  method Unsubscribe(packetId: uint16, list: seq<CString>) returns (packet: Option<seq<byte>>)
    requires (forall s | s in list :: |s| <= USHRT_MAX) ==> 2 + |UnsubscribeItems(list)| < RL.LENGTH_LIMIT
    ensures packet == if list != [] && forall s | s in list :: |s| <= 65535
                      then Some(FrameWire(PacketType.Unsubscribe, 2, U16(packetId) + UnsubscribeItems(list))) else None
  {
    if |list| == 0 {
      return None;
    }
    var result := new Buffer();
    ConstructSubscribeTypeVariableHeader(result, packetId);
    var ok := AddListItemsToUnsubscribePacket(result, list);
    if !ok {
      return None;
    }
    ConstructFixedHeader(result, PacketType.Unsubscribe, 2);
    packet := Some(result.bytes);
  }

  // ---------------------------------------------------------------- CONNECT

  /** constructConnectVariableHeader: the flag byte is left zero. */
  method ConstructConnectVariableHeader(ctrlPacket: Buffer, keepAlive: uint16)
    requires ctrlPacket.bytes == []
    modifies ctrlPacket
    ensures ctrlPacket.bytes == ConnectHead(0, keepAlive)
  {
    ctrlPacket.Enlarge(10);
    var position := ctrlPacket.WriteUtf(0, [0x4D, 0x51, 0x54, 0x54]);
    position := ctrlPacket.WriteByte(position, 4);
    position := ctrlPacket.WriteByte(position, 0);
    position := ctrlPacket.WriteInt(position, keepAlive);
    assert ctrlPacket.bytes[..position] == ctrlPacket.bytes;
  }

  /** The packet is filled up to `position`: the variable header with these flags, then `written`. */
  ghost predicate Filled(bytes: seq<byte>, position: nat, flags: byte, keepAlive: uint16, written: seq<byte>) {
    position <= |bytes| && bytes[..position] == ConnectHead(flags, keepAlive) + written
  }

  /** `packet[CONN_FLAG_BYTE_OFFSET] |= mask` in a partly filled packet */
  method OrConnectFlag(ctrlPacket: Buffer, mask: byte,
                       ghost position: nat, ghost flags: byte, ghost keepAlive: uint16, ghost written: seq<byte>)
    requires Filled(ctrlPacket.bytes, position, flags, keepAlive, written)
    requires BitOr(flags, mask) == flags + mask < 256
    modifies ctrlPacket
    ensures |ctrlPacket.bytes| == old(|ctrlPacket.bytes|)
    ensures Filled(ctrlPacket.bytes, position, flags + mask, keepAlive, written)
  {
    ghost var before := ctrlPacket.bytes;
    assert before[7] == before[..position][7] == flags;
    ctrlPacket.Or(CONN_FLAG_BYTE_OFFSET, mask);
    assert ctrlPacket.bytes[..position] == before[..position][7 := flags + mask];
    assert ConnectHead(flags, keepAlive)[7 := flags + mask] == ConnectHead(flags + mask, keepAlive);
  }

  /** byteutil_writeUTF in a partly filled packet */
  method WriteConnectField(ctrlPacket: Buffer, position: nat, s: seq<byte>,
                           ghost flags: byte, ghost keepAlive: uint16, ghost written: seq<byte>) returns (next: nat)
    requires Filled(ctrlPacket.bytes, position, flags, keepAlive, written)
    requires |s| <= USHRT_MAX && position + 2 + |s| <= |ctrlPacket.bytes|
    modifies ctrlPacket
    ensures |ctrlPacket.bytes| == old(|ctrlPacket.bytes|) && next == position + 2 + |s|
    ensures Filled(ctrlPacket.bytes, next, flags, keepAlive, written + Utf(s))
  {
    next := ctrlPacket.WriteUtf(position, s);
  }

  lemma WillFlagBits(qos: QosValue)
    ensures var bits := qos.Code() * 8 % 256;
            bits <= 16 && BitOr(4, bits) == 4 + bits && BitOr(4 + bits, 0x20) == 4 + bits + 0x20
  {
    hide BitOr;
    assert Pow2(3) == 8 && Pow2(5) == 32;
    hide Pow2;
    BitOrDisjoint(0, 3, 4);
    BitOrDisjoint(1, 3, 4);
    BitOrDisjoint(2, 3, 4);
    BitOrDisjoint(1, 5, 4);
    BitOrDisjoint(1, 5, 12);
    BitOrDisjoint(1, 5, 20);
  }

  /** The will fields of constructConnPayload: topic, flags and message. */
  method WriteWill(ctrlPacket: Buffer, position: nat, o: ClientOptions, ghost written: seq<byte>)
    returns (next: nat, ghost flags: byte)
    requires Connectable(o) && Length(o.willTopic) > 0
    requires Filled(ctrlPacket.bytes, position, 0, o.keepAlive, written)
    requires position + FieldRoom(o.willTopic) + FieldRoom(o.willMessage) <= |ctrlPacket.bytes|
    modifies ctrlPacket
    ensures |ctrlPacket.bytes| == old(|ctrlPacket.bytes|)
    ensures next == position + FieldRoom(o.willTopic) + FieldRoom(o.willMessage)
    ensures flags == WillFlags(o)
    ensures Filled(ctrlPacket.bytes, next, flags, o.keepAlive, written + Field(o.willTopic) + Field(o.willMessage))
  {
    BitOrZero(4);
    OrConnectFlag(ctrlPacket, 4, position, 0, o.keepAlive, written);
    next := WriteConnectField(ctrlPacket, position, o.willTopic.value, 4, o.keepAlive, written);
    ghost var withTopic := written + Field(o.willTopic);
    var qosBits := o.qos.Code() * 8 % 256;
    WillFlagBits(o.qos);
    OrConnectFlag(ctrlPacket, qosBits, next, 4, o.keepAlive, withTopic);
    flags := 4 + qosBits;
    if o.messageRetain {
      OrConnectFlag(ctrlPacket, 0x20, next, flags, o.keepAlive, withTopic);
      flags := flags + 0x20;
    }
    next := WriteConnectField(ctrlPacket, next, o.willMessage.value, flags, o.keepAlive, withTopic);
  }

  lemma CleanSessionBit(flags: nat)
    requires flags % 4 == 0
    ensures BitOr(flags, 2) == flags + 2
  {
    assert !Bit(flags, 1) && Pow2(1) == 2;
    BitOrSetsBit(flags, 1);
  }

  /** The clean-session flag of constructConnPayload. */
  method OrCleanSession(ctrlPacket: Buffer, o: ClientOptions,
                        ghost position: nat, ghost flags: byte, ghost written: seq<byte>)
    requires Filled(ctrlPacket.bytes, position, flags, o.keepAlive, written) && flags % 4 == 0
    modifies ctrlPacket
    ensures |ctrlPacket.bytes| == old(|ctrlPacket.bytes|)
    ensures flags + 2 < 256
    ensures Filled(ctrlPacket.bytes, position, flags + (if o.useCleanSession then 2 else 0), o.keepAlive, written)
  {
    if o.useCleanSession {
      CleanSessionBit(flags);
      OrConnectFlag(ctrlPacket, 2, position, flags, o.keepAlive, written);
    }
  }

  lemma TopFlagBits(flags: nat)
    requires flags < 64
    ensures BitOr(flags, 0x80) == flags + 0x80
    ensures BitOr(flags + 0x80, 0x40) == flags + 0x80 + 0x40
  {
    assert Pow2(6) == 64 && Pow2(7) == 128;
    BitClearAbove(flags, 7);
    BitOrSetsBit(flags, 7);
    BitClearAbove(flags, 6);
    BitBelow(flags, 6);
    BitOrSetsBit(flags + 0x80, 6);
  }

  method WriteCredentials(ctrlPacket: Buffer, start: nat, o: ClientOptions, ghost flags: byte, ghost before: seq<byte>)
    returns (position: nat, ghost written: seq<byte>, ghost newFlags: byte)
    requires Connectable(o) && flags < 64
    requires Filled(ctrlPacket.bytes, start, flags, o.keepAlive, before)
    requires start + FieldRoom(o.username) + FieldRoom(o.password) <= |ctrlPacket.bytes|
    modifies ctrlPacket
    ensures |ctrlPacket.bytes| == old(|ctrlPacket.bytes|)
    ensures position == start + |Field(o.username)| + |Field(o.password)|
    ensures written == before + Field(o.username) + Field(o.password)
    ensures newFlags == flags + CredentialFlags(o)
    ensures Filled(ctrlPacket.bytes, position, newFlags, o.keepAlive, written)
  {
    position, written, newFlags := start, before, flags;
    TopFlagBits(flags);
    if Length(o.username) > 0 {
      OrConnectFlag(ctrlPacket, 0x80, position, newFlags, o.keepAlive, written);
      newFlags := newFlags + 0x80;
      position := WriteConnectField(ctrlPacket, position, o.username.value, newFlags, o.keepAlive, written);
    }
    written := written + Field(o.username);
    if Length(o.password) > 0 {
      OrConnectFlag(ctrlPacket, 0x40, position, newFlags, o.keepAlive, written);
      newFlags := newFlags + 0x40;
      position := WriteConnectField(ctrlPacket, position, o.password.value, newFlags, o.keepAlive, written);
    }
    written := written + Field(o.password);
  }

  /** The part of constructConnPayload after the client id. */
  method WriteOptionalFields(ctrlPacket: Buffer, start: nat, o: ClientOptions)
    returns (position: nat, ghost written: seq<byte>)
    requires Connectable(o)
    requires Filled(ctrlPacket.bytes, start, 0, o.keepAlive, Utf(o.clientId))
    requires |ctrlPacket.bytes| == start + FieldRoom(o.willTopic) + FieldRoom(o.willMessage)
                                 + FieldRoom(o.username) + FieldRoom(o.password)
    modifies ctrlPacket
    ensures written == ConnectPayload(o)
    ensures |ctrlPacket.bytes| == position + Slack(o)
    ensures Filled(ctrlPacket.bytes, position, ConnectFlags(o), o.keepAlive, written)
  {
    hide BitOr, Utf;
    position, written := start, Utf(o.clientId);
    ghost var flags := WillFlags(o);
    if Length(o.willMessage) > 0 && Length(o.willTopic) > 0 {
      position, flags := WriteWill(ctrlPacket, position, o, written);
    }
    written := Utf(o.clientId) + Field(o.willTopic) + Field(o.willMessage);
    assert Filled(ctrlPacket.bytes, position, flags, o.keepAlive, written);
    hide WillFlags, ConnectHead, Filled;
    position, written, flags := WriteCredentials(ctrlPacket, position, o, flags, written);
    OrCleanSession(ctrlPacket, o, position, flags, written);
  }

  /** constructConnPayload, after the variable header */
  method ConstructConnPayload(ctrlPacket: Buffer, o: ClientOptions) returns (ok: bool, ghost slack: seq<byte>)
    requires ctrlPacket.bytes == ConnectHead(0, o.keepAlive)
    modifies ctrlPacket
    ensures ok <==> Connectable(o)
    ensures ok ==> ctrlPacket.bytes == ConnectBody(o) + slack && |slack| == Slack(o)
  {
    slack := [];
    var clientLen, usernameLen, passwordLen := |o.clientId|, Length(o.username), Length(o.password);
    var willMessageLen, willTopicLen := Length(o.willMessage), Length(o.willTopic);
    var spaceLen := 2 + (if o.username.Some? then 2 else 0) + (if o.password.Some? then 2 else 0)
                      + (if o.willMessage.Some? then 2 else 0) + (if o.willTopic.Some? then 2 else 0);
    var currLen := |ctrlPacket.bytes|;
    var totalLen := clientLen + usernameLen + passwordLen + willMessageLen + willTopicLen + spaceLen;
    if clientLen > USHRT_MAX {
      return false, slack;
    } else if usernameLen == 0 && passwordLen > 0 {
      return false, slack;
    } else if (willMessageLen > 0 && willTopicLen == 0) || (willTopicLen > 0 && willMessageLen == 0) {
      return false, slack;
    }
    ctrlPacket.Enlarge(totalLen);
    ghost var written := [];
    assert ctrlPacket.bytes[..currLen] == ConnectHead(0, o.keepAlive) + written;
    var position := WriteConnectField(ctrlPacket, currLen, o.clientId, 0, o.keepAlive, written);
    written := Utf(o.clientId);
    if willMessageLen > USHRT_MAX || willTopicLen > USHRT_MAX || usernameLen > USHRT_MAX || passwordLen > USHRT_MAX {
      return false, slack;
    }
    position, written := WriteOptionalFields(ctrlPacket, position, o);
    slack := ctrlPacket.bytes[position..];
    assert ctrlPacket.bytes == ctrlPacket.bytes[..position] + slack;
    ok := true;
  }

  /**
    mqtt_codec_connect. The packet is the body that `Wire` describes plus `slack`, the allocated
    bytes nothing was written to.
   */
  method Connect(o: ClientOptions) returns (packet: Option<seq<byte>>, ghost slack: seq<byte>)
    ensures packet.Some? <==> Connectable(o)
    ensures packet.Some? ==>
      packet.value == FrameWire(PacketType.Connect, 0, ConnectBody(o) + slack) && |slack| == Slack(o)
  {
    var result := new Buffer();
    ConstructConnectVariableHeader(result, o.keepAlive);
    var ok;
    ok, slack := ConstructConnPayload(result, o);
    if !ok {
      return None, slack;
    }
    ConnectSize(o);
    ConstructFixedHeader(result, PacketType.Connect, 0);
    packet := Some(result.bytes);
  }
}
