/**
  The packet readers of the client: in-place reads from a packet body, and what a received
  PUBLISH means.
 */
module Reader {
  import opened Basics
  import opened Wire

  /** byteutil_read_uint16: zero, and no movement, when fewer than two bytes are left. */
  method ReadUint16(buffer: seq<byte>, position: nat, byteLen: nat) returns (result: uint16, next: nat)
    requires position + byteLen <= |buffer|
    ensures byteLen >= 2 ==> next == position + 2 && U16(result) == buffer[position..next]
    ensures byteLen < 2 ==> result == 0 && next == position
  {
    if byteLen >= 2 {
      result := 256 * (buffer[position] as nat) + buffer[position + 1];
      next := position + 2;
      assert U16(result) == [buffer[position], buffer[position + 1]];
    } else {
      result, next := 0, position;
    }
  }

  /** A length-prefixed string at the front of some bytes, and the bytes after it. */
  function TakeUtf(bs: seq<byte>): Option<(seq<byte>, seq<byte>)> {
    if |bs| < 2 then None
    else
      var n := FromU16(bs[0], bs[1]);
      if |bs| < 2 + n then None else Some((bs[2..2 + n], bs[2 + n..]))
  }

  lemma TakeUtfInverts(s: seq<byte>, rest: seq<byte>)
    requires |s| <= USHRT_MAX
    ensures TakeUtf(Utf(s) + rest) == Some((s, rest))
  {
    var bs := Utf(s) + rest;
    assert bs[0] == U16(|s|)[0] && bs[1] == U16(|s|)[1];
    assert bs[2..2 + |s|] == s && bs[2 + |s|..] == rest;
  }

  lemma SliceOfSlice(s: seq<byte>, lo: nat, hi: nat, a: nat, b: nat)
    requires lo <= hi <= |s| && a <= b <= hi - lo
    ensures s[lo..hi][a..b] == s[lo + a..lo + b]
  {
    var inner, outer := s[lo..hi][a..b], s[lo + a..lo + b];
    forall i | 0 <= i < b - a ensures inner[i] == outer[i] {
      assert inner[i] == s[lo..hi][a + i];
    }
  }

  /** The string at a position of a longer buffer. */
  lemma TakeUtfAt(buffer: seq<byte>, position: nat, byteLen: nat, n: uint16)
    requires position + byteLen <= |buffer|
    requires byteLen >= 2 ==> U16(n) == buffer[position..position + 2]
    requires byteLen < 2 ==> n == 0
    ensures TakeUtf(buffer[position..position + byteLen])
         == if byteLen < 2 || 2 + n > byteLen then None
            else Some((buffer[position + 2..position + 2 + n], buffer[position + 2 + n..position + byteLen]))
  {
    var window := buffer[position..position + byteLen];
    if byteLen >= 2 {
      assert U16(n) == [window[0], window[1]];
      U16RoundTrip(n);
      if 2 + n <= byteLen {
        SliceOfSlice(buffer, position, position + byteLen, 2, 2 + n);
        SliceOfSlice(buffer, position, position + byteLen, 2 + n, byteLen);
      }
    }
  }

  /** byteutil_readUTF: NULL for an empty string and for one that does not fit. */
  method ReadUtf(buffer: seq<byte>, position: nat, byteLen: nat) returns (result: Option<seq<byte>>, next: nat)
    requires position + byteLen <= |buffer|
    ensures var taken := TakeUtf(buffer[position..position + byteLen]);
      if taken.Some? && taken.value.0 != [] then
        && result == Some(taken.value.0)
        && next <= position + byteLen && buffer[next..position + byteLen] == taken.value.1
      else result.None?
  {
    var stringLen;
    stringLen, next := ReadUint16(buffer, position, byteLen);
    TakeUtfAt(buffer, position, byteLen, stringLen);
    hide TakeUtf;
    if stringLen > 0 && stringLen + (next - position) <= byteLen {
      result := Some(buffer[next..next + stringLen]);
      next := next + stringLen;
    } else {
      result := None;
    }
  }

  /** The QoS the client reads from the PUBLISH flags; any non-zero flags without bit 1 mean QoS 2. */
  function ReceivedQos(flags: nat): QosValue {
    if flags == 0 then AtMostOnce else if Bit(flags, 1) then AtLeastOnce else ExactlyOnce
  }

  /** The message a PUBLISH delivers, or None for a parse error. */
  function ReceivePublish(body: seq<byte>, flags: nat): Option<Message> {
    var qos := ReceivedQos(flags);
    var taken := TakeUtf(body);
    if taken.None? || taken.value.0 == [] then None
    else
      var (topic, rest) := taken.value;
      if qos == AtMostOnce then
        Some(Message(topic, qos, Bit(flags, 3), Bit(flags, 0), 0, rest))
      else if |rest| < 2 || FromU16(rest[0], rest[1]) == 0 then None
      else
        Some(Message(topic, qos, Bit(flags, 3), Bit(flags, 0), FromU16(rest[0], rest[1]), rest[2..]))
  }

  /** The parsing half of ProcessPublishMessage. */
  method ParsePublish(body: seq<byte>, flags: nat) returns (message: Option<Message>)
    ensures message == ReceivePublish(body, flags)
  {
    var qosValue := if flags == 0 then AtMostOnce else if Bit(flags, 1) then AtLeastOnce else ExactlyOnce;
    var topic, position := ReadUtf(body, 0, |body|);
    assert body[0..|body|] == body;
    if topic.None? {
      return None;
    }
    var packetId: uint16 := 0;
    ghost var rest := body[position..];
    assert body[position..|body|] == rest;
    if qosValue != AtMostOnce {
      packetId, position := ReadUint16(body, position, |body| - position);
      assert |rest| >= 2 ==> packetId == FromU16(rest[0], rest[1]) && body[position..] == rest[2..];
    }
    if qosValue != AtMostOnce && packetId == 0 {
      return None;
    }
    message := Some(Message(topic.value, qosValue, Bit(flags, 3), Bit(flags, 0), packetId, body[position..]));
  }

  /** The flags of a PUBLISH by their numbers. */
  lemma FlagNumbers(flags: nat)
    ensures Bit(flags, 3) == (flags / 8 % 2 == 1) && Bit(flags, 0) == (flags % 2 == 1)
    ensures ReceivedQos(flags)
         == if flags == 0 then AtMostOnce else if flags / 2 % 2 == 1 then AtLeastOnce else ExactlyOnce
  {
    assert Bit(flags, 1) == Bit(flags / 2, 0);
    assert Bit(flags, 3) == Bit(flags / 2, 2) == Bit(flags / 2 / 2, 1) == Bit(flags / 2 / 2 / 2, 0);
    assert flags / 2 / 2 / 2 == flags / 8;
  }

  lemma DeliveredIff(body: seq<byte>, flags: nat)
    ensures ReceivePublish(body, flags).Some? <==>
      && |body| >= 3
      && var n: nat := 256 * (body[0] as nat) + body[1];
         && 0 < n && 2 + n <= |body|
         && (flags != 0 ==> 2 + n + 2 <= |body| && (body[2 + n] != 0 || body[2 + n + 1] != 0))
  {
    FlagNumbers(flags);
    hide Bit, ReceivedQos;
    if |body| >= 2 && 2 + FromU16(body[0], body[1]) <= |body| {
      var n: nat := FromU16(body[0], body[1]);
      var rest := body[2 + n..];
      assert |rest| >= 2 ==> rest[0] == body[2 + n] && rest[1] == body[2 + n + 1];
    }
  }

  lemma TakenParts(bs: seq<byte>)
    ensures TakeUtf(bs).Some? ==>
      var (s, rest) := TakeUtf(bs).value; |s| <= USHRT_MAX && Utf(s) + rest == bs
  {
    if TakeUtf(bs).Some? {
      var n := FromU16(bs[0], bs[1]);
      assert U16(n) + bs[2..2 + n] + bs[2 + n..] == bs;
    }
  }

  lemma IdParts(rest: seq<byte>)
    ensures |rest| >= 2 ==> U16(FromU16(rest[0], rest[1])) + rest[2..] == rest
  {
  }

  lemma DeliveredParts(body: seq<byte>, flags: nat)
    requires ReceivePublish(body, flags).Some?
    ensures var m := ReceivePublish(body, flags).value;
      && |m.topic| <= USHRT_MAX
      && PublishBody(m) == body
      && 2 + |m.topic| + (if flags == 0 then 0 else 2) + |m.payload| == |body|
      && m.duplicate == Bit(flags, 3) && m.retain == Bit(flags, 0) && m.qos == ReceivedQos(flags)
  {
    FlagNumbers(flags);
    hide Bit, ReceivedQos;
    TakenParts(body);
    IdParts(TakeUtf(body).value.1);
    hide TakeUtf, Utf, FromU16, U16;
    var (topic, rest) := TakeUtf(body).value;
    if flags == 0 {
      assert Utf(topic) + [] + rest == body;
    } else {
      assert Utf(topic) + U16(FromU16(rest[0], rest[1])) + rest[2..] == body;
    }
  }

  /**
    Parser totality: a PUBLISH is delivered exactly when its topic is non-empty and fits, and, if the
    flags call for a packet id, the id is there and non-zero. What is delivered is a partition of the
    body: encoding its parts again gives the body back.
   */
  lemma DeliveryCondition(body: seq<byte>, flags: nat)
    ensures ReceivePublish(body, flags).Some? <==>
      && |body| >= 3
      && var n: nat := 256 * (body[0] as nat) + body[1];
         && 0 < n && 2 + n <= |body|
         && (flags != 0 ==> 2 + n + 2 <= |body| && (body[2 + n] != 0 || body[2 + n + 1] != 0))
    ensures ReceivePublish(body, flags).Some? ==>
      var m := ReceivePublish(body, flags).value;
      && |m.topic| <= USHRT_MAX
      && PublishBody(m) == body
      && 2 + |m.topic| + (if flags == 0 then 0 else 2) + |m.payload| == |body|
      && m.duplicate == (flags / 8 % 2 == 1) && m.retain == (flags % 2 == 1)
      && m.qos == if flags == 0 then AtMostOnce else if flags / 2 % 2 == 1 then AtLeastOnce else ExactlyOnce
  {
    FlagNumbers(flags);
    DeliveredIff(body, flags);
    hide Bit, ReceivedQos, PublishBody;
    if ReceivePublish(body, flags).Some? {
      DeliveredParts(body, flags);
      hide ReceivePublish;
    }
  }
}
