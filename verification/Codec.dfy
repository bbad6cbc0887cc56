/**
  The decoder as the source writes it: an instance whose fields and arrays are updated in
  place, proved against `Decoder`.
 */
module Codec {
  import opened Basics
  import opened Decoder
  import RL = RemainingLength

  /** A C `int`: every value assigned to such a variable is proved to fit. */
  type int32 = x: int | -0x8000_0000 <= x < 0x8000_0000

  /** A receive loop that has used `index` bytes and is now in state s. */
  ghost function FeedFrom(s: CodecState, ok: bool, buffer: seq<byte>, index: nat, reported: seq<Packet>): Feeding
    requires index <= |buffer|
  {
    if ok then Feed(s, buffer[index..]).After(Feeding(s, true, index, reported)) else Feeding(s, false, index, reported)
  }

  lemma FeedStart(s: CodecState, buffer: seq<byte>)
    ensures FeedFrom(s, true, buffer, 0, []) == Feed(s, buffer)
  {
    assert buffer[0..] == buffer;
    assert [] + Feed(s, buffer).packets == Feed(s, buffer).packets;
  }

  lemma FeedEnd(s: CodecState, ok: bool, buffer: seq<byte>, index: nat, reported: seq<Packet>)
    requires index <= |buffer| && (ok ==> index == |buffer|)
    ensures FeedFrom(s, ok, buffer, index, reported) == Feeding(s, ok, index, reported)
  {
  }

  lemma FeedTurn(s: CodecState, buffer: seq<byte>, index: nat, reported: seq<Packet>)
    requires index < |buffer|
    ensures FeedFrom(s, true, buffer, index, reported)
         == FeedFrom(StepByte(s, buffer[index]).state, StepByte(s, buffer[index]).ok, buffer, index + 1,
                     reported + StepByte(s, buffer[index]).packets)
  {
    hide StepByte;
    var step := StepByte(s, buffer[index]);
    assert buffer[index..][1..] == buffer[index + 1..];
    if step.ok {
      AfterAssociates(Feeding(s, true, index, reported), Feeding(step.state, true, 1, step.packets),
                      Feed(step.state, buffer[index + 1..]));
    }
  }

  class Codec {
    var currPacket: PacketType
    var codecState: Phase
    var bufferOffset: nat
    var headerFlags: nat
    var headerData: array?<byte>
    const storeRemainLen: array<byte>
    var remainLenIndex: nat
    /** The packets handed to the packet-complete callback, oldest first. */
    var completed: seq<Packet>

    ghost function Repr(): set<object>
      reads this
    {
      {this, storeRemainLen} + if headerData == null then {} else {headerData}
    }

    ghost predicate Intact()
      reads this, Repr()
    {
      && storeRemainLen.Length == 4
      && headerData != storeRemainLen
      && remainLenIndex <= 4
      && (headerData != null ==> bufferOffset <= headerData.Length)
      && LengthInv(State())
    }

    ghost predicate Valid()
      reads this, Repr()
    {
      Intact() && Inv(State())
    }

    /** The fields as a decoder state; bytes of the packet buffer beyond the write position are not read. */
    ghost function State(): CodecState
      reads this, Repr()
      requires remainLenIndex <= storeRemainLen.Length
      requires headerData != null ==> bufferOffset <= headerData.Length
    {
      CodecState(currPacket, codecState, headerFlags,
                 if headerData == null then NoBody else Body(headerData.Length, headerData[..bufferOffset]),
                 storeRemainLen[..remainLenIndex])
    }

    constructor ()
      ensures Valid() && fresh(Repr())
      ensures State() == FRESH && completed == []
    {
      currPacket, codecState, headerFlags, bufferOffset := Unknown, FixedHeader, 0, 0;
      headerData := null;
      storeRemainLen := new byte[4](_ => 0);
      remainLenIndex := 0;
      completed := [];
    }

    /** mqtt_codec_reset: from any valid state, errors included, back to the state of a new codec. */
    method Reset()
      requires Valid()
      modifies Repr()
      ensures Valid() && Repr() <= old(Repr())
      ensures State() == FRESH && completed == old(completed)
    {
      currPacket, codecState, headerFlags, bufferOffset := Unknown, FixedHeader, 0, 0;
      headerData := null;
      forall i | 0 <= i < 4 { storeRemainLen[i] := 0; }
      remainLenIndex := 0;
    }

    /**
      The inner loop of prepareheaderDataInfo over the stored bytes. It reads no byte beyond
      those stored, its running total and multiplier fit a 32-bit int, and the comparison with
      MAX_SEND_SIZE never decides.
     */
    method StoredLength() returns (ok: bool, totalLen: int32)
      requires 1 <= remainLenIndex <= storeRemainLen.Length == 4
      requires RL.WellFormed(storeRemainLen[..remainLenIndex])
      ensures ok <==> remainLenIndex < 4
      ensures ok ==> totalLen == RL.Value(storeRemainLen[..remainLenIndex])
      ensures 0 <= totalLen <= 268435455
    {
      hide RL.Value;
      totalLen := 0;
      ok := true;
      var multiplier: int32 := 1;
      var index := 0;
      ghost var stored := storeRemainLen[..remainLenIndex];
      while true
        invariant 0 <= index < remainLenIndex && index <= 3
        invariant multiplier == [1, 128, 16384, 2097152][index]
        invariant 0 <= totalLen < multiplier
        invariant RL.Value(stored) == totalLen + multiplier * RL.Value(stored[index..])
        decreases remainLenIndex - index
      {
        var encodeByte := storeRemainLen[index];
        ghost var rest := stored[index..];
        assert rest[0] == encodeByte && rest[1..] == stored[index + 1..];
        RL.AccumulateGroup(totalLen, multiplier, rest);
        index := index + 1;
        totalLen := totalLen + encodeByte % 128 * multiplier;
        multiplier := multiplier * 128;
        if multiplier > MAX_3_DIGIT_PACKET_SIZE {
          ok := false;
          break;
        }
        if encodeByte < 128 {
          assert stored[index - 1] < 128 && index == remainLenIndex;
          RL.ValueOfNothing(rest[1..]);
          break;
        }
      }
      if !ok || totalLen > MAX_SEND_SIZE {
        ok := false;
      }
    }

    /** prepareheaderDataInfo */
    method PrepareHeaderDataInfo(remainLen: byte) returns (ok: bool)
      requires Valid() && codecState == FixedHeader && currPacket != Unknown
      modifies Repr()
      ensures Intact() && fresh(Repr() - old(Repr()))
      ensures (State(), ok) == LengthByte(old(State()), remainLen)
      ensures completed == old(completed)
    {
      LengthByteKeepsInv(State(), remainLen);
      hide RL.Value;
      ghost var before := storeRemainLen[..remainLenIndex];
      if remainLenIndex >= storeRemainLen.Length {
        return false;
      }
      storeRemainLen[remainLenIndex] := remainLen;
      remainLenIndex := remainLenIndex + 1;
      assert storeRemainLen[..remainLenIndex] == before + [remainLen];
      if remainLen < 128 {
        var totalLen;
        ok, totalLen := StoredLength();
        if ok {
          codecState := VarHeader;
          remainLenIndex := 0;
          forall i | 0 <= i < 4 { storeRemainLen[i] := 0; }
          if totalLen > 0 {
            bufferOffset := 0;
            headerData := new byte[totalLen];
          }
        }
      } else {
        ok := remainLenIndex != storeRemainLen.Length;
      }
    }

    /** completePacketData: `completed` records the callback's arguments. */
    method CompletePacketData()
      requires remainLenIndex <= storeRemainLen.Length && headerData != storeRemainLen
      requires storeRemainLen.Length == 4
      requires remainLenIndex == 0
      requires headerData != null ==> bufferOffset == headerData.Length
      modifies this
      ensures Valid() && Repr() <= old(Repr())
      ensures State() == FRESH
      ensures var body := if old(headerData) == null then [] else old(headerData[..]);
              completed == old(completed) + Completed(old(State()), body).packets
    {
      completed := completed + [Packet(currPacket, headerFlags, if headerData == null then [] else headerData[..])];
      currPacket := Unknown;
      codecState := FixedHeader;
      headerFlags := 0;
      headerData := null;
    }

    /** The receive loop in CODEC_STATE_FIXED_HEADER, once the type is known. */
    method ReceiveLengthByte(b: byte) returns (ok: bool)
      requires Valid() && codecState == FixedHeader && currPacket != Unknown
      modifies Repr()
      ensures Valid() && fresh(Repr() - old(Repr()))
      ensures var step := StepByte(old(State()), b);
              State() == step.state && ok == step.ok && completed == old(completed) + step.packets
    {
      StepKeepsInv(State(), b);
      ok := PrepareHeaderDataInfo(b);
      if !ok {
        currPacket := TypeError;
      } else if currPacket == PingResp {
        if b == 0 {
          assert old(storeRemainLen[..remainLenIndex]) + [b] == [b];
          RL.ValueOfZero();
          hide RL.Value;
          CompletePacketData();
        } else {
          currPacket := TypeError;
          ok := false;
        }
      }
    }

    /** The receive loop in CODEC_STATE_VAR_HEADER. */
    method ReceiveBodyByte(b: byte)
      requires Valid() && codecState == VarHeader
      modifies Repr()
      ensures Valid() && Repr() <= old(Repr())
      ensures var step := StepByte(old(State()), b);
              State() == step.state && step.ok && completed == old(completed) + step.packets
    {
      StepKeepsInv(State(), b);
      if headerData == null {
        codecState := Payload;
      } else {
        ghost var filled := headerData[..bufferOffset];
        headerData[bufferOffset] := b;
        bufferOffset := bufferOffset + 1;
        assert headerData[..bufferOffset] == filled + [b];
        if bufferOffset >= headerData.Length {
          assert headerData[..] == headerData[..bufferOffset];
          CompletePacketData();
        }
      }
    }

    /** The body of the receive loop. */
    method ReceiveByte(b: byte) returns (ok: bool)
      requires Valid()
      modifies Repr()
      ensures Valid() && fresh(Repr() - old(Repr()))
      ensures var step := StepByte(old(State()), b);
              State() == step.state && ok == step.ok && completed == old(completed) + step.packets
    {
      StepKeepsInv(State(), b);
      ok := true;
      match codecState
      case FixedHeader =>
        if currPacket == Unknown {
          currPacket := TypeOf(b);
          headerFlags := b % 16;
          if !Accepted(currPacket, headerFlags) {
            currPacket := TypeError;
            ok := false;
          }
        } else {
          ok := ReceiveLengthByte(b);
        }
      case VarHeader =>
        ReceiveBodyByte(b);
      case Payload =>
        currPacket := TypeError;
        ok := false;
    }

    /** mqtt_codec_bytesReceived */
    method BytesReceived(buffer: seq<byte>) returns (ok: bool)
      requires Valid()
      modifies Repr()
      ensures Valid() && fresh(Repr() - old(Repr()))
      ensures var r := Receive(old(State()), buffer);
              State() == r.state && ok == r.ok && completed == old(completed) + r.packets
    {
      hide StepByte, FeedFrom;
      if buffer == [] {
        currPacket := TypeError;
        return false;
      }
      ok := true;
      var index := 0;
      ghost var start, reported: seq<Packet> := State(), [];
      FeedStart(start, buffer);
      while index < |buffer| && ok
        invariant Valid() && fresh(Repr() - old(Repr()))
        invariant index <= |buffer|
        invariant completed == old(completed) + reported
        invariant Feed(start, buffer) == FeedFrom(State(), ok, buffer, index, reported)
      {
        ghost var s := State();
        ok := ReceiveByte(buffer[index]);
        FeedTurn(s, buffer, index, reported);
        reported := reported + StepByte(s, buffer[index]).packets;
        index := index + 1;
      }
      FeedEnd(State(), ok, buffer, index, reported);
    }
  }
}
