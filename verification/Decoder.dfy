/**
  The receiving half of the codec: a state machine fed one byte at a time.

  `CodecState` is what the decoder's future depends on. The write position into the
  packet buffer is not part of it: while a buffer exists the position is the number of
  bytes already filled, and once the buffer is gone the stale position is never read.
  `StepByte` is the specification of one turn of the receive loop; class `Codec` carries
  the source's own fields and is proved to follow it.
 */
module Decoder {
  import opened Basics
  import RL = RemainingLength

  datatype Phase = FixedHeader | VarHeader | Payload

  /** headerData: absent, or a buffer of `total` bytes of which `filled` have arrived. */
  datatype Body = NoBody | Body(total: nat, filled: seq<byte>)

  datatype CodecState = CodecState(
    currPacket: PacketType,
    phase: Phase,
    headerFlags: nat,
    body: Body,
    stored: seq<byte>)

  const FRESH := CodecState(Unknown, FixedHeader, 0, NoBody, [])

  const MAX_3_DIGIT_PACKET_SIZE: nat := 2097152

  datatype Step = Step(state: CodecState, ok: bool, packets: seq<Packet>)

  /** The switch that validates the first byte of a packet. */
  predicate Accepted(t: PacketType, flags: nat) {
    match t
    case Reserved0 => false
    case Reserved15 => false
    case PubRel => flags == 2
    case Subscribe => flags == 2
    case Unsubscribe => flags == 2
    case Publish => true
    case TypeError => true
    case Unknown => true
    case _ => flags == 0
  }

  /** prepareheaderDataInfo: the state after one byte of Remaining Length, and whether it was accepted. */
  function LengthByte(s: CodecState, b: byte): (r: (CodecState, bool)) {
    if |s.stored| >= 4 then (s, false)
    else
      var stored := s.stored + [b];
      if b < 128 then
        if |stored| == 4 then (s.(stored := stored), false)
        else
          var total := RL.Value(stored);
          (s.(phase := VarHeader, stored := [], body := if total > 0 then Body(total, []) else s.body), true)
      else (s.(stored := stored), |stored| < 4)
  }

  /** completePacketData: report the packet and go back to the beginning. */
  function Completed(s: CodecState, body: seq<byte>): Step {
    Step(s.(currPacket := Unknown, phase := FixedHeader, headerFlags := 0, body := NoBody), true,
         [Packet(s.currPacket, s.headerFlags, body)])
  }

  function Failed(s: CodecState): Step {
    Step(s.(currPacket := TypeError), false, [])
  }

  function StepByte(s: CodecState, b: byte): Step {
    match s.phase
    case FixedHeader =>
      if s.currPacket == Unknown then
        var s1 := s.(currPacket := TypeOf(b), headerFlags := b % 16);
        if Accepted(s1.currPacket, s1.headerFlags) then Step(s1, true, []) else Failed(s1)
      else
        var (s1, ok) := LengthByte(s, b);
        if !ok then Failed(s1)
        else if s.currPacket == PingResp then
          if b == 0 then Completed(s1, []) else Failed(s1)
        else Step(s1, true, [])
    case VarHeader =>
      (match s.body
       case NoBody => Step(s.(phase := Payload), true, [])
       case Body(total, filled) =>
         var filled' := filled + [b];
         if |filled'| >= total then Completed(s, filled')
         else Step(s.(body := Body(total, filled')), true, []))
    case Payload => Failed(s)
  }

  /** The receive loop: the state, the bytes used, and the packets reported, up to the first failure. */
  datatype Feeding = Feeding(state: CodecState, ok: bool, used: nat, packets: seq<Packet>) {

    /** What a run amounts to when this successful run came before it. */
    function After(first: Feeding): Feeding {
      this.(used := first.used + used, packets := first.packets + packets)
    }
  }

  lemma AfterAssociates(a: Feeding, b: Feeding, c: Feeding)
    ensures c.After(b).After(a) == c.After(b.After(a))
  {
    assert a.packets + (b.packets + c.packets) == (a.packets + b.packets) + c.packets;
  }

  function Feed(s: CodecState, bs: seq<byte>): (r: Feeding)
    ensures r.used <= |bs| && (r.ok ==> r.used == |bs|)
    decreases |bs|
  {
    if bs == [] then Feeding(s, true, 0, [])
    else
      var step := StepByte(s, bs[0]);
      if !step.ok then Feeding(step.state, false, 1, step.packets)
      else
        Feed(step.state, bs[1..]).After(Feeding(step.state, true, 1, step.packets))
  }

  /** One call of mqtt_codec_bytesReceived. */
  function Receive(s: CodecState, chunk: seq<byte>): Feeding {
    if chunk == [] then Feeding(s.(currPacket := TypeError), false, 0, []) else Feed(s, chunk)
  }

  /** Successive calls, up to the first that fails. */
  function ReceiveAll(s: CodecState, chunks: seq<seq<byte>>): Feeding
    decreases |chunks|
  {
    if chunks == [] then Feeding(s, true, 0, [])
    else
      var first := Receive(s, chunks[0]);
      if !first.ok then first
      else
        ReceiveAll(first.state, chunks[1..]).After(first)
  }

  /** onBytesReceived: the codec's state after one call and the reset that follows a failure. */
  function StateAfter(s: CodecState, chunk: seq<byte>): CodecState {
    var r := Receive(s, chunk);
    if r.ok then r.state else FRESH
  }

  /** Successive calls in which the client resets the codec after each failure. */
  function ReceiveWithReset(s: CodecState, chunks: seq<seq<byte>>): (r: (CodecState, seq<Packet>))
    decreases |chunks|
  {
    if chunks == [] then (s, [])
    else
      var rest := ReceiveWithReset(StateAfter(s, chunks[0]), chunks[1..]);
      (rest.0, Receive(s, chunks[0]).packets + rest.1)
  }

  // ---------------------------------------------------------------- invariant

  /** The part of the invariant that holds inside the handling of a length byte, too. */
  predicate LengthInv(s: CodecState) {
    && s.headerFlags < 16
    && |s.stored| <= 4
    && (forall i | 0 <= i < |s.stored| && i < 3 :: s.stored[i] >= 128)
    && (s.phase == FixedHeader ==> s.body == NoBody)
    && (s.phase == Payload ==> s.body == NoBody)
    && (s.phase != FixedHeader ==> s.stored == [])
    && (s.phase == FixedHeader && s.currPacket == Unknown ==> s.stored == [])
    && (s.body.Body? ==> |s.body.filled| < s.body.total <= RL.MAX_DECODABLE)
  }

  /**
    Holds of every state the decoder can reach, errors without a reset included: at most
    four length bytes are stored, all of them continuation bytes while a fifth slot is
    free, and a body under assembly still has room.
   */
  predicate Inv(s: CodecState) {
    && LengthInv(s)
    && (s.phase == FixedHeader && s.currPacket == PingResp ==> s.stored == [])
  }

  lemma ThreeByteValue(stored: seq<byte>)
    requires |stored| <= 3
    ensures RL.Value(stored) <= RL.MAX_DECODABLE
  {
    RL.ValueBound(stored);
    assert RL.Pow128(0) == 1 && RL.Pow128(1) == 128 && RL.Pow128(2) == 128 * 128 && RL.Pow128(3) == 128 * 128 * 128;
  }

  lemma LengthByteKeepsInv(s: CodecState, b: byte)
    requires LengthInv(s) && s.phase == FixedHeader && s.currPacket != Unknown
    ensures LengthInv(LengthByte(s, b).0)
  {
    if |s.stored| < 3 {
      ThreeByteValue(s.stored + [b]);
    }
  }

  lemma StepKeepsInv(s: CodecState, b: byte)
    requires Inv(s)
    ensures Inv(StepByte(s, b).state)
  {
    if s.phase == FixedHeader && s.currPacket != Unknown {
      LengthByteKeepsInv(s, b);
    }
  }

  lemma {:induction false} FeedKeepsInv(s: CodecState, bs: seq<byte>)
    requires Inv(s)
    ensures Inv(Feed(s, bs).state)
    decreases |bs|
  {
    if bs != [] {
      StepKeepsInv(s, bs[0]);
      FeedKeepsInv(StepByte(s, bs[0]).state, bs[1..]);
    }
  }

  /** Every call keeps the invariant, whatever bytes arrive and whether or not earlier calls failed. */
  lemma {:induction false} ReceiveKeepsInv(s: CodecState, chunk: seq<byte>)
    requires Inv(s)
    ensures Inv(Receive(s, chunk).state)
  {
    if chunk != [] {
      FeedKeepsInv(s, chunk);
    }
  }

  // ---------------------------------------------------------------- chunking

  /** Feeding a concatenation is feeding the first part and, if that succeeds, the second. */
  lemma {:induction false} FeedAppend(s: CodecState, a: seq<byte>, b: seq<byte>)
    ensures var first := Feed(s, a);
            Feed(s, a + b) == if !first.ok then first else Feed(first.state, b).After(first)
    decreases |a|
  {
    if a == [] {
      assert a + b == b;
    } else {
      assert (a + b)[1..] == a[1..] + b;
      var step := StepByte(s, a[0]);
      FeedAppend(step.state, a[1..], b);
      var tail := Feed(step.state, a[1..]);
      AfterAssociates(Feeding(step.state, true, 1, step.packets), tail, Feed(tail.state, b));
    }
  }

  /**
    Chunking independence: however a byte string is cut into non-empty chunks, the packets
    reported, the outcome, the failing byte and the final state are those of feeding it whole.
   */
  lemma {:induction false} ChunkingIndependent(s: CodecState, chunks: seq<seq<byte>>)
    requires forall c | c in chunks :: c != []
    ensures ReceiveAll(s, chunks) == Feed(s, Concat(chunks))
    decreases |chunks|
  {
    if chunks != [] {
      assert chunks[0] in chunks;
      assert forall c | c in chunks[1..] :: c in chunks;
      FeedAppend(s, chunks[0], Concat(chunks[1..]));
      ChunkingIndependent(Receive(s, chunks[0]).state, chunks[1..]);
    }
  }

  /** Any two partitions of one byte string are indistinguishable. */
  lemma TwoPartitions(s: CodecState, xs: seq<seq<byte>>, ys: seq<seq<byte>>)
    requires forall c | c in xs :: c != []
    requires forall c | c in ys :: c != []
    requires Concat(xs) == Concat(ys)
    ensures ReceiveAll(s, xs) == ReceiveAll(s, ys)
  {
    ChunkingIndependent(s, xs);
    ChunkingIndependent(s, ys);
  }

  lemma {:induction false} ResetAppend(s: CodecState, a: seq<seq<byte>>, b: seq<seq<byte>>)
    ensures ReceiveWithReset(s, a + b).0 == ReceiveWithReset(ReceiveWithReset(s, a).0, b).0
    ensures ReceiveWithReset(s, a + b).1
         == ReceiveWithReset(s, a).1 + ReceiveWithReset(ReceiveWithReset(s, a).0, b).1
    decreases |a|
  {
    hide StateAfter, Receive;
    if a == [] {
      assert a + b == b;
    } else {
      assert (a + b)[0] == a[0] && (a + b)[1..] == a[1..] + b;
      ResetAppend(StateAfter(s, a[0]), a[1..], b);
    }
  }

  /**
    A malformed chunk costs only its own bytes: with the client's reset, what is reported for
    the chunks after it is what a fresh codec reports for them.
   */
  lemma ResetRecovers(s: CodecState, before: seq<seq<byte>>, bad: seq<byte>, after: seq<seq<byte>>)
    requires !Receive(ReceiveWithReset(s, before).0, bad).ok
    ensures ReceiveWithReset(s, before + ([bad] + after)).0 == ReceiveWithReset(FRESH, after).0
    ensures ReceiveWithReset(s, before + ([bad] + after)).1
         == ReceiveWithReset(s, before).1
          + (Receive(ReceiveWithReset(s, before).0, bad).packets + ReceiveWithReset(FRESH, after).1)
  {
    ResetAppend(s, before, [bad] + after);
    assert ([bad] + after)[1..] == after;
  }

  // ---------------------------------------------------------------- packet boundaries

  /** Between two packets. */
  predicate AtBoundary(s: CodecState) {
    s.phase == FixedHeader && s.currPacket == Unknown
  }

  /** Some bytes are taken differently in the middle of a packet, or after an error without a reset. */
  lemma MidPacketBytes(s: CodecState) returns (bs: seq<byte>)
    requires Inv(s) && !AtBoundary(s)
    ensures Feed(s, bs).ok != Feed(FRESH, bs).ok
  {
    bs := if s.phase == Payload || (s.phase == FixedHeader && |s.stored| >= 3) then [0x30] else [0];
    assert bs[1..] == [];
  }

  /**
    The codec takes every stream of bytes as a new codec does if and only if it is between two packets.
   */
  lemma DecodesAsNewIff(s: CodecState)
    requires Inv(s)
    ensures AtBoundary(s) <==>
      forall bs :: Feed(s, bs).packets == Feed(FRESH, bs).packets && Feed(s, bs).ok == Feed(FRESH, bs).ok
  {
    if AtBoundary(s) {
      forall bs ensures Feed(s, bs).packets == Feed(FRESH, bs).packets && Feed(s, bs).ok == Feed(FRESH, bs).ok {
        if bs != [] {
          assert StepByte(s, bs[0]) == StepByte(FRESH, bs[0]);
        }
      }
    } else {
      var bs := MidPacketBytes(s);
    }
  }
}
