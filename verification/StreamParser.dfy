/**
  A reference parser for whole byte streams, and the proof that the byte-wise decoder is
  a refinement of it. The parser never looks at decoder states: it finds the next frame
  in the remaining bytes, cuts it off and goes on.
 */
module StreamParser {
  import opened Basics
  import opened Decoder
  import RL = RemainingLength

  /** One packet as it appeared on the wire. */
  datatype Frame = Frame(first: byte, length: seq<byte>, body: seq<byte>) {
    function Wire(): seq<byte> { [first] + length + body }

    function Reported(): Packet { Packet(TypeOf(first), first % 16, body) }
  }

  /** What the beginning of a stream holds: a frame, part of one, or a byte that no frame can have. */
  datatype Scan = Partial | Whole(frame: Frame) | Malformed(at: nat)

  function LeadingContinuations(bs: seq<byte>): (k: nat)
    ensures k <= |bs|
    ensures forall i | 0 <= i < k :: bs[i] >= 128
    ensures k < |bs| ==> bs[k] < 128
  {
    if bs == [] || bs[0] < 128 then 0 else 1 + LeadingContinuations(bs[1..])
  }

  /** The first bytes of section 2.2 of MQTT 3.1.1: a packet type and the flags it requires. */
  predicate StartsPacket(b: byte) {
    var kind, flags := b / 16, b % 16;
    if kind == 3 then true
    else if kind == 6 || kind == 8 || kind == 10 then flags == 2
    else 1 <= kind <= 14 && flags == 0
  }

  lemma AcceptedStarts(b: byte)
    ensures Accepted(TypeOf(b), b % 16) <==> StartsPacket(b)
    ensures TypeOf(b) == PingResp <==> b / 16 == 13
  {
  }

  /**
    The next frame. A fourth length byte is always malformed, PINGRESP must be followed by a
    zero byte, and any other packet without a body swallows one byte and is malformed at the next.
   */
  function ScanFrame(bs: seq<byte>): Scan {
    if bs == [] then Partial
    else if !StartsPacket(bs[0]) then Malformed(0)
    else if |bs| == 1 then Partial
    else if bs[0] / 16 == 13 then
      if bs[1] == 0 then Whole(Frame(bs[0], [0], [])) else Malformed(1)
    else
      var k := LeadingContinuations(bs[1..]);
      if k >= 3 then
        if |bs| > 4 then Malformed(4) else Partial
      else if |bs| == 1 + k then Partial
      else
        var length := bs[1..k + 2];
        var total := RL.Value(length);
        if total == 0 then
          if |bs| >= k + 4 then Malformed(k + 3) else Partial
        else if |bs| < k + 2 + total then Partial
        else Whole(Frame(bs[0], length, bs[k + 2..k + 2 + total]))
  }

  /** The whole frames of a stream, the rest, and the offending byte if there is one. */
  datatype Parsed = Parsed(frames: seq<Frame>, rest: seq<byte>, error: Option<nat>)

  lemma WholeIsPrefix(bs: seq<byte>)
    requires ScanFrame(bs).Whole?
    ensures var w := ScanFrame(bs).frame.Wire(); 2 <= |w| <= |bs| && bs[..|w|] == w
  {
    hide StartsPacket, RL.Value;
    if bs[0] / 16 != 13 {
      var k := LeadingContinuations(bs[1..]);
      var total := RL.Value(bs[1..k + 2]);
      assert bs[..k + 2 + total] == [bs[0]] + bs[1..k + 2] + bs[k + 2..k + 2 + total];
    }
  }

  function Parse(bs: seq<byte>): (r: Parsed)
    decreases |bs|
  {
    match ScanFrame(bs)
    case Partial => Parsed([], bs, None)
    case Malformed(at) => Parsed([], bs, Some(at))
    case Whole(frame) =>
      WholeIsPrefix(bs);
      var tail := Parse(bs[|frame.Wire()|..]);
      var consumed := |frame.Wire()|;
      Parsed([frame] + tail.frames, tail.rest,
             if tail.error.Some? then Some(consumed + tail.error.value) else None)
  }

  function Wires(frames: seq<Frame>): seq<byte> {
    if frames == [] then [] else frames[0].Wire() + Wires(frames[1..])
  }

  function Reports(frames: seq<Frame>): seq<Packet> {
    if frames == [] then [] else [frames[0].Reported()] + Reports(frames[1..])
  }

  // ---------------------------------------------------------------- feeding the parts of a frame

  /** The state between the first byte and the end of the length field. */
  function InLength(first: byte, stored: seq<byte>): CodecState {
    CodecState(TypeOf(first), FixedHeader, first % 16, NoBody, stored)
  }

  /** The state after the length field. */
  function InBody(first: byte, body: Body): CodecState {
    CodecState(TypeOf(first), VarHeader, first % 16, body, [])
  }

  lemma FeedOne(s: CodecState, b: byte)
    ensures Feed(s, [b]) == Feeding(StepByte(s, b).state, StepByte(s, b).ok, 1, StepByte(s, b).packets)
  {
    var step := StepByte(s, b);
    assert [b][1..] == [];
    if step.ok {
      assert step.packets + [] == step.packets;
    }
  }

  lemma {:induction false} FeedContinuations(first: byte, stored: seq<byte>, more: seq<byte>)
    requires TypeOf(first) != PingResp
    requires |stored| + |more| <= 3
    requires forall i | 0 <= i < |more| :: more[i] >= 128
    ensures Feed(InLength(first, stored), more) == Feeding(InLength(first, stored + more), true, |more|, [])
    decreases |more|
  {
    if more == [] {
      assert stored + more == stored;
    } else {
      var next := stored + [more[0]];
      assert StepByte(InLength(first, stored), more[0]) == Step(InLength(first, next), true, []);
      FeedContinuations(first, next, more[1..]);
      assert next + more[1..] == stored + more;
    }
  }

  lemma {:induction false} FeedBody(first: byte, total: nat, filled: seq<byte>, more: seq<byte>)
    requires |filled| + |more| <= total && |filled| < total
    ensures Feed(InBody(first, Body(total, filled)), more)
         == if |filled| + |more| < total
            then Feeding(InBody(first, Body(total, filled + more)), true, |more|, [])
            else Feeding(FRESH, true, |more|, [Packet(TypeOf(first), first % 16, filled + more)])
    decreases |more|
  {
    var s := InBody(first, Body(total, filled));
    if more == [] {
      assert filled + more == filled;
    } else {
      var next := filled + [more[0]];
      assert next + more[1..] == filled + more;
      if |next| < total {
        assert StepByte(s, more[0]) == Step(InBody(first, Body(total, next)), true, []);
        FeedBody(first, total, next, more[1..]);
      } else {
        assert more[1..] == [] && next == filled + more;
        assert StepByte(s, more[0]) == Step(FRESH, true, [Packet(TypeOf(first), first % 16, next)]);
      }
    }
  }

  /** The state once the length field is complete. */
  function AfterLength(first: byte, total: nat): CodecState {
    InBody(first, if total > 0 then Body(total, []) else NoBody)
  }

  lemma LastLengthByte(first: byte, lead: seq<byte>, last: byte)
    requires TypeOf(first) != PingResp && |lead| <= 2 && last < 128
    ensures StepByte(InLength(first, lead), last) == Step(AfterLength(first, RL.Value(lead + [last])), true, [])
  {
  }

  /** A complete length field of at most three bytes starts the body. */
  lemma FeedLength(first: byte, length: seq<byte>)
    requires TypeOf(first) != PingResp
    requires RL.WellFormed(length) && |length| <= 3
    ensures Feed(InLength(first, []), length)
         == Feeding(AfterLength(first, RL.Value(length)), true, |length|, [])
  {
    hide StepByte, RL.Value;
    var lead, last := length[..|length| - 1], length[|length| - 1];
    assert length == lead + [last];
    FeedContinuations(first, [], lead);
    assert [] + lead == lead;
    LastLengthByte(first, lead, last);
    FeedOne(InLength(first, lead), last);
    FeedAppend(InLength(first, []), lead, [last]);
  }

  lemma FeedFirst(first: byte)
    ensures Feed(FRESH, [first])
         == if StartsPacket(first) then Feeding(InLength(first, []), true, 1, [])
            else Feeding(Failed(InLength(first, [])).state, false, 1, [])
  {
    FeedOne(FRESH, first);
    AcceptedStarts(first);
  }

  /**
    The first bytes a new decoder takes, by their numbers: PUBLISH with any flags; PUBREL, SUBSCRIBE and
    UNSUBSCRIBE with flags 2; and the other types but 0 and 15 with no flags.
   */
  lemma FirstBytesTaken(b: byte)
    ensures Feed(FRESH, [b]).ok <==>
      || b / 16 == 3
      || (b / 16 in {6, 8, 10} && b % 16 == 2)
      || (b / 16 in {1, 2, 4, 5, 7, 9, 11, 12, 13, 14} && b % 16 == 0)
  {
    FeedFirst(b);
  }

  /** Bytes that report nothing, followed by one that fails: the rest is never looked at. */
  lemma FailsAfter(s: CodecState, a: seq<byte>, b: byte, rest: seq<byte>)
    requires Feed(s, a).ok && Feed(s, a).packets == []
    requires !StepByte(Feed(s, a).state, b).ok && StepByte(Feed(s, a).state, b).packets == []
    ensures var r := Feed(s, a + [b] + rest); !r.ok && r.used == |a| + 1 && r.packets == []
  {
    hide StepByte;
    var t := Feed(s, a).state;
    FeedAppend(s, a, [b] + rest);
    assert a + ([b] + rest) == a + [b] + rest;
    assert ([b] + rest)[0] == b;
  }

  // ---------------------------------------------------------------- frames

  lemma FourthLengthByte(first: byte, stored: seq<byte>, b: byte)
    requires TypeOf(first) != PingResp && |stored| == 3
    ensures !StepByte(InLength(first, stored), b).ok && StepByte(InLength(first, stored), b).packets == []
  {
  }

  /** Three continuation bytes are stored; any fourth byte fails. */
  lemma FeedLongLength(first: byte, rest: seq<byte>)
    requires TypeOf(first) != PingResp
    requires |rest| >= 3 && rest[0] >= 128 && rest[1] >= 128 && rest[2] >= 128
    ensures var r := Feed(InLength(first, []), rest);
      && r.packets == []
      && (|rest| == 3 ==> r.ok)
      && (|rest| > 3 ==> !r.ok && r.used == 4)
  {
    hide StepByte;
    FeedContinuations(first, [], rest[..3]);
    assert [] + rest[..3] == rest[..3];
    if |rest| == 3 {
      assert rest[..3] == rest;
    } else {
      FourthLengthByte(first, rest[..3], rest[3]);
      FailsAfter(InLength(first, []), rest[..3], rest[3], rest[4..]);
      assert rest[..3] + [rest[3]] + rest[4..] == rest;
    }
  }

  /** A frame with four or more length bytes fails at the fourth, whatever its body. */
  lemma LongFrameRefused(f: Frame)
    requires StartsPacket(f.first) && f.first / 16 != 13
    requires RL.WellFormed(f.length) && |f.length| >= 4
    ensures var r := Feed(FRESH, f.Wire()); !r.ok && r.used == 5 && r.packets == []
  {
    var tail := f.length + f.body;
    FeedFirst(f.first);
    assert f.Wire() == [f.first] + tail;
    FeedAppend(FRESH, [f.first], tail);
    FeedLongLength(f.first, tail);
  }

  /** A frame the decoder accepts, in the terms of section 2.2 of MQTT 3.1.1. */
  predicate Decodable(f: Frame) {
    && StartsPacket(f.first)
    && if f.first / 16 == 13 then f.length == [0] && f.body == []
       else RL.WellFormed(f.length) && |f.length| <= 3 && RL.Value(f.length) == |f.body| > 0
  }

  /** One decodable frame, fed to a fresh decoder: one packet, and fresh again. */
  lemma FeedFrame(f: Frame)
    requires Decodable(f)
    ensures Feed(FRESH, f.Wire()) == Feeding(FRESH, true, |f.Wire()|, [f.Reported()])
  {
    FeedFirst(f.first);
    AcceptedStarts(f.first);
    hide StartsPacket, RL.WellFormed, RL.Value;
    FeedAppend(FRESH, [f.first], f.length);
    if TypeOf(f.first) == PingResp {
      FeedOne(InLength(f.first, []), 0);
      assert [f.first] + [0] == f.Wire();
    } else {
      FeedLength(f.first, f.length);
      FeedBody(f.first, |f.body|, [], f.body);
      assert [] + f.body == f.body;
      FeedAppend(FRESH, [f.first] + f.length, f.body);
    }
  }

  /** The length field the scanner cuts out. */
  lemma FieldWellFormed(bs: seq<byte>)
    requires |bs| >= 2
    ensures var k := LeadingContinuations(bs[1..]);
            k + 1 < |bs| ==> RL.WellFormed(bs[1..k + 2])
  {
    var k := LeadingContinuations(bs[1..]);
    if k + 1 < |bs| {
      var field := bs[1..k + 2];
      assert field[|field| - 1] == bs[1..][k];
      forall i | 0 <= i < |field| - 1 ensures field[i] >= 128 {
        assert field[i] == bs[1..][i];
      }
    }
  }

  lemma ScanDecodable(bs: seq<byte>)
    requires ScanFrame(bs).Whole?
    ensures Decodable(ScanFrame(bs).frame)
  {
    if TypeOf(bs[0]) != PingResp {
      FieldWellFormed(bs);
    }
  }

  /** After the length field: too few bytes for the body, or a body of length zero. */
  lemma FeedNoBody(first: byte, total: nat, tail: seq<byte>)
    requires |tail| < total || total == 0
    ensures var r := Feed(AfterLength(first, total), tail);
      && r.packets == []
      && (total > 0 || |tail| < 2 ==> r.ok)
      && (total == 0 && |tail| >= 2 ==> !r.ok && r.used == 2)
  {
    var s := AfterLength(first, total);
    if total > 0 {
      FeedBody(first, total, [], tail);
    } else if tail != [] {
      FeedOne(s, tail[0]);
      assert tail == [tail[0]] + tail[1..];
      if |tail| == 1 {
        assert tail == [tail[0]];
      } else {
        FailsAfter(s, [tail[0]], tail[1], tail[2..]);
        assert [tail[0]] + [tail[1]] + tail[2..] == tail;
      }
    }
  }

  lemma FeedLengthThenNoBody(first: byte, length: seq<byte>, tail: seq<byte>)
    requires TypeOf(first) != PingResp && RL.WellFormed(length) && |length| <= 3
    requires |tail| < RL.Value(length) || RL.Value(length) == 0
    ensures var r := Feed(InLength(first, []), length + tail);
      && r.packets == []
      && (RL.Value(length) > 0 || |tail| < 2 ==> r.ok)
      && (RL.Value(length) == 0 && |tail| >= 2 ==> !r.ok && r.used == |length| + 2)
  {
    hide StepByte, RL.Value;
    FeedLength(first, length);
    FeedAppend(InLength(first, []), length, tail);
    FeedNoBody(first, RL.Value(length), tail);
  }

  lemma FeedBadPing(first: byte, rest: seq<byte>)
    requires TypeOf(first) == PingResp && rest != [] && rest[0] != 0
    ensures var r := Feed(InLength(first, []), rest); !r.ok && r.used == 1 && r.packets == []
  {
    FailsAfter(InLength(first, []), [], rest[0], rest[1..]);
    assert [] + [rest[0]] + rest[1..] == rest;
  }

  lemma FeedNoFrameLength(bs: seq<byte>)
    requires |bs| > 1 && StartsPacket(bs[0]) && !ScanFrame(bs).Whole?
    ensures var r := Feed(InLength(bs[0], []), bs[1..]);
      && r.packets == []
      && (ScanFrame(bs).Partial? ==> r.ok)
      && (ScanFrame(bs).Malformed? ==> !r.ok && r.used == ScanFrame(bs).at)
  {
    hide StepByte;
    var first, rest := bs[0], bs[1..];
    var k := LeadingContinuations(rest);
    if TypeOf(first) == PingResp {
      FeedBadPing(first, rest);
    } else if k >= 3 {
      FeedLongLength(first, rest);
    } else if |rest| == k {
      FeedContinuations(first, [], rest);
    } else {
      hide Feed;
      FieldWellFormed(bs);
      assert bs[1..k + 2] == rest[..k + 1];
      FeedLengthThenNoBody(first, rest[..k + 1], rest[k + 1..]);
      assert rest == rest[..k + 1] + rest[k + 1..];
    }
  }

  /** The beginning of a stream that holds no frame: nothing is reported, and only a malformed byte fails. */
  lemma FeedNoFrame(bs: seq<byte>)
    requires !ScanFrame(bs).Whole?
    ensures Feed(FRESH, bs).packets == []
    ensures ScanFrame(bs).Partial? ==> Feed(FRESH, bs).ok
    ensures ScanFrame(bs).Malformed? ==> !Feed(FRESH, bs).ok && Feed(FRESH, bs).used == ScanFrame(bs).at + 1
  {
    if bs != [] {
      FeedFirst(bs[0]);
      assert bs == [bs[0]] + bs[1..];
      if !StartsPacket(bs[0]) {
        FailsAfter(FRESH, [], bs[0], bs[1..]);
      } else if |bs| > 1 {
        FeedAppend(FRESH, [bs[0]], bs[1..]);
        FeedNoFrameLength(bs);
      }
    }
  }

  // ---------------------------------------------------------------- refinement

  /**
    The decoder refines the parser: for every byte stream, a fresh decoder reports exactly the
    packets of the parsed frames, and it fails exactly when the parser finds a malformed byte,
    having used everything up to and including that byte. Its state afterwards is that of a fresh
    decoder fed only the bytes left over; with nothing left over it is fresh.
   */
  lemma {:induction false} DecoderRefinesParser(bs: seq<byte>)
    ensures var p, r := Parse(bs), Feed(FRESH, bs);
      && r.packets == Reports(p.frames)
      && r.ok == p.error.None?
      && r.used == (if p.error.Some? then p.error.value + 1 else |bs|)
      && r.state == Feed(FRESH, p.rest).state
    decreases |bs|
  {
    if ScanFrame(bs).Whole? {
      var f := ScanFrame(bs).frame;
      WholeIsPrefix(bs);
      ScanDecodable(bs);
      FeedFrame(f);
      var tail := bs[|f.Wire()|..];
      assert bs == f.Wire() + tail;
      FeedAppend(FRESH, f.Wire(), tail);
      DecoderRefinesParser(tail);
    } else {
      FeedNoFrame(bs);
    }
  }

  /**
    Byte conservation: the bytes of a stream are the wire bytes of the frames found, in order,
    followed by the rest, which holds no frame. Every frame is one the standard allows.
   */
  lemma {:induction false} ParseConserves(bs: seq<byte>)
    ensures bs == Wires(Parse(bs).frames) + Parse(bs).rest
    ensures forall f | f in Parse(bs).frames :: Decodable(f)
    ensures !ScanFrame(Parse(bs).rest).Whole?
    ensures Parse(bs).error.Some? <==> ScanFrame(Parse(bs).rest).Malformed?
    decreases |bs|
  {
    if ScanFrame(bs).Whole? {
      var f := ScanFrame(bs).frame;
      WholeIsPrefix(bs);
      ScanDecodable(bs);
      ParseConserves(bs[|f.Wire()|..]);
    }
  }

  /**
    Framing: the wire bytes of any list of decodable frames, cut into any non-empty chunks,
    are reported as exactly those packets in order and leave the decoder fresh.
   */
  lemma {:induction false} FramesDecode(frames: seq<Frame>)
    requires forall f | f in frames :: Decodable(f)
    ensures Feed(FRESH, Wires(frames)) == Feeding(FRESH, true, |Wires(frames)|, Reports(frames))
  {
    if frames != [] {
      var f := frames[0];
      assert f in frames;
      FeedFrame(f);
      FeedAppend(FRESH, f.Wire(), Wires(frames[1..]));
      FramesDecode(frames[1..]);
    }
  }

  lemma ChunkedFramesDecode(frames: seq<Frame>, chunks: seq<seq<byte>>)
    requires forall f | f in frames :: Decodable(f)
    requires forall c | c in chunks :: c != []
    requires Concat(chunks) == Wires(frames)
    ensures ReceiveAll(FRESH, chunks) == Feeding(FRESH, true, |Wires(frames)|, Reports(frames))
  {
    ChunkingIndependent(FRESH, chunks);
    FramesDecode(frames);
  }
}
