/**
  Vocabulary shared by the codec and the client: bytes and the bit operations the
  source applies to them, big-endian 16-bit integers, length-prefixed strings, packet
  types and quality-of-service values.
 */
module Basics {

  datatype Option<+T> = None | Some(value: T)

  type byte = x: nat | x < 256

  type uint16 = x: nat | x < 0x1_0000

  /** The bytes of a C string, as `strlen` delimits them. */
  type CString = s: seq<byte> | 0 !in s

  const USHRT_MAX: nat := 0xFFFF

  /** The codec's limit on a payload; its 32 bits are far above what four length bytes can express. */
  const MAX_SEND_SIZE: nat := 0xFFFF_FF7F

  // ---------------------------------------------------------------- bits

  /** `a | b` on unsigned integers, bit by bit. */
  function BitOr(a: nat, b: nat): nat
    decreases a + b
  {
    if a == 0 && b == 0 then 0
    else (if a % 2 == 1 || b % 2 == 1 then 1 else 0) + 2 * BitOr(a / 2, b / 2)
  }

  lemma BitOrZero(a: nat)
    ensures BitOr(a, 0) == a && BitOr(0, a) == a
  {
    if a > 0 {
      BitOrZero(a / 2);
    }
  }

  function Pow2(k: nat): (p: nat)
    ensures p > 0
  {
    if k == 0 then 1 else 2 * Pow2(k - 1)
  }

  lemma {:induction false} BitOrBound(a: nat, b: nat, k: nat)
    requires a < Pow2(k) && b < Pow2(k)
    ensures BitOr(a, b) < Pow2(k)
  {
    if k > 0 {
      BitOrBound(a / 2, b / 2, k - 1);
    }
  }

  /** `a | b` on bytes */
  function OrBytes(a: byte, b: byte): (r: byte)
    ensures r == BitOr(a, b)
  {
    assert Pow2(8) == 256;
    BitOrBound(a, b, 8);
    BitOr(a, b)
  }

  /** Or-ing a value below 2^k into a multiple of 2^k is addition. */
  lemma {:induction false} BitOrDisjoint(q: nat, k: nat, b: nat)
    requires b < Pow2(k)
    ensures BitOr(q * Pow2(k), b) == q * Pow2(k) + b
    ensures BitOr(b, q * Pow2(k)) == q * Pow2(k) + b
  {
    if k == 0 {
      BitOrZero(q);
    } else {
      var h := Pow2(k - 1);
      assert q * Pow2(k) == 2 * (q * h);
      BitOrDisjoint(q, k - 1, b / 2);
    }
  }

  /** `a & (1 << k) != 0` */
  predicate Bit(a: nat, k: nat) {
    if k == 0 then a % 2 == 1 else Bit(a / 2, k - 1)
  }

  lemma {:induction false} BitClearAbove(a: nat, k: nat)
    requires a < Pow2(k)
    ensures !Bit(a, k)
  {
    if k > 0 {
      BitClearAbove(a / 2, k - 1);
    }
  }

  lemma {:induction false} BitBelow(a: nat, k: nat)
    ensures Bit(a + Pow2(k + 1), k) == Bit(a, k)
  {
    if k > 0 {
      assert (a + Pow2(k + 1)) / 2 == a / 2 + Pow2(k);
      BitBelow(a / 2, k - 1);
    }
  }

  /** A bit of `a | b` is set if and only if it is set in one of them. */
  lemma {:induction false} BitOrBits(a: nat, b: nat, k: nat)
    ensures Bit(BitOr(a, b), k) <==> Bit(a, k) || Bit(b, k)
  {
    assert BitOr(a, b) / 2 == BitOr(a / 2, b / 2);
    if k > 0 {
      BitOrBits(a / 2, b / 2, k - 1);
    }
  }

  /** Setting a bit that is clear is addition. */
  lemma {:induction false} BitOrSetsBit(a: nat, k: nat)
    requires !Bit(a, k)
    ensures BitOr(a, Pow2(k)) == a + Pow2(k)
  {
    if k == 0 {
      BitOrZero(a / 2);
    } else {
      BitOrSetsBit(a / 2, k - 1);
    }
  }

  /** `a |= mask` for the mask of a bit that is still clear. */
  function OrFlag(a: byte, mask: byte, k: nat): (r: byte)
    requires mask == Pow2(k) && !Bit(a, k)
    ensures r == BitOr(a, mask) == a + mask
  {
    BitOrSetsBit(a, k);
    OrBytes(a, mask)
  }

  // ---------------------------------------------------------------- integers and strings on the wire

  /** byteutil_writeInt: most significant byte first. */
  function U16(n: uint16): (r: seq<byte>)
    ensures |r| == 2
  {
    [n / 256, n % 256]
  }

  /** The value of two bytes, most significant first. */
  function FromU16(hi: byte, lo: byte): (r: uint16)
    ensures U16(r) == [hi, lo]
  {
    256 * hi + lo
  }

  lemma U16RoundTrip(n: uint16)
    ensures FromU16(U16(n)[0], U16(n)[1]) == n
  {
  }

  /** byteutil_writeUTF: a two-byte length, then the bytes. */
  function Utf(s: seq<byte>): (r: seq<byte>)
    requires |s| <= USHRT_MAX
    ensures |r| == 2 + |s|
  {
    U16(|s|) + s
  }

  // ---------------------------------------------------------------- protocol enumerations

  /** CONTROL_PACKET_TYPE, with the three values that only the decoder uses. */
  datatype PacketType =
    | Connect | ConnAck | Publish | PubAck | PubRec | PubRel | PubComp
    | Subscribe | SubAck | Unsubscribe | UnsubAck | PingReq | PingResp | Disconnect
    | Reserved0 | Reserved15
    | TypeError | Unknown

  /** The packet type in the high nibble of the first byte. */
  function TypeOf(b: byte): PacketType {
    var nibble := b / 16;
    if nibble == 0 then Reserved0
    else if nibble == 1 then Connect
    else if nibble == 2 then ConnAck
    else if nibble == 3 then Publish
    else if nibble == 4 then PubAck
    else if nibble == 5 then PubRec
    else if nibble == 6 then PubRel
    else if nibble == 7 then PubComp
    else if nibble == 8 then Subscribe
    else if nibble == 9 then SubAck
    else if nibble == 10 then Unsubscribe
    else if nibble == 11 then UnsubAck
    else if nibble == 12 then PingReq
    else if nibble == 13 then PingResp
    else if nibble == 14 then Disconnect
    else Reserved15
  }

  /** The code points of section 2.2.1 of MQTT 3.1.1. */
  lemma TypeNumbers(b: byte)
    ensures TypeOf(b) == [Reserved0, Connect, ConnAck, Publish, PubAck, PubRec, PubRel, PubComp, Subscribe, SubAck,
                          Unsubscribe, UnsubAck, PingReq, PingResp, Disconnect, Reserved15][b / 16]
  {
  }

  /** The enumeration's numeric value for the fourteen types a packet can carry. */
  function TypeByte(t: PacketType): (b: byte)
    requires !t.TypeError? && !t.Unknown?
    ensures b % 16 == 0 && TypeOf(b) == t
  {
    match t
    case Reserved0 => 0x00
    case Connect => 0x10
    case ConnAck => 0x20
    case Publish => 0x30
    case PubAck => 0x40
    case PubRec => 0x50
    case PubRel => 0x60
    case PubComp => 0x70
    case Subscribe => 0x80
    case SubAck => 0x90
    case Unsubscribe => 0xA0
    case UnsubAck => 0xB0
    case PingReq => 0xC0
    case PingResp => 0xD0
    case Disconnect => 0xE0
    case Reserved15 => 0xF0
  }

  /** `type | flags`, and how the decoder takes it apart again. */
  lemma FirstByteParts(t: PacketType, flags: nat)
    requires !t.TypeError? && !t.Unknown? && flags < 16
    ensures BitOr(TypeByte(t), flags) == TypeByte(t) + flags < 256
    ensures TypeOf(TypeByte(t) + flags) == t
    ensures (TypeByte(t) + flags) % 16 == flags
  {
    var b := TypeByte(t);
    assert Pow2(4) == 16;
    assert b == (b / 16) * 16;
    BitOrDisjoint(b / 16, 4, flags);
    assert (b + flags) / 16 == b / 16;
  }

  datatype QosValue = AtMostOnce | AtLeastOnce | ExactlyOnce | DeliverFailure {
    function Code(): byte {
      match this
      case AtMostOnce => 0
      case AtLeastOnce => 1
      case ExactlyOnce => 2
      case DeliverFailure => 0x80
    }
  }

  /** An application message; `qos` is not DeliverFailure for messages that can be published. */
  datatype Message = Message(
    topic: seq<byte>,
    qos: QosValue,
    duplicate: bool,
    retain: bool,
    packetId: uint16,
    payload: seq<byte>)

  /** A completed packet as the codec reports it; the body is empty when the source passes a NULL buffer. */
  datatype Packet = Packet(kind: PacketType, flags: nat, body: seq<byte>)

  // ---------------------------------------------------------------- sequences

  function Concat<T>(parts: seq<seq<T>>): seq<T> {
    if parts == [] then [] else parts[0] + Concat(parts[1..])
  }
}
