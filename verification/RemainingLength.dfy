/**
  The Remaining Length field of the fixed header (section 2.2.3 of MQTT 3.1.1): its
  value, the encoder's loop and what that loop is for.
 */
module RemainingLength {
  import opened Basics

  /** Largest Remaining Length four bytes can express, plus one. */
  const LENGTH_LIMIT: nat := 0x1000_0000

  /** Largest Remaining Length three bytes can express. */
  const MAX_DECODABLE: nat := 2097151

  /** Seven bits a byte, least significant group first. */
  function Value(bs: seq<byte>): nat {
    if bs == [] then 0 else bs[0] % 128 + 128 * Value(bs[1..])
  }

  /** A complete field: the continuation bit is set on every byte but the last. */
  predicate WellFormed(bs: seq<byte>) {
    && bs != []
    && bs[|bs| - 1] < 128
    && forall i | 0 <= i < |bs| - 1 :: bs[i] >= 128
  }

  function Encode(n: nat): (r: seq<byte>)
    ensures r != []
  {
    if n < 128 then [n] else [n % 128 + 128] + Encode(n / 128)
  }

  function Pow128(k: nat): (p: nat)
    ensures p > 0
  {
    if k == 0 then 1 else 128 * Pow128(k - 1)
  }

  /** The least significant group comes first. */
  lemma ValueOfThree(a: byte, b: byte, c: byte)
    ensures Value([a, b, c]) == a % 128 + 128 * (b % 128) + 16384 * (c % 128)
  {
    assert [a, b, c][1..] == [b, c] && [b, c][1..] == [c] && [c][1..] == [];
    assert Value([c]) == c % 128;
  }

  /** A continuation byte in front of a field. */
  lemma PrependGroup(b: byte, rest: seq<byte>)
    requires b >= 128 && WellFormed(rest)
    ensures WellFormed([b] + rest)
    ensures Value([b] + rest) == b - 128 + 128 * Value(rest)
  {
    var bs := [b] + rest;
    assert bs[1..] == rest;
    assert bs[|bs| - 1] == rest[|rest| - 1];
    forall i | 0 <= i < |bs| - 1
      ensures bs[i] >= 128
    {
      assert i > 0 ==> bs[i] == rest[i - 1];
    }
  }

  /** The field is well formed and its value is the number encoded. */
  lemma {:induction false} EncodeCorrect(n: nat)
    ensures WellFormed(Encode(n))
    ensures Value(Encode(n)) == n
  {
    if n < 128 {
      assert Value(Encode(n)[1..]) == 0;
    } else {
      EncodeCorrect(n / 128);
      PrependGroup(n % 128 + 128, Encode(n / 128));
    }
  }

  lemma Pow128Grows(k: nat)
    requires k >= 1
    ensures Pow128(k) >= 128
  {
    if k > 1 {
      Pow128Grows(k - 1);
    }
  }

  /** k bytes suffice exactly for the numbers below 128^k. */
  lemma {:induction false} EncodeSize(n: nat, k: nat)
    requires k >= 1
    ensures |Encode(n)| <= k <==> n < Pow128(k)
  {
    if k == 1 {
      assert Pow128(1) == 128 * Pow128(0);
    } else if n < 128 {
      Pow128Grows(k);
    } else {
      EncodeSize(n / 128, k - 1);
    }
  }

  lemma {:induction false} ValueBound(bs: seq<byte>)
    ensures Value(bs) < Pow128(|bs|)
  {
    if bs != [] {
      ValueBound(bs[1..]);
    }
  }

  lemma ValueOfNothing(bs: seq<byte>)
    ensures bs == [] ==> Value(bs) == 0
  {
  }

  lemma ValueOfZero()
    ensures Value([0]) == 0
  {
  }

  lemma Distribute(weight: nat, digit: nat, rest: nat)
    requires digit < 128
    ensures weight * (digit + 128 * rest) == digit * weight + (weight * 128) * rest
    ensures digit * weight <= 127 * weight
  {
    assert weight * (digit + 128 * rest) == weight * digit + weight * (128 * rest);
    assert weight * (128 * rest) == (weight * 128) * rest;
  }

  /** One turn of a loop that sums groups from the least significant one. */
  lemma AccumulateGroup(total: nat, weight: nat, bs: seq<byte>)
    requires bs != [] && total < weight
    ensures total + weight * Value(bs) == (total + bs[0] % 128 * weight) + (weight * 128) * Value(bs[1..])
    ensures total + bs[0] % 128 * weight < weight * 128
  {
    Distribute(weight, bs[0] % 128, Value(bs[1..]));
  }

  /** A field without its first byte. */
  lemma DropGroup(bs: seq<byte>)
    requires WellFormed(bs) && |bs| > 1
    ensures WellFormed(bs[1..]) && bs[1..][|bs| - 2] == bs[|bs| - 1]
    ensures Value(bs) / 128 == Value(bs[1..]) && Value(bs) % 128 + 128 == bs[0]
  {
    var rest := bs[1..];
    forall i | 0 <= i < |rest| - 1 ensures rest[i] >= 128 {
      assert rest[i] == bs[i + 1];
    }
  }

  /**
    Encode is the shortest field: any well-formed field of the same value is at least as
    long, and the fields that re-encode to themselves are exactly those without a
    superfluous zero group at the end.
   */
  lemma {:induction false} EncodeShortest(bs: seq<byte>)
    requires WellFormed(bs)
    ensures |Encode(Value(bs))| <= |bs|
    ensures Encode(Value(bs)) == bs <==> |bs| == 1 || bs[|bs| - 1] != 0
    ensures |bs| > 1 && bs[|bs| - 1] == 0 ==> |Encode(Value(bs))| < |bs|
  {
    if |bs| == 1 {
      assert Value(bs[1..]) == 0;
    } else {
      hide WellFormed;
      var rest, n := bs[1..], Value(bs);
      DropGroup(bs);
      EncodeShortest(rest);
      if Value(rest) == 0 {
        assert Encode(0) == [0] && |Encode(n)| == 1;
      } else {
        assert Encode(n) == [bs[0]] + Encode(Value(rest));
        assert bs == [bs[0]] + rest;
      }
    }
  }

  /** The sizes that section 2.2.3 tabulates. */
  lemma EncodeSizes(n: nat)
    ensures |Encode(n)| <= 3 <==> n <= MAX_DECODABLE
    ensures |Encode(n)| <= 4 <==> n < LENGTH_LIMIT
  {
    assert Pow128(3) == 128 * 128 * 128 && Pow128(4) == 128 * Pow128(3);
    EncodeSize(n, 3);
    EncodeSize(n, 4);
  }

  /** The byte one turn of the encoder's loop produces. */
  function Group(n: nat): (b: byte)
    ensures Encode(n) == [b] + if n / 128 > 0 then Encode(n / 128) else []
  {
    if n / 128 > 0 then n % 128 + 128 else n
  }

  /** `encode |= NEXT_128_CHUNK` */
  function SetContinuation(encode: byte): (r: byte)
    requires encode < 128
    ensures r == encode + 128
  {
    assert Pow2(7) == 128;
    BitOrDisjoint(1, 7, encode);
    BitOr(encode, 0x80)
  }

  /**
    The length loop of constructFixedHeader, writing into its four-byte array. The array
    bound is what limits callers to bodies below 2^28.
   */
  method EncodeLoop(bodyLength: nat) returns (remainSize: array<byte>, index: nat)
    requires bodyLength < LENGTH_LIMIT
    ensures fresh(remainSize) && remainSize.Length == 4
    ensures index <= 4 && remainSize[..index] == Encode(bodyLength)
  {
    hide Encode, Value;
    remainSize := new byte[4](_ => 0);
    index := 0;
    var packetLen := bodyLength;
    EncodeSizes(bodyLength);
    ghost var pending := Encode(bodyLength);
    while true
      invariant index + |pending| <= 4
      invariant pending == Encode(packetLen)
      invariant remainSize[..index] + pending == Encode(bodyLength)
      decreases packetLen
    {
      var encode := packetLen % 128;
      ghost var before := remainSize[..index];
      ghost var group := Group(packetLen);
      packetLen := packetLen / 128;
      if packetLen > 0 {
        encode := SetContinuation(encode);
      }
      assert encode == group;
      remainSize[index] := encode;
      assert remainSize[..index] == before;
      index := index + 1;
      assert remainSize[..index] == before + [group];
      if packetLen == 0 {
        break;
      }
      assert pending == [group] + Encode(packetLen);
      assert before + pending == before + [group] + Encode(packetLen);
      pending := Encode(packetLen);
    }
  }
}
