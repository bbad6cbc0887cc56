/**
  The growing buffer the encoders write into. Enlarging keeps what is there and adds bytes
  with unspecified contents; writing happens at a position inside the buffer only.
 */
module Buffers {
  import opened Basics

  class Buffer {
    var bytes: seq<byte>

    constructor ()
      ensures bytes == []
    {
      bytes := [];
    }

    /** BUFFER_enlarge */
    method Enlarge(size: nat)
      modifies this
      ensures |bytes| == old(|bytes|) + size && bytes[..old(|bytes|)] == old(bytes)
    {
      var room := new byte[size];
      bytes := bytes + room[..];
    }

    /** BUFFER_prepend */
    method Prepend(header: seq<byte>)
      modifies this
      ensures bytes == header + old(bytes)
    {
      bytes := header + bytes;
    }

    /** memcpy to `position`; the filled prefix grows by the data and nothing else moves. */
    method Write(position: nat, data: seq<byte>) returns (next: nat)
      requires position + |data| <= |bytes|
      modifies this
      ensures next == position + |data| <= |bytes| == old(|bytes|)
      ensures bytes[..next] == old(bytes[..position]) + data
      ensures bytes[next..] == old(bytes[next..])
    {
      next := position + |data|;
      bytes := bytes[..position] + data + bytes[next..];
    }

    /** byteutil_writeByte */
    method WriteByte(position: nat, value: byte) returns (next: nat)
      requires position < |bytes|
      modifies this
      ensures next == position + 1 <= |bytes| == old(|bytes|)
      ensures bytes[..next] == old(bytes[..position]) + [value]
    {
      next := Write(position, [value]);
    }

    /** byteutil_writeInt */
    method WriteInt(position: nat, value: uint16) returns (next: nat)
      requires position + 2 <= |bytes|
      modifies this
      ensures next == position + 2 <= |bytes| == old(|bytes|)
      ensures bytes[..next] == old(bytes[..position]) + U16(value)
    {
      next := WriteByte(position, value / 256);
      next := WriteByte(next, value % 256);
    }

    /** byteutil_writeUTF */
    method WriteUtf(position: nat, s: seq<byte>) returns (next: nat)
      requires |s| <= USHRT_MAX && position + 2 + |s| <= |bytes|
      modifies this
      ensures next == position + 2 + |s| <= |bytes| == old(|bytes|)
      ensures bytes[..next] == old(bytes[..position]) + Utf(s)
    {
      next := WriteInt(position, |s|);
      next := Write(next, s);
    }

    /** `packet[position] |= mask` */
    method Or(position: nat, mask: byte)
      requires position < |bytes|
      modifies this
      ensures bytes == old(bytes)[position := OrBytes(old(bytes)[position], mask)]
    {
      bytes := bytes[position := OrBytes(bytes[position], mask)];
    }
  }
}
