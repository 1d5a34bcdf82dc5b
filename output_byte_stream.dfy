/**
 * `OutputByteStream`: an append-only byte buffer. Integers go out in network
 * byte order; a byte span or byte string goes out as a 4-byte big-endian
 * length followed by its bytes.
 */
module OutputByteStreams {
  import opened Wrappers
  import opened ByteOrder
  import opened ByteSpans

  /** The chunks one after the other. */
  function Concat(chunks: seq<seq<byte>>): seq<byte> {
    if chunks == [] then [] else Concat(chunks[..|chunks| - 1]) + chunks[|chunks| - 1]
  }

  /** Appending a chunk appends its bytes and leaves the earlier ones in place. */
  lemma ConcatAppend(chunks: seq<seq<byte>>, chunk: seq<byte>)
    ensures Concat(chunks + [chunk]) == Concat(chunks) + chunk
  {
    assert (chunks + [chunk])[..|chunks|] == chunks;
  }

  /** Concatenation distributes over splitting the list of chunks. */
  lemma {:induction false} ConcatSplit(a: seq<seq<byte>>, b: seq<seq<byte>>)
    ensures Concat(a + b) == Concat(a) + Concat(b)
  {
    if b != [] {
      var b' := b[..|b| - 1];
      assert a + b == (a + b') + [b[|b| - 1]];
      ConcatAppend(a + b', b[|b| - 1]);
      ConcatSplit(a, b');
      ConcatAppend(b', b[|b| - 1]);
      assert b == b' + [b[|b| - 1]];
    } else {
      assert a + b == a;
    }
  }

  /** `static_cast<std::uint32_t>(size)`: the size modulo 2^32. */
  function ToUInt32(n: nat): (r: uint32)
    ensures n < 0x1_0000_0000 ==> r as int == n
  {
    (n % 0x1_0000_0000) as uint32
  }

  /** What `operator<<(ByteSpan)` appends for a span whose bytes are `b`. */
  function LengthPrefixed(b: seq<byte>): (s: seq<byte>)
    ensures |s| == 4 + |b| && s[4..] == b
  {
    NetworkOrder(ToUInt32(|b|) as int, UInt32) + b
  }

  /**
   * A reference reader for length-prefixed fields, used only to state what the
   * writer guarantees: a 4-byte length, then that many bytes, or failure when
   * fewer bytes remain.
   */
  ghost function ReadLengthPrefixed(s: seq<byte>): Option<(seq<byte>, seq<byte>)> {
    if |s| < 4 then None
    else
      var n := FromBigEndian(s[..4]);
      if |s| - 4 < n then None else Some((s[4..4 + n], s[4 + n..]))
  }

  /** A written field is self-delimiting: reading it back yields its bytes and stops there. */
  lemma LengthPrefixedRoundTrip(b: seq<byte>, rest: seq<byte>)
    requires |b| < 0x1_0000_0000
    ensures ReadLengthPrefixed(LengthPrefixed(b) + rest) == Some((b, rest))
  {
    var s := LengthPrefixed(b) + rest;
    assert s[..4] == NetworkOrder(|b|, UInt32);
    NetworkOrderRoundTrip(|b|, UInt32);
    assert s[4..4 + |b|] == b;
    assert s[4 + |b|..] == rest;
  }

  /** For 2^32 bytes or more the `uint32_t` cast truncates the length, and the field no longer reads back. */
  lemma LengthPrefixTruncates(b: seq<byte>, rest: seq<byte>)
    requires |b| >= 0x1_0000_0000
    ensures ReadLengthPrefixed(LengthPrefixed(b) + rest) != Some((b, rest))
  {
    var s := LengthPrefixed(b) + rest;
    assert s[..4] == NetworkOrder(ToUInt32(|b|) as int, UInt32);
    NetworkOrderRoundTrip(ToUInt32(|b|) as int, UInt32);
    assert FromBigEndian(s[..4]) < |b|;
  }

  class OutputByteStream {
    /** `m_buffer`. */
    var buffer: seq<byte>
    /** The bytes of every `write` call so far, oldest first. */
    ghost var written: seq<seq<byte>>

    ghost predicate Valid()
      reads this
    {
      buffer == Concat(written)
    }

    constructor ()
      ensures Valid() && buffer == [] && written == []
    {
      buffer := [];
      written := [];
    }

    /** `write(buffer, size)`: appends the `size` bytes at `data`, one at a time. */
    method Write(memory: seq<byte>, data: Pointer, size: nat)
      requires Valid() && Readable(memory, data, size)
      modifies this
      ensures Valid()
      ensures buffer == old(buffer) + Referenced(memory, data, size)
      ensures written == old(written) + [Referenced(memory, data, size)]
    {
      ghost var chunk := Referenced(memory, data, size);
      for i := 0 to size
        invariant buffer == old(buffer) + chunk[..i]
        invariant written == old(written)
      {
        buffer := buffer + [memory[data.index + i]];
      }
      written := written + [chunk];
      ConcatAppend(old(written), chunk);
    }

    /** `getData()`: everything written so far, in order. */
    function GetData(): (data: seq<byte>)
      reads this
      requires Valid()
      ensures data == Concat(written)
    {
      buffer
    }

    /** `writeIntegral`: one `write` of the value's network-order bytes. */
    method WriteIntegral(value: int, kind: IntKind)
      requires Valid() && kind.InRange(value)
      modifies this
      ensures Valid()
      ensures buffer == old(buffer) + NetworkOrder(value, kind)
      ensures written == old(written) + [NetworkOrder(value, kind)]
    {
      var bytes := NetworkOrder(value, kind);
      assert Referenced(bytes, Address(0), |bytes|) == bytes;
      Write(bytes, Address(0), |bytes|);
    }

    method WriteInt8(value: int8)
      requires Valid()
      modifies this
      ensures Valid() && buffer == old(buffer) + NetworkOrder(value as int, Int8)
      ensures written == old(written) + [NetworkOrder(value as int, Int8)]
    {
      WriteIntegral(value as int, Int8);
    }

    method WriteUInt8(value: uint8)
      requires Valid()
      modifies this
      ensures Valid() && buffer == old(buffer) + NetworkOrder(value as int, UInt8)
      ensures written == old(written) + [NetworkOrder(value as int, UInt8)]
    {
      WriteIntegral(value as int, UInt8);
    }

    method WriteInt16(value: int16)
      requires Valid()
      modifies this
      ensures Valid() && buffer == old(buffer) + NetworkOrder(value as int, Int16)
      ensures written == old(written) + [NetworkOrder(value as int, Int16)]
    {
      WriteIntegral(value as int, Int16);
    }

    method WriteUInt16(value: uint16)
      requires Valid()
      modifies this
      ensures Valid() && buffer == old(buffer) + NetworkOrder(value as int, UInt16)
      ensures written == old(written) + [NetworkOrder(value as int, UInt16)]
    {
      WriteIntegral(value as int, UInt16);
    }

    method WriteInt32(value: int32)
      requires Valid()
      modifies this
      ensures Valid() && buffer == old(buffer) + NetworkOrder(value as int, Int32)
      ensures written == old(written) + [NetworkOrder(value as int, Int32)]
    {
      WriteIntegral(value as int, Int32);
    }

    method WriteUInt32(value: uint32)
      requires Valid()
      modifies this
      ensures Valid() && buffer == old(buffer) + NetworkOrder(value as int, UInt32)
      ensures written == old(written) + [NetworkOrder(value as int, UInt32)]
    {
      WriteIntegral(value as int, UInt32);
    }

    method WriteInt64(value: int64)
      requires Valid()
      modifies this
      ensures Valid() && buffer == old(buffer) + NetworkOrder(value as int, Int64)
      ensures written == old(written) + [NetworkOrder(value as int, Int64)]
    {
      WriteIntegral(value as int, Int64);
    }

    method WriteUInt64(value: uint64)
      requires Valid()
      modifies this
      ensures Valid() && buffer == old(buffer) + NetworkOrder(value as int, UInt64)
      ensures written == old(written) + [NetworkOrder(value as int, UInt64)]
    {
      WriteIntegral(value as int, UInt64);
    }

    /** `operator<<(ByteSpan)`: the size as a `uint32_t`, then the bytes. */
    method WriteSpan(memory: seq<byte>, span: ByteSpan)
      requires Valid() && RefersInto(memory, span)
      modifies this
      ensures Valid()
      ensures buffer == old(buffer) + LengthPrefixed(Contents(memory, span))
      ensures written == old(written) + [NetworkOrder(ToUInt32(GetSize(span)) as int, UInt32), Contents(memory, span)]
    {
      WriteUInt32(ToUInt32(GetSize(span)));
      Write(memory, ByteSpans.GetData(span), GetSize(span));
    }

    /** `operator<<(ByteString)`: the same as writing a span over the string's own bytes. */
    method WriteByteString(bytes: seq<byte>)
      requires Valid()
      modifies this
      ensures Valid()
      ensures buffer == old(buffer) + LengthPrefixed(bytes)
      ensures written == old(written) + [NetworkOrder(ToUInt32(|bytes|) as int, UInt32), bytes]
    {
      MakeSpanContents(bytes, 0, |bytes|);
      assert bytes[0..|bytes|] == bytes;
      WriteSpan(bytes, MakeSpan(Address(0), |bytes|));
    }
  }
}
