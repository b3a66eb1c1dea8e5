/** TftpPacketWriter.cs: a BinaryWriter over a MemoryStream that either grows (the
    capacity constructor) or is the caller's own array (the buffer constructor), which
    is then overwritten in place from index 0.

    `Terminated` is what WriteString puts on the wire; the class `TftpPacketWriter`
    keeps the stream contents in `written`, and each Write method is proved to append
    exactly its bytes and, over a caller's array, to change nothing past them. */
module TftpWriting {
  import opened Wrappers
  import opened Wire
  import opened TftpReading

  /** WriteString(value): the ASCII bytes of `value` and a zero byte. */
  function Terminated(value: string): (r: seq<byte>)
    ensures |r| == |value| + 1 && r[|value|] == 0
  {
    AsciiBytes(value) + [0]
  }

  /** `buffer` with `bytes` written over it from index `offset`. */
  function Overwrite(buffer: seq<byte>, offset: nat, bytes: seq<byte>): (r: seq<byte>)
    requires offset + |bytes| <= |buffer|
    ensures |r| == |buffer|
  {
    buffer[..offset] + bytes + buffer[offset + |bytes|..]
  }

  /** A string written with WriteString reads back with ReadString when it is ASCII and
      holds no NUL, whatever surrounds it. */
  lemma ReadTerminated(data: seq<byte>, pos: nat, value: string)
    requires IsAscii(value) && NoNul(value)
    requires pos + |value| + 1 <= |data| && data[pos..pos + |value| + 1] == Terminated(value)
    ensures ReadStringFrom(data, pos) == Ok(Read(value, pos + |value| + 1))
  {
    var bytes := AsciiBytes(value);
    var stop := pos + |value|;
    forall k | pos <= k < stop
      ensures data[k] == bytes[k - pos] != 0
    {
      assert data[k] == data[pos..stop + 1][k - pos];
      assert value[k - pos] != '\0';
    }
    assert data[stop] == data[pos..stop + 1][|value|] == 0;
    StringEndAt(data, pos, stop);
    assert data[pos..stop] == bytes;
    AsciiRoundTrip(value);
  }

  lemma ReadWrittenString(before: seq<byte>, value: string, after: seq<byte>)
    requires IsAscii(value) && NoNul(value)
    ensures ReadStringFrom(before + Terminated(value) + after, |before|)
         == Ok(Read(value, |before| + |value| + 1))
  {
    var data := before + Terminated(value) + after;
    assert data[|before|..|before| + |value| + 1] == Terminated(value);
    ReadTerminated(data, |before|, value);
  }

  /** A number written with WriteUInt16 reads back with ReadUInt16. */
  lemma ReadWrittenUInt16(before: seq<byte>, value: uint16, after: seq<byte>)
    ensures ReadUInt16From(before + UInt16Bytes(value) + after, |before|)
         == Ok(Read(value, |before| + 2))
  {
    var data := before + UInt16Bytes(value) + after;
    assert data[|before|] == UInt16Bytes(value)[0] && data[|before| + 1] == UInt16Bytes(value)[1];
    UInt16RoundTrip(value);
  }

  class TftpPacketWriter {
    /** The caller's array for a writer made over one; null for a growable stream. */
    const buffer: array?<byte>
    /** The stream contents written so far, from index 0. */
    var written: seq<byte>
    /** The caller's array as it was when the writer was made. */
    ghost const original: seq<byte>

    /** Over a caller's array, the written bytes sit at its start and the rest of the
        array is as the caller left it. */
    ghost predicate Valid()
      reads this, buffer
    {
      buffer != null ==> |written| <= buffer.Length == |original|
                         && buffer[..] == Overwrite(original, 0, written)
    }

    /** Room for `count` more bytes: a stream over a caller's array cannot grow. */
    predicate Room(count: nat)
      reads this
    {
      buffer == null || |written| + count <= buffer.Length
    }

    /** TftpPacketWriter(int capacity): the capacity is only the stream's first size. */
    constructor (capacity: nat)
      ensures Valid() && buffer == null && written == []
    {
      buffer := null;
      written := [];
      original := [];
    }

    /** TftpPacketWriter(Byte[] buffer): a writable stream over the caller's array. */
    constructor OnBuffer(buffer: array<byte>)
      ensures Valid() && this.buffer == buffer && written == [] && original == buffer[..]
    {
      this.buffer := buffer;
      written := [];
      original := buffer[..];
    }

    /** MemoryStream.ToArray: a stream over a caller's array starts out as long as the
        array, so its copy is the whole array. */
    method ToArray() returns (r: seq<byte>)
      requires Valid()
      ensures r == if buffer == null then written else Overwrite(original, 0, written)
    {
      if buffer == null {
        r := written;
      } else {
        r := buffer[..];
      }
    }

    method WriteByte(value: byte)
      requires Valid() && Room(1)
      modifies this, buffer
      ensures Valid() && written == old(written) + [value]
    {
      if buffer != null {
        buffer[|written|] := value;
      }
      written := written + [value];
    }

    /** The high byte, then the low byte. */
    method WriteUInt16(value: uint16)
      requires Valid() && Room(2)
      modifies this, buffer
      ensures Valid() && written == old(written) + UInt16Bytes(value)
    {
      WriteByte(value / 0x100 % 0x100);
      WriteByte(value % 0x100);
    }

    method WriteString(value: string)
      requires Valid() && Room(|value| + 1)
      modifies this, buffer
      ensures Valid() && written == old(written) + Terminated(value)
    {
      var bytes := AsciiBytes(value);
      WriteBytes(bytes);
      WriteByte(0);
    }

    /** WriteString(UInt32): the decimal text of the number, then a zero byte. */
    method WriteNumberString(value: uint32)
      requires Valid() && Room(|NatText(value)| + 1)
      modifies this, buffer
      ensures Valid() && written == old(written) + Terminated(NatText(value))
    {
      WriteString(NatText(value));
    }

    method WriteBytes(value: seq<byte>)
      requires Valid() && Room(|value|)
      modifies this, buffer
      ensures Valid() && written == old(written) + value
    {
      if buffer != null {
        var start := |written|;
        for i := 0 to |value|
          modifies buffer
          invariant buffer[..] == Overwrite(original, 0, written + value[..i])
        {
          buffer[start + i] := value[i];
          assert value[..i + 1] == value[..i] + [value[i]];
        }
        assert value[..|value|] == value;
      }
      written := written + value;
    }
  }
}
