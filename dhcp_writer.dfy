/** DhcpPacketWriter.cs: a BinaryWriter appending to a growable MemoryStream.

    `PaddedField` is what WriteString puts on the wire for a fixed-width text field; the
    class `DhcpPacketWriter` keeps the stream contents in `written`, and each Write method
    is proved to append exactly its bytes. */
module DhcpWriting {
  import opened Wrappers
  import opened Wire
  import opened DhcpReading

  /** WriteString(value, fieldLength): the ASCII bytes of `value`, cut to fieldLength - 1,
      then zeros up to fieldLength. */
  function PaddedField(value: string, fieldLength: nat): seq<byte>
    requires fieldLength >= 1
  {
    var bytes := AsciiBytes(value);
    var length := Min(|bytes|, fieldLength - 1);
    bytes[..length] + Zeros(fieldLength - length)
  }

  /** The text a reader gets back from a field written by WriteString. */
  function StoredField(value: string, fieldLength: nat): string
    requires fieldLength >= 1
  {
    FieldText(PaddedField(value, fieldLength))
  }

  /** A field is always `fieldLength` bytes ending in a zero: the first min(|value|,
      fieldLength - 1) bytes carry the text and the rest are zero. */
  lemma PaddedFieldShape(value: string, fieldLength: nat)
    requires fieldLength >= 1
    ensures var f := PaddedField(value, fieldLength);
      && |f| == fieldLength
      && f[fieldLength - 1] == 0
      && (forall i | 0 <= i < Min(|value|, fieldLength - 1) :: f[i] == AsciiBytes(value)[i])
      && (forall i | Min(|value|, fieldLength - 1) <= i < fieldLength :: f[i] == 0)
  {
  }

  /** An ASCII string without NUL comes back cut to fieldLength - 1 characters. */
  lemma StoredFieldTruncates(value: string, fieldLength: nat)
    requires fieldLength >= 1 && IsAscii(value) && NoNul(value)
    ensures StoredField(value, fieldLength) == value[..Min(|value|, fieldLength - 1)]
  {
    var f := PaddedField(value, fieldLength);
    var length := Min(|value|, fieldLength - 1);
    forall i | 0 <= i < length ensures f[i] != 0 {
      assert f[i] == AsciiBytes(value)[i] == value[i] as int;
    }
    assert f[length] == 0;
    assert FirstZero(f) == length;
    assert f[..length] == AsciiBytes(value[..length]);
    AsciiRoundTrip(value[..length]);
  }

  /** Round trip of one field: an ASCII string without NUL shorter than the field comes
      back unchanged. */
  lemma StoredFieldExact(value: string, fieldLength: nat)
    requires fieldLength >= 1 && IsAscii(value) && NoNul(value) && |value| < fieldLength
    ensures StoredField(value, fieldLength) == value
  {
    StoredFieldTruncates(value, fieldLength);
    assert value[..|value|] == value;
  }

  /** Whatever was written, what is read back is ASCII, has no NUL and fits the field, so
      writing it again stores the same text. */
  lemma StoredFieldStable(value: string, fieldLength: nat)
    requires fieldLength >= 1
    ensures var t := StoredField(value, fieldLength);
      IsAscii(t) && NoNul(t) && |t| < fieldLength && StoredField(t, fieldLength) == t
  {
    var f := PaddedField(value, fieldLength);
    var k := FirstZero(f);
    var t := AsciiString(f[..k]);
    AsciiStringIsAscii(f[..k]);
    assert k < fieldLength by {
      assert f[fieldLength - 1] == 0;
    }
    forall i | 0 <= i < |t| ensures t[i] != '\0' {
      assert f[i] != 0;
    }
    StoredFieldExact(t, fieldLength);
  }

  /** The reader's ReadString(n) returns what the writer's WriteString(s, n) wrote, for an
      ASCII s without NUL shorter than n, wherever the field sits in the data. */
  lemma WriteStringReadString(before: seq<byte>, value: string, fieldLength: nat, after: seq<byte>)
    requires fieldLength >= 1 && IsAscii(value) && NoNul(value) && |value| < fieldLength
    ensures var data := before + PaddedField(value, fieldLength) + after;
      ReadStringAt(data, |before|, fieldLength) == Ok(Read(value, |before| + fieldLength))
  {
    var data := before + PaddedField(value, fieldLength) + after;
    ReadStringField(data, |before|, fieldLength);
    assert data[|before|..|before| + fieldLength] == PaddedField(value, fieldLength);
    StoredFieldExact(value, fieldLength);
  }

  class DhcpPacketWriter {
    /** The contents of the underlying MemoryStream. */
    var written: seq<byte>

    constructor ()
      ensures written == []
    {
      written := [];
    }

    method ToArray() returns (r: seq<byte>)
      ensures r == written
    {
      r := written;
    }

    method WriteByte(value: byte)
      modifies this
      ensures written == old(written) + [value]
    {
      written := written + [value];
    }

    /** HostToNetworkOrder then a little-endian write: most significant byte first. */
    method WriteUInt16(value: uint16)
      modifies this
      ensures written == old(written) + UInt16Bytes(value)
    {
      written := written + [value / 0x100, value % 0x100];
    }

    method WriteUInt32(value: uint32)
      modifies this
      ensures written == old(written) + UInt32Bytes(value)
    {
      written := written + UInt32Bytes(value);
    }

    method WriteString(value: string, fieldLength: nat)
      requires fieldLength >= 1
      modifies this
      ensures written == old(written) + PaddedField(value, fieldLength)
    {
      var bytes := AsciiBytes(value);
      var length := Min(|bytes|, fieldLength - 1);
      written := written + bytes[..length];
      WriteBytes(Zeros(fieldLength - length));
    }

    method WriteIpAddress(value: Ipv4)
      modifies this
      ensures written == old(written) + value
    {
      WriteBytes(value);
    }

    method WriteBytes(value: seq<byte>)
      modifies this
      ensures written == old(written) + value
    {
      written := written + value;
    }
  }
}
