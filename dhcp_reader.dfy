/** DhcpPacketReader.cs: a BinaryReader over a MemoryStream holding the datagram.

    The pure functions `ReadByteAt` ... `ReadStringAt` say what one read yields from a
    cursor position; the class `DhcpPacketReader` keeps the position in a field and each
    of its methods is proved to do what the matching function says. */
module DhcpReading {
  import opened Wrappers
  import opened Wire

  /** BinaryReader.ReadByte: the byte at the cursor; EndOfStream at the end. */
  function ReadByteAt(data: seq<byte>, pos: nat): (r: Result<Read<byte>>)
    requires pos <= |data|
    ensures r.Ok? <==> pos < |data|
    ensures r.Ok? ==> r.value.value == data[pos] && r.value.next == pos + 1
  {
    if pos < |data| then Ok(Read(data[pos], pos + 1)) else Throw(EndOfStream)
  }

  /** BinaryReader.ReadBytes: up to `count` bytes, fewer when the data ends first; it
      never throws. */
  function ReadBytesAt(data: seq<byte>, pos: nat, count: nat): (r: Read<seq<byte>>)
    requires pos <= |data|
    ensures r.next == pos + |r.value| <= |data|
    ensures |r.value| == count <==> pos + count <= |data|
    ensures r.value == data[pos..r.next]
  {
    var end := Min(pos + count, |data|);
    Read(data[pos..end], end)
  }

  /** ReadUInt16: BinaryReader reads a little-endian UInt16 and NetworkToHostOrder swaps
      it, so the two bytes are taken most significant first. */
  function ReadUInt16At(data: seq<byte>, pos: nat): (r: Result<Read<uint16>>)
    requires pos <= |data|
    ensures r.Ok? <==> pos + 2 <= |data|
    ensures r.Ok? ==> r.value.next == pos + 2
    ensures r.Ok? ==> UInt16Bytes(r.value.value) == data[pos..pos + 2]
  {
    if pos + 2 <= |data| then
      UInt16BytesOf(data[pos], data[pos + 1]);
      Ok(Read(UInt16Of(data[pos], data[pos + 1]), pos + 2))
    else Throw(EndOfStream)
  }

  /** ReadUInt32: four bytes, most significant first. */
  function ReadUInt32At(data: seq<byte>, pos: nat): (r: Result<Read<uint32>>)
    requires pos <= |data|
    ensures r.Ok? <==> pos + 4 <= |data|
    ensures r.Ok? ==> r.value.next == pos + 4
    ensures r.Ok? ==> UInt32Bytes(r.value.value) == data[pos..pos + 4]
  {
    if pos + 4 <= |data| then
      UInt32BytesOf(data[pos..pos + 4]);
      Ok(Read(UInt32Of(data[pos..pos + 4]), pos + 4))
    else Throw(EndOfStream)
  }

  /** ReadIpAddress: ReadBytes(4); fewer than four bytes make the IPAddress constructor
      throw. */
  function ReadIpAddressAt(data: seq<byte>, pos: nat): (r: Result<Read<Ipv4>>)
    requires pos <= |data|
    ensures r.Ok? <==> pos + 4 <= |data|
    ensures r.Ok? ==> r.value.value == data[pos..pos + 4] && r.value.next == pos + 4
  {
    var b := ReadBytesAt(data, pos, 4);
    if |b.value| == 4 then Ok(Read(b.value, b.next)) else Throw(Argument)
  }

  /** The text of a zero-padded field: the bytes before the first zero. */
  function FieldText(b: seq<byte>): string {
    AsciiString(b[..FirstZero(b)])
  }

  /** ReadString(fieldLength): ReadBytes(fieldLength), then count the bytes before the
      first zero; when the data ended early and held no zero, the count runs past the
      returned array and throws IndexOutOfRange. */
  function ReadStringAt(data: seq<byte>, pos: nat, fieldLength: nat): (r: Result<Read<string>>)
    requires pos <= |data|
    ensures r.Ok? ==> r.value.next == Min(pos + fieldLength, |data|)
  {
    var b := ReadBytesAt(data, pos, fieldLength);
    var length := FirstZero(b.value);
    if length == |b.value| && length < fieldLength then Throw(IndexOutOfRange)
    else Ok(Read(AsciiString(b.value[..length]), b.next))
  }

  /** A whole field consumes exactly `fieldLength` bytes and yields the text before the
      first zero, or all of it when there is no zero. */
  lemma ReadStringField(data: seq<byte>, pos: nat, fieldLength: nat)
    requires pos + fieldLength <= |data|
    ensures ReadStringAt(data, pos, fieldLength)
         == Ok(Read(FieldText(data[pos..pos + fieldLength]), pos + fieldLength))
    ensures fieldLength > 0 && data[pos] == 0 ==> ReadStringAt(data, pos, fieldLength).value.value == ""
  {
  }

  /** A string read fails only when the data ends inside the field with no zero in what
      is left. */
  lemma ReadStringFails(data: seq<byte>, pos: nat, fieldLength: nat)
    requires pos <= |data|
    ensures ReadStringAt(data, pos, fieldLength).Throw?
        <==> pos + fieldLength > |data| && forall i | pos <= i < |data| :: data[i] != 0
  {
    var b := ReadBytesAt(data, pos, fieldLength).value;
    if pos + fieldLength > |data| && forall i | pos <= i < |data| :: data[i] != 0 {
      assert b == data[pos..];
      assert forall i | 0 <= i < |b| :: b[i] == data[pos + i];
    }
    if ReadStringAt(data, pos, fieldLength).Throw? {
      forall i | pos <= i < |data| ensures data[i] != 0 {
        assert data[i] == b[i - pos];
      }
    }
  }

  class DhcpPacketReader {
    const data: seq<byte>
    var pos: nat

    ghost predicate Valid()
      reads this
    {
      pos <= |data|
    }

    constructor (data: seq<byte>)
      ensures Valid() && this.data == data && pos == 0
    {
      this.data := data;
      pos := 0;
    }

    method ReadByte() returns (r: Result<byte>)
      requires Valid()
      modifies this
      ensures Valid()
      ensures r == ValueOf(ReadByteAt(data, old(pos)))
      ensures r.Ok? ==> pos == ReadByteAt(data, old(pos)).value.next
    {
      if pos >= |data| {
        return Throw(EndOfStream);
      }
      r := Ok(data[pos]);
      pos := pos + 1;
    }

    method ReadUInt16() returns (r: Result<uint16>)
      requires Valid()
      modifies this
      ensures Valid()
      ensures r == ValueOf(ReadUInt16At(data, old(pos)))
      ensures r.Ok? ==> pos == ReadUInt16At(data, old(pos)).value.next
    {
      if pos + 2 > |data| {
        return Throw(EndOfStream);
      }
      r := Ok(UInt16Of(data[pos], data[pos + 1]));
      pos := pos + 2;
    }

    method ReadUInt32() returns (r: Result<uint32>)
      requires Valid()
      modifies this
      ensures Valid()
      ensures r == ValueOf(ReadUInt32At(data, old(pos)))
      ensures r.Ok? ==> pos == ReadUInt32At(data, old(pos)).value.next
    {
      if pos + 4 > |data| {
        return Throw(EndOfStream);
      }
      r := Ok(UInt32Of(data[pos..pos + 4]));
      pos := pos + 4;
    }

    method ReadBytes(count: nat) returns (b: seq<byte>)
      requires Valid()
      modifies this
      ensures Valid()
      ensures b == ReadBytesAt(data, old(pos), count).value
      ensures pos == ReadBytesAt(data, old(pos), count).next
    {
      var end := Min(pos + count, |data|);
      b := data[pos..end];
      pos := end;
    }

    method ReadString(fieldLength: nat) returns (r: Result<string>)
      requires Valid()
      modifies this
      ensures Valid()
      ensures r == ValueOf(ReadStringAt(data, old(pos), fieldLength))
      ensures r.Ok? ==> pos == ReadStringAt(data, old(pos), fieldLength).value.next
    {
      var bytes := ReadBytes(fieldLength);
      var length := 0;
      while length < fieldLength
        invariant 0 <= length <= |bytes| <= fieldLength
        invariant forall i | 0 <= i < length :: bytes[i] != 0
      {
        if length >= |bytes| {
          return Throw(IndexOutOfRange);
        }
        if bytes[length] == 0 {
          break;
        }
        length := length + 1;
      }
      assert length == FirstZero(bytes);
      r := Ok(AsciiString(bytes[..length]));
    }

    method ReadIpAddress() returns (r: Result<Ipv4>)
      requires Valid()
      modifies this
      ensures Valid()
      ensures r == ValueOf(ReadIpAddressAt(data, old(pos)))
      ensures r.Ok? ==> pos == ReadIpAddressAt(data, old(pos)).value.next
    {
      var number := ReadBytes(4);
      if |number| != 4 {
        return Throw(Argument);
      }
      r := Ok(number);
    }
  }
}
