/** TftpPacketReader.cs: a cursor over the received bytes.

    Unlike the DHCP reader, this cursor can come to rest one past the end of the data:
    ReadString always steps over a terminator, even when the data ended without one.
    `ReadUInt16From`, `ReadStringFrom` and `ReadToEndFrom` say what one read yields from a
    cursor position; the class `TftpPacketReader` keeps the position in a field and each
    method is proved to do what the matching function says. */
module TftpReading {
  import opened Wrappers
  import opened Wire

  /** EndOfStream: the cursor is at or past the end. */
  predicate AtEnd(data: seq<byte>, pos: nat) {
    pos >= |data|
  }

  /** ReadUInt16: the byte at the cursor shifted left by eight, or-ed with the next one;
      indexing past the end throws. */
  function ReadUInt16From(data: seq<byte>, pos: nat): (r: Result<Read<uint16>>)
    ensures r.Ok? <==> pos + 2 <= |data|
    ensures r.Ok? ==> r.value.next == pos + 2 && UInt16Bytes(r.value.value) == data[pos..pos + 2]
  {
    if pos + 2 <= |data| then
      UInt16BytesOf(data[pos], data[pos + 1]);
      Ok(Read(UInt16Of(data[pos], data[pos + 1]), pos + 2))
    else Throw(IndexOutOfRange)
  }

  /** The scan of ReadString: the index of the first zero byte from `i` on, or the end of
      the data when there is none. */
  function StringEnd(data: seq<byte>, i: nat): (j: nat)
    ensures i <= j && (i <= |data| ==> j <= |data|)
    decreases |data| - i
  {
    if i >= |data| || data[i] == 0 then i else StringEnd(data, i + 1)
  }

  /** ReadString: the text from the cursor up to the first zero byte, or up to the end of
      the data when there is none; the cursor moves one past that point. A cursor already
      past the end makes Encoding.GetString throw. */
  function ReadStringFrom(data: seq<byte>, pos: nat): (r: Result<Read<string>>)
    ensures r.Ok? <==> pos <= |data|
    ensures r.Ok? ==> pos < r.value.next <= |data| + 1
  {
    if pos > |data| then Throw(ArgumentOutOfRange)
    else
      var stop := StringEnd(data, pos);
      Ok(Read(AsciiString(data[pos..stop]), stop + 1))
  }

  /** The scan stops exactly at the first zero byte, or at the end. */
  lemma {:induction false} StringEndStops(data: seq<byte>, i: nat)
    requires i <= |data|
    ensures var j := StringEnd(data, i);
      && (forall k | i <= k < j :: data[k] != 0) && (j < |data| ==> data[j] == 0)
    decreases |data| - i
  {
    if i < |data| && data[i] != 0 {
      StringEndStops(data, i + 1);
    }
  }

  /** A scan from `i` that meets no zero byte before a zero byte at `j` stops at `j`. */
  lemma {:induction false} StringEndAt(data: seq<byte>, i: nat, j: nat)
    requires i <= j < |data| && data[j] == 0 && forall k | i <= k < j :: data[k] != 0
    ensures StringEnd(data, i) == j
    decreases j - i
  {
    if i < j {
      StringEndAt(data, i + 1, j);
    }
  }

  /** The string read runs up to the first zero byte or the end of the data. */
  lemma ReadStringStops(data: seq<byte>, pos: nat)
    requires pos <= |data|
    ensures var r := ReadStringFrom(data, pos).value; var stop := r.next - 1;
      && pos <= stop <= |data|
      && r.value == AsciiString(data[pos..stop])
      && (forall i | pos <= i < stop :: data[i] != 0)
      && (stop < |data| ==> data[stop] == 0)
  {
    StringEndStops(data, pos);
  }

  /** ReadToEnd: every byte from the cursor on; a cursor past the end asks for an array of
      negative length. */
  function ReadToEndFrom(data: seq<byte>, pos: nat): (r: Result<seq<byte>>)
    ensures r.Ok? <==> pos <= |data|
    ensures r.Ok? ==> data == data[..pos] + r.value
  {
    if pos > |data| then Throw(Overflow) else Ok(data[pos..])
  }

  /** The cursor passes the end of the data only when a string ran into the end without
      a terminator, and then by exactly one. */
  lemma ReadStringPastEnd(data: seq<byte>, pos: nat)
    requires pos <= |data|
    ensures ReadStringFrom(data, pos).value.next == |data| + 1
        <==> forall i | pos <= i < |data| :: data[i] != 0
  {
    ReadStringStops(data, pos);
    var next := ReadStringFrom(data, pos).value.next;
    if next != |data| + 1 {
      assert data[next - 1] == 0;
    }
  }

  class TftpPacketReader {
    const data: seq<byte>
    var pos: nat

    ghost predicate Valid()
      reads this
    {
      pos <= |data| + 1
    }

    constructor (data: seq<byte>)
      ensures Valid() && this.data == data && pos == 0
    {
      this.data := data;
      pos := 0;
    }

    method EndOfStream() returns (b: bool)
      ensures b == AtEnd(data, pos)
    {
      b := pos >= |data|;
    }

    /** The cursor moves past the first byte before the second index is checked. */
    method ReadUInt16() returns (r: Result<uint16>)
      requires Valid()
      modifies this
      ensures Valid() && pos >= old(pos)
      ensures r == ValueOf(ReadUInt16From(data, old(pos)))
      ensures r.Ok? ==> pos == ReadUInt16From(data, old(pos)).value.next
    {
      if pos >= |data| {
        return Throw(IndexOutOfRange);
      }
      var high := data[pos];
      pos := pos + 1;
      if pos >= |data| {
        return Throw(IndexOutOfRange);
      }
      r := Ok(UInt16Of(high, data[pos]));
      pos := pos + 1;
    }

    method ReadString() returns (r: Result<string>)
      requires Valid()
      modifies this
      ensures Valid() && pos >= old(pos)
      ensures r == ValueOf(ReadStringFrom(data, old(pos)))
      ensures r.Ok? ==> pos == ReadStringFrom(data, old(pos)).value.next
    {
      var i := pos;
      while i < |data| && data[i] != 0
        invariant pos <= i && (i <= |data| || i == pos)
        invariant pos <= |data| ==> StringEnd(data, pos) == StringEnd(data, i)
        decreases |data| - i
      {
        i := i + 1;
      }
      if pos > |data| {
        return Throw(ArgumentOutOfRange);
      }
      var length := i - pos;
      r := Ok(AsciiString(data[pos..i]));
      pos := pos + length + 1;
    }

    method ReadToEnd() returns (r: Result<seq<byte>>)
      requires Valid()
      ensures r == ReadToEndFrom(data, pos)
    {
      var length := |data| - pos;
      if length < 0 {
        return Throw(Overflow);
      }
      r := Ok(data[pos..]);
    }
  }
}
