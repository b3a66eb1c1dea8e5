/** DhcpPacketOptions.cs: a Dictionary from option id to payload bytes.

    `OptionTable` is the dictionary's value: the payloads by id, and the ids in the order
    the dictionary enumerates them (insertion order, which is also the order ToArray
    writes them in). The getters are pure lookups on it; the class `DhcpPacketOptions`
    holds one and its mutating methods replace it. */
module DhcpOptions {
  import opened Wrappers
  import opened Wire

  const Pad: byte := 0
  const MessageTypeId: byte := 53
  const ServerIdentifierId: byte := 54
  const ParameterRequestListId: byte := 55
  const MaximumMessageSizeId: byte := 57
  const VendorClassIdentifierId: byte := 60
  const ClientIdentifierId: byte := 61
  const ClientSystemArchitectureId: byte := 93
  const ClientNetworkDeviceInterfaceId: byte := 94
  const ClientIdentifierUuidId: byte := 97
  const End: byte := 255

  datatype OptionTable = OptionTable(ids: seq<byte>, payloads: map<byte, seq<byte>>) {

    /** Every stored id is enumerated exactly once. */
    ghost predicate Valid() {
      && Distinct(ids)
      && (forall id :: id in payloads <==> id in ids)
    }

    /** SetBytes: a new id is appended to the enumeration; an existing one keeps its
        place and gets the new payload. */
    function Set(id: byte, value: seq<byte>): (r: OptionTable)
      ensures Valid() ==> r.Valid()
    {
      OptionTable(if id in payloads then ids else ids + [id], payloads[id := value])
    }

    /** Remove: the id leaves the enumeration and the dictionary. */
    function Remove(id: byte): OptionTable {
      OptionTable(Without(ids, id), payloads - {id})
    }

    /** GetIds. */
    function GetIds(): seq<byte> { ids }

    /** Exists. */
    function Exists(id: byte): bool { id in payloads }

    /** GetBytes: the stored payload, or null. */
    function GetBytes(id: byte): Option<seq<byte>> {
      if id in payloads then Some(payloads[id]) else None
    }

    /** GetByte: the first byte of the payload (an empty payload throws), or the default. */
    function GetByte(id: byte, default: byte): Result<byte> {
      if id !in payloads then Ok(default)
      else if |payloads[id]| == 0 then Throw(IndexOutOfRange)
      else Ok(payloads[id][0])
    }

    /** GetUInt16: BitConverter.ToUInt16 of the payload (little-endian, at least two
        bytes) or the default, then NetworkToHostOrder; a stored payload thus reads most
        significant byte first, while the default comes out byte-swapped. */
    function GetUInt16(id: byte, default: uint16): Result<uint16> {
      if id !in payloads then Ok(Swap16(default))
      else if |payloads[id]| == 0 then Throw(ArgumentOutOfRange)
      else if |payloads[id]| < 2 then Throw(Argument)
      else Ok(UInt16Of(payloads[id][0], payloads[id][1]))
    }

    /** GetUInt32: as GetUInt16 with four bytes. */
    function GetUInt32(id: byte, default: uint32): Result<uint32> {
      if id !in payloads then Ok(Swap32(default))
      else if |payloads[id]| == 0 then Throw(ArgumentOutOfRange)
      else if |payloads[id]| < 4 then Throw(Argument)
      else Ok(UInt32Of(payloads[id][..4]))
    }

    /** GetString: the ASCII text of the payload, or the default (null when omitted). */
    function GetString(id: byte, default: Option<string>): Option<string> {
      if id in payloads then Some(AsciiString(payloads[id])) else default
    }

    /** GetIpAAddress: the stored payload as an IPv4 address, or the default. The
        IPAddress constructor also accepts a sixteen-byte (IPv6) payload, which this
        model, whose addresses are IPv4 only, reports as Argument like every other
        length. */
    function GetIpAddress(id: byte, default: Option<Ipv4>): Result<Option<Ipv4>> {
      if id !in payloads then Ok(default)
      else if |payloads[id]| == 4 then Ok(Some(payloads[id]))
      else Throw(Argument)
    }
  }

  /** No element of `s` occurs twice. */
  predicate Distinct(s: seq<byte>) {
    forall i, j | 0 <= i < j < |s| :: s[i] != s[j]
  }

  /** `s` without the element `x`. */
  function Without(s: seq<byte>, x: byte): (r: seq<byte>)
    ensures forall y :: y in r <==> y in s && y != x
  {
    if s == [] then []
    else if s[0] == x then Without(s[1..], x)
    else [s[0]] + Without(s[1..], x)
  }

  /** A new Dictionary. */
  const Empty := OptionTable([], map[])

  /** SetByte, SetUInt16, SetUInt32, SetString and SetIpAAddress: the payload each
      stores. */
  function ByteBytes(value: byte): seq<byte> { [value] }
  function StringBytes(value: string): seq<byte> { AsciiBytes(value) }

  lemma EmptyValid()
    ensures Empty.Valid() && Empty.GetIds() == []
    ensures forall id :: !Empty.Exists(id) && Empty.GetBytes(id) == None
  {
  }

  /** After SetBytes(id, b): GetBytes(id) is b, Exists(id) holds, every other id reads as
      before, and the table stays valid. */
  lemma SetThenGet(t: OptionTable, id: byte, value: seq<byte>)
    requires t.Valid()
    ensures var u := t.Set(id, value);
      && u.Valid()
      && u.GetBytes(id) == Some(value) && u.Exists(id)
      && (forall other | other != id :: u.GetBytes(other) == t.GetBytes(other))
  {
    var u := t.Set(id, value);
    if id !in t.payloads {
      assert id !in t.ids;
      forall i, j | 0 <= i < j < |u.ids| ensures u.ids[i] != u.ids[j] {
        if j == |t.ids| {
          assert u.ids[j] == id && u.ids[i] == t.ids[i];
        }
      }
    }
  }

  /** Setting an id already present overwrites it in place: the enumeration does not
      change. A fresh id is enumerated last. */
  lemma SetOverwrites(t: OptionTable, id: byte, first: seq<byte>, second: seq<byte>)
    ensures t.Set(id, first).Set(id, second) == t.Set(id, second)
    ensures t.Exists(id) ==> t.Set(id, second).GetIds() == t.GetIds()
    ensures !t.Exists(id) ==> t.Set(id, second).GetIds() == t.GetIds() + [id]
  {
  }

  /** Clear gives the empty table whatever was stored. */
  lemma ClearForgets(id: byte)
    ensures !Empty.Exists(id) && Empty.GetIds() == [] && Empty.GetBytes(id) == None
    ensures Empty.GetByte(id, 0) == Ok(0) && Empty.GetString(id, None) == None
  {
  }

  /** Remove(id) reports whether id was present, and afterwards it is absent while every
      other id is untouched. */
  lemma RemoveForgets(t: OptionTable, id: byte)
    requires t.Valid()
    ensures var u := t.Remove(id);
      && u.Valid()
      && !u.Exists(id)
      && (forall other | other != id :: u.GetBytes(other) == t.GetBytes(other))
  {
    var u := t.Remove(id);
    RemoveKeepsDistinct(t.ids, id);
  }

  lemma {:induction false} RemoveKeepsDistinct(s: seq<byte>, x: byte)
    requires Distinct(s)
    ensures Distinct(Without(s, x))
  {
    if s != [] {
      RemoveKeepsDistinct(s[1..], x);
      var rest := Without(s[1..], x);
      if s[0] != x {
        var r := [s[0]] + rest;
        assert s[0] !in s[1..] by {
          forall k | 0 <= k < |s| - 1 ensures s[1..][k] != s[0] {
            assert s[1..][k] == s[k + 1];
          }
        }
        assert s[0] !in rest;
        forall i, j | 0 <= i < j < |r| ensures r[i] != r[j] {
          if i == 0 {
            assert r[j] == rest[j - 1];
            assert r[j] in rest;
          } else {
            assert r[i] == rest[i - 1] && r[j] == rest[j - 1];
          }
        }
      }
    }
  }

  /** GetIds enumerates exactly the stored ids, each once. */
  lemma GetIdsExact(t: OptionTable)
    requires t.Valid()
    ensures forall id :: id in t.GetIds() <==> t.Exists(id)
    ensures |t.GetIds()| == |t.payloads|
  {
    DistinctCount(t.ids, t.payloads.Keys);
  }

  lemma {:induction false} DistinctCount(s: seq<byte>, keys: set<byte>)
    requires Distinct(s)
    requires forall x :: x in keys <==> x in s
    ensures |s| == |keys|
  {
    if s != [] {
      var rest := s[1..];
      assert forall x :: x in keys - {s[0]} <==> x in rest by {
        forall x ensures x in keys - {s[0]} <==> x in rest {
          if x in rest {
            var k :| 0 <= k < |rest| && rest[k] == x;
            assert s[k + 1] == x && s[0] != s[k + 1];
          }
        }
      }
      DistinctCount(rest, keys - {s[0]});
    } else {
      assert forall x :: x !in keys;
      assert keys == {};
    }
  }

  /** Getters on a missing id give the default: GetByte the default byte, GetString and
      GetBytes null, and GetUInt16/GetUInt32 the default after the byte swap, so the usual
      default 0 stays 0. */
  lemma MissingGivesDefault(t: OptionTable, id: byte, d16: uint16, d32: uint32)
    requires !t.Exists(id)
    ensures t.GetByte(id, 0) == Ok(0)
    ensures t.GetString(id, None) == None && t.GetBytes(id) == None
    ensures t.GetUInt16(id, d16) == Ok(Swap16(d16)) && t.GetUInt32(id, d32) == Ok(Swap32(d32))
    ensures t.GetUInt16(id, 0) == Ok(0) && t.GetUInt32(id, 0) == Ok(0)
  {
    SwapZero();
  }

  /** SetUInt16 then GetUInt16 gives the value back; so does a stored byte for GetByte,
      a string for GetString and four address bytes for GetIpAAddress. */
  lemma SetGetUInt16(t: OptionTable, id: byte, value: uint16, default: uint16)
    ensures t.Set(id, UInt16Bytes(value)).GetUInt16(id, default) == Ok(value)
  {
    UInt16RoundTrip(value);
  }

  lemma SetGetUInt32(t: OptionTable, id: byte, value: uint32, default: uint32)
    ensures t.Set(id, UInt32Bytes(value)).GetUInt32(id, default) == Ok(value)
  {
    UInt32RoundTrip(value);
    assert UInt32Bytes(value)[..4] == UInt32Bytes(value);
  }

  lemma SetGetByte(t: OptionTable, id: byte, value: byte, default: byte)
    ensures t.Set(id, ByteBytes(value)).GetByte(id, default) == Ok(value)
    ensures forall p | |p| > 0 :: t.Set(id, p).GetByte(id, default) == Ok(p[0])
  {
  }

  lemma SetGetString(t: OptionTable, id: byte, value: string)
    requires IsAscii(value)
    ensures t.Set(id, StringBytes(value)).GetString(id, None) == Some(value)
  {
    AsciiRoundTrip(value);
  }

  lemma SetGetIpAddress(t: OptionTable, id: byte, value: Ipv4)
    ensures t.Set(id, value).GetIpAddress(id, None) == Ok(Some(value))
  {
  }

  class DhcpPacketOptions {
    var table: OptionTable

    ghost predicate Valid()
      reads this
    {
      table.Valid()
    }

    constructor ()
      ensures Valid() && table == Empty
    {
      table := Empty;
    }

    method Clear()
      modifies this
      ensures Valid() && table == Empty
    {
      table := Empty;
    }

    method Remove(id: byte) returns (removed: bool)
      requires Valid()
      modifies this
      ensures Valid()
      ensures removed == old(table).Exists(id) && table == old(table).Remove(id)
    {
      RemoveForgets(table, id);
      removed := id in table.payloads;
      table := table.Remove(id);
    }

    method SetBytes(id: byte, value: seq<byte>)
      requires Valid()
      modifies this
      ensures Valid() && table == old(table).Set(id, value)
    {
      SetThenGet(table, id, value);
      table := table.Set(id, value);
    }

    method SetByte(id: byte, value: byte)
      requires Valid()
      modifies this
      ensures Valid() && table == old(table).Set(id, ByteBytes(value))
    {
      SetBytes(id, [value]);
    }

    method SetUInt16(id: byte, value: uint16)
      requires Valid()
      modifies this
      ensures Valid() && table == old(table).Set(id, UInt16Bytes(value))
    {
      SetBytes(id, UInt16Bytes(value));
    }

    method SetUInt32(id: byte, value: uint32)
      requires Valid()
      modifies this
      ensures Valid() && table == old(table).Set(id, UInt32Bytes(value))
    {
      SetBytes(id, UInt32Bytes(value));
    }

    method SetString(id: byte, value: string)
      requires Valid()
      modifies this
      ensures Valid() && table == old(table).Set(id, StringBytes(value))
    {
      SetBytes(id, AsciiBytes(value));
    }

    method SetIpAddress(id: byte, value: Ipv4)
      requires Valid()
      modifies this
      ensures Valid() && table == old(table).Set(id, value)
    {
      SetBytes(id, value);
    }
  }
}
