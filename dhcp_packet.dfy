/** DhcpPacket.cs: the BOOTP header of RFC 951 section 3, the magic cookie of RFC 2132
    section 2, and the option list of RFC 2132 (Pad skipped, End terminating, any other
    id followed by a length byte and that many payload bytes).

    `Decode` and `Encode` are the wire format as pure functions; the class `DhcpPacket`
    decodes with a reader and a `while (true)` loop and encodes with a writer and a loop
    over the option ids, each proved to agree with them. */
module DhcpPackets {
  import opened Wrappers
  import opened Wire
  import opened DhcpReading
  import opened DhcpWriting
  import opened DhcpOptions

  const MagicCookie: uint32 := 0x63825363

  /** The widths of the text fields of the header. */
  const SnameLength: nat := 64
  const FileLength: nat := 128

  /** Where the text fields, the cookie and the options start. */
  const SnameOffset: nat := 44
  const CookieOffset: nat := 236
  const OptionsOffset: nat := 240

  datatype Packet = Packet(
    op: byte, htype: byte, hlen: byte, hops: byte,
    xid: uint32, secs: uint16, flags: uint16,
    ciaddr: Ipv4, yiaddr: Ipv4, siaddr: Ipv4, giaddr: Ipv4,
    chaddr: seq<byte>, sname: string, file: string,
    options: OptionTable)
  {
    /** MessageType: the first byte of option 53, 0 when it is missing. */
    function MessageType(): Result<byte> {
      options.GetByte(MessageTypeId, 0)
    }

    /** MaximumDhcpMessageSize: option 57 as a big-endian number. */
    function MaximumDhcpMessageSize(): Result<uint16> {
      options.GetUInt16(MaximumMessageSizeId, 0)
    }

    /** VendorClassIdentifier: the text of option 60, null when it is missing. */
    function VendorClassIdentifier(): Option<string> {
      options.GetString(VendorClassIdentifierId, None)
    }

    /** ClientSystemArchitecture: option 93 (RFC 4578 section 2.1) as a big-endian
        number. */
    function ClientSystemArchitecture(): Result<uint16> {
      options.GetUInt16(ClientSystemArchitectureId, 0)
    }
  }

  // ---------------------------------------------------------------------------
  // Decoding

  /** The option loop of FromArray over the bytes `rest` that are left in the stream,
      adding to `table`: an id byte (EndOfStream when none is left), Pad skipped, End
      stops the loop, any other id is followed by a length byte and that many payload
      bytes (fewer when the data ends first), stored with SetBytes. */
  function ReadOptions(rest: seq<byte>, table: OptionTable): (r: Result<OptionTable>)
    ensures table.Valid() && r.Ok? ==> r.value.Valid()
    decreases |rest|
  {
    var id :- ReadByteAt(rest, 0);
    if id.value == Pad then ReadOptions(rest[id.next..], table)
    else if id.value == End then Ok(table)
    else
      var length :- ReadByteAt(rest, id.next);
      var payload := ReadBytesAt(rest, length.next, length.value);
      ReadOptions(rest[payload.next..], table.Set(id.value, payload.value))
  }

  /** FromArray: the header fields in order, the cookie (read, and only logged when it is
      wrong), then the options. */
  function Decode(data: seq<byte>): (r: Result<Packet>)
    ensures r.Ok? ==> r.value.options.Valid()
  {
    var op :- ReadByteAt(data, 0);
    var htype :- ReadByteAt(data, op.next);
    var hlen :- ReadByteAt(data, htype.next);
    var hops :- ReadByteAt(data, hlen.next);
    var xid :- ReadUInt32At(data, hops.next);
    var secs :- ReadUInt16At(data, xid.next);
    var flags :- ReadUInt16At(data, secs.next);
    var ciaddr :- ReadIpAddressAt(data, flags.next);
    var yiaddr :- ReadIpAddressAt(data, ciaddr.next);
    var siaddr :- ReadIpAddressAt(data, yiaddr.next);
    var giaddr :- ReadIpAddressAt(data, siaddr.next);
    var chaddr := ReadBytesAt(data, giaddr.next, 16);
    var sname :- ReadStringAt(data, chaddr.next, SnameLength);
    var file :- ReadStringAt(data, sname.next, FileLength);
    var cookie :- ReadUInt32At(data, file.next);
    var options :- ReadOptions(data[cookie.next..], Empty);
    Ok(Packet(op.value, htype.value, hlen.value, hops.value, xid.value, secs.value,
              flags.value, ciaddr.value, yiaddr.value, siaddr.value, giaddr.value,
              chaddr.value, sname.value, file.value, options))
  }

  // ---------------------------------------------------------------------------
  // Encoding

  /** One option as ToArray writes it: id, the length cast to a byte, the payload. */
  function EncodeOption(id: byte, payload: seq<byte>): seq<byte> {
    [id, |payload| % 0x100] + payload
  }

  /** The options `ids` of `table`, in that order. */
  function EncodeOptions(table: OptionTable, ids: seq<byte>): seq<byte>
    requires forall id | id in ids :: id in table.payloads
  {
    if ids == [] then []
    else EncodeOption(ids[0], table.payloads[ids[0]]) + EncodeOptions(table, ids[1..])
  }

  /** The 236 header bytes (when chaddr has 16 bytes). */
  function EncodeHeader(p: Packet): seq<byte> {
    [p.op, p.htype, p.hlen, p.hops] + UInt32Bytes(p.xid) + UInt16Bytes(p.secs)
      + UInt16Bytes(p.flags) + p.ciaddr + p.yiaddr + p.siaddr + p.giaddr + p.chaddr
      + PaddedField(p.sname, SnameLength) + PaddedField(p.file, FileLength)
  }

  /** ToArray: header, cookie, the options in enumeration order, one End byte. */
  function Encode(p: Packet): seq<byte>
    requires p.options.Valid()
  {
    EncodeHeader(p) + UInt32Bytes(MagicCookie) + EncodeOptions(p.options, p.options.ids) + [End]
  }

  // ---------------------------------------------------------------------------
  // Well-formed option tables

  /** What a decoded table always satisfies and what the round trip needs: every id is
      enumerated once, none is Pad or End, and every payload length fits its length
      byte. */
  ghost predicate WellFormedOptions(t: OptionTable) {
    && t.Valid()
    && (forall id | id in t.payloads :: id != Pad && id != End && |t.payloads[id]| < 0x100)
  }

  ghost predicate WellFormed(p: Packet) {
    |p.chaddr| == 16 && WellFormedOptions(p.options)
  }

  /** The total size of the encoded options: two bytes plus the payload for each. */
  function OptionsSize(table: OptionTable, ids: seq<byte>): nat
    requires forall id | id in ids :: id in table.payloads
  {
    if ids == [] then 0 else 2 + |table.payloads[ids[0]]| + OptionsSize(table, ids[1..])
  }

  // ---------------------------------------------------------------------------
  // Lemmas about the option list

  /** One entry of the option loop: id, length byte, then the payload, cut short when
      the data ends first. */
  lemma ReadOptionsEntry(rest: seq<byte>, table: OptionTable)
    requires 2 <= |rest| && rest[0] != Pad && rest[0] != End
    ensures var next := Min(2 + rest[1] as int, |rest|);
      ReadOptions(rest, table) == ReadOptions(rest[next..], table.Set(rest[0], rest[2..next]))
  {
  }

  /** Slices of a concatenation that start inside its first part. */
  lemma ConcatSlices(a: seq<byte>, b: seq<byte>, i: nat, j: nat)
    requires i <= j <= |a|
    ensures (a + b)[i..j] == a[i..j] && (a + b)[j..] == a[j..] + b
  {
    assert forall k | 0 <= k < j - i :: (a + b)[i..j][k] == a[i..j][k];
    assert forall k | 0 <= k < |a| + |b| - j :: (a + b)[j..][k] == (a[j..] + b)[k];
  }

  /** Bytes after a successfully decoded option list (after its End) are never read. */
  lemma {:induction false} ReadOptionsIgnoresTail(rest: seq<byte>, tail: seq<byte>, table: OptionTable)
    requires ReadOptions(rest, table).Ok?
    ensures ReadOptions(rest + tail, table) == ReadOptions(rest, table)
    decreases |rest|
  {
    var whole := rest + tail;
    assert whole[0] == rest[0];
    var id := rest[0];
    if id == Pad {
      ConcatSlices(rest, tail, 1, 1);
      ReadOptionsIgnoresTail(rest[1..], tail, table);
    } else if id != End {
      assert whole[1] == rest[1];
      var next := Min(2 + rest[1] as int, |rest|);
      ReadOptionsEntry(rest, table);
      assert next < |rest|;
      ReadOptionsEntry(whole, table);
      ConcatSlices(rest, tail, 2, next);
      ReadOptionsIgnoresTail(rest[next..], tail, table.Set(id, rest[2..next]));
    }
  }

  /** Decoding keeps a table well formed. */
  lemma {:induction false} ReadOptionsWellFormed(rest: seq<byte>, table: OptionTable)
    requires WellFormedOptions(table)
    ensures ReadOptions(rest, table).Ok? ==> WellFormedOptions(ReadOptions(rest, table).value)
    decreases |rest|
  {
    if 0 < |rest| {
      var id := rest[0];
      if id == Pad {
        ReadOptionsWellFormed(rest[1..], table);
      } else if id != End && 1 < |rest| {
        var a := ReadBytesAt(rest, 2, rest[1]);
        SetThenGet(table, id, a.value);
        ReadOptionsWellFormed(rest[a.next..], table.Set(id, a.value));
      }
    }
  }

  /** Setting the first entries of an enumeration one after the other. */
  function SetAll(table: OptionTable, source: OptionTable, ids: seq<byte>): OptionTable
    requires forall id | id in ids :: id in source.payloads
    decreases ids
  {
    if ids == [] then table
    else SetAll(table.Set(ids[0], source.payloads[ids[0]]), source, ids[1..])
  }

  /** The option loop over encoded options sets them one after the other, stopping at the
      End byte whatever follows. */
  lemma {:induction false} ReadEncodedOptions(source: OptionTable, ids: seq<byte>, tail: seq<byte>, table: OptionTable)
    requires forall id | id in ids :: id in source.payloads && id != Pad && id != End
                                       && |source.payloads[id]| < 0x100
    ensures ReadOptions(EncodeOptions(source, ids) + [End] + tail, table)
         == Ok(SetAll(table, source, ids))
  {
    if ids == [] {
      assert EncodeOptions(source, ids) + [End] + tail == [End] + tail;
    } else {
      var id := ids[0];
      var payload := source.payloads[id];
      var rest := EncodeOptions(source, ids[1..]) + [End] + tail;
      var data := EncodeOptions(source, ids) + [End] + tail;
      var entry := EncodeOption(id, payload);
      assert data == entry + rest;
      assert data[0] == id && data[1] == |payload|;
      var a := ReadBytesAt(data, 2, |payload|);
      assert a.value == payload && a.next == |entry| by {
        assert data[2..2 + |payload|] == payload;
      }
      assert data[|entry|..] == rest;
      ReadEncodedOptions(source, ids[1..], tail, table.Set(id, payload));
    }
  }

  /** Setting the remaining ids of a valid table onto its first entries rebuilds it. */
  lemma {:induction false} SetAllRebuilds(source: OptionTable, k: nat)
    requires source.Valid() && k <= |source.ids|
    ensures SetAll(Prefix(source, k), source, source.ids[k..]) == source
    decreases |source.ids| - k
  {
    if k == |source.ids| {
      assert Prefix(source, k).ids == source.ids;
      assert Prefix(source, k).payloads == source.payloads;
    } else {
      PrefixGrows(source, k);
      assert source.ids[k..][1..] == source.ids[k + 1..];
      SetAllRebuilds(source, k + 1);
    }
  }

  /** Setting the next id of a valid table onto its first k entries gives its first k + 1
      entries: that id is new to the prefix, so it goes at the end. */
  lemma PrefixGrows(source: OptionTable, k: nat)
    requires source.Valid() && k < |source.ids|
    ensures var id := source.ids[k];
      Prefix(source, k).Set(id, source.payloads[id]) == Prefix(source, k + 1)
  {
    var id := source.ids[k];
    assert id !in source.ids[..k] by {
      forall j | 0 <= j < k ensures source.ids[..k][j] != id {
        assert source.ids[..k][j] == source.ids[j];
      }
    }
    var before := Prefix(source, k);
    var after := Prefix(source, k + 1);
    assert source.ids[..k + 1] == source.ids[..k] + [id];
    assert before.Set(id, source.payloads[id]).ids == after.ids;
    assert forall x :: x in after.payloads <==> x in before.payloads || x == id;
    assert before.Set(id, source.payloads[id]).payloads == after.payloads;
  }

  /** The first k entries of a table. */
  function Prefix(source: OptionTable, k: nat): OptionTable
    requires k <= |source.ids|
  {
    OptionTable(source.ids[..k],
                map id | id in source.payloads && id in source.ids[..k] :: source.payloads[id])
  }

  /** Appending one id to the enumeration appends its encoding. */
  lemma {:induction false} EncodeOptionsAppend(table: OptionTable, ids: seq<byte>, id: byte)
    requires forall x | x in ids :: x in table.payloads
    requires id in table.payloads
    ensures EncodeOptions(table, ids + [id]) == EncodeOptions(table, ids) + EncodeOption(id, table.payloads[id])
  {
    if ids != [] {
      assert (ids + [id])[1..] == ids[1..] + [id];
      EncodeOptionsAppend(table, ids[1..], id);
    }
  }

  lemma {:induction false} EncodeOptionsSize(table: OptionTable, ids: seq<byte>)
    requires forall id | id in ids :: id in table.payloads
    ensures |EncodeOptions(table, ids)| == OptionsSize(table, ids)
  {
    if ids != [] {
      EncodeOptionsSize(table, ids[1..]);
    }
  }

  // ---------------------------------------------------------------------------
  // Lemmas about whole packets

  /** The packet whose header fields sit at their fixed offsets in `data`: the cookie at
      236 and the options from 240. */
  function FixedLayout(data: seq<byte>, options: OptionTable): Packet
    requires |data| >= OptionsOffset
  {
    Packet(data[0], data[1], data[2], data[3], UInt32Of(data[4..8]),
           UInt16Of(data[8], data[9]), UInt16Of(data[10], data[11]),
           data[12..16], data[16..20], data[20..24], data[24..28], data[28..44],
           FieldText(data[44..108]), FieldText(data[108..236]), options)
  }

  /** With at least 240 bytes, the header reads succeed at fixed offsets, whatever the
      cookie, and only the option list can still fail. */
  lemma DecodeLong(data: seq<byte>)
    requires |data| >= OptionsOffset
    ensures Decode(data).Ok? <==> ReadOptions(data[OptionsOffset..], Empty).Ok?
    ensures Decode(data).Ok? ==>
      Decode(data).value == FixedLayout(data, ReadOptions(data[OptionsOffset..], Empty).value)
  {
    ReadStringField(data, 44, SnameLength);
    ReadStringField(data, 108, FileLength);
  }

  /** A datagram of 240 bytes or fewer never decodes; the "too short" check of FromArray
      (fewer than 241 bytes) is therefore only a warning about a packet that fails
      anyway. */
  lemma ShortDataFails(data: seq<byte>)
    requires |data| <= OptionsOffset
    ensures Decode(data).Throw?
  {
    if |data| >= 108 {
      assert ReadStringAt(data, 44, SnameLength).Ok?;
    } else if |data| >= 44 {
      var sname := ReadStringAt(data, 44, SnameLength);
      assert sname.Ok? ==> sname.value.next == |data|;
    }
  }

  /** Decoding succeeds exactly when the data reaches the options and the option list
      ends in End, and then gives the fixed-offset packet. */
  lemma DecodeLayout(data: seq<byte>)
    ensures Decode(data).Ok? <==> |data| > OptionsOffset && ReadOptions(data[OptionsOffset..], Empty).Ok?
    ensures Decode(data).Ok? ==>
      Decode(data).value == FixedLayout(data, ReadOptions(data[OptionsOffset..], Empty).value)
  {
    if |data| > OptionsOffset {
      DecodeLong(data);
    } else {
      ShortDataFails(data);
    }
  }

  /** A wrong cookie does not change the decoded packet. */
  lemma CookieIgnored(data: seq<byte>, cookie: seq<byte>)
    requires |data| >= OptionsOffset && |cookie| == 4
    ensures Decode(data[..CookieOffset] + cookie + data[OptionsOffset..]) == Decode(data)
  {
    var other := data[..CookieOffset] + cookie + data[OptionsOffset..];
    DecodeLayout(data);
    DecodeLayout(other);
    assert other[OptionsOffset..] == data[OptionsOffset..];
    assert other[..CookieOffset] == data[..CookieOffset];
    FixedLayoutHeader(other, data, ReadOptions(data[OptionsOffset..], Empty));
  }

  /** The fixed-offset packet depends only on the first 236 bytes. */
  lemma FixedLayoutHeader(a: seq<byte>, b: seq<byte>, r: Result<OptionTable>)
    requires |a| >= OptionsOffset && |b| >= OptionsOffset && a[..CookieOffset] == b[..CookieOffset]
    ensures r.Ok? ==> FixedLayout(a, r.value) == FixedLayout(b, r.value)
  {
    forall i | 0 <= i < CookieOffset ensures a[i] == b[i] {
      assert a[i] == a[..CookieOffset][i];
      assert b[i] == b[..CookieOffset][i];
    }
    assert a[4..8] == b[4..8] && a[12..16] == b[12..16] && a[16..20] == b[16..20];
    assert a[20..24] == b[20..24] && a[24..28] == b[24..28] && a[28..44] == b[28..44];
    assert a[44..108] == b[44..108] && a[108..236] == b[108..236];
  }

  /** Bytes after the End option are never read. */
  lemma TrailingBytesIgnored(data: seq<byte>, tail: seq<byte>)
    requires Decode(data).Ok?
    ensures Decode(data + tail) == Decode(data)
  {
    var whole := data + tail;
    DecodeLayout(data);
    var options := ReadOptions(data[OptionsOffset..], Empty);
    assert whole[OptionsOffset..] == data[OptionsOffset..] + tail;
    ReadOptionsIgnoresTail(data[OptionsOffset..], tail, Empty);
    assert ReadOptions(whole[OptionsOffset..], Empty) == options;
    DecodeLayout(whole);
    assert whole[..CookieOffset] == data[..CookieOffset];
    FixedLayoutHeader(whole, data, options);
  }

  /** A decoded packet has a 16-byte chaddr, text fields that are ASCII without NUL and
      shorter than 65 and 129 characters, and a well-formed option table. */
  lemma DecodedWellFormed(data: seq<byte>)
    requires Decode(data).Ok?
    ensures var p := Decode(data).value;
      && WellFormed(p)
      && IsAscii(p.sname) && NoNul(p.sname) && |p.sname| <= SnameLength
      && IsAscii(p.file) && NoNul(p.file) && |p.file| <= FileLength
  {
    DecodeLayout(data);
    EmptyValid();
    ReadOptionsWellFormed(data[OptionsOffset..], Empty);
    FieldTextClean(data[44..108]);
    FieldTextClean(data[108..236]);
  }

  lemma FieldTextClean(b: seq<byte>)
    ensures IsAscii(FieldText(b)) && NoNul(FieldText(b)) && |FieldText(b)| <= |b|
  {
    var k := FirstZero(b);
    AsciiStringIsAscii(b[..k]);
    forall i | 0 <= i < k ensures FieldText(b)[i] != '\0' {
      assert b[i] != 0;
    }
  }

  /** The 236 header bytes: every field at its fixed offset. */
  lemma EncodeHeaderLayout(p: Packet)
    requires |p.chaddr| == 16
    ensures var h := EncodeHeader(p);
      && |h| == CookieOffset
      && h[0] == p.op && h[1] == p.htype && h[2] == p.hlen && h[3] == p.hops
      && h[4..8] == UInt32Bytes(p.xid)
      && h[8..10] == UInt16Bytes(p.secs) && h[10..12] == UInt16Bytes(p.flags)
      && h[12..16] == p.ciaddr && h[16..20] == p.yiaddr
      && h[20..24] == p.siaddr && h[24..28] == p.giaddr
      && h[28..44] == p.chaddr
      && h[44..108] == PaddedField(p.sname, SnameLength)
      && h[108..236] == PaddedField(p.file, FileLength)
  {
    var h := EncodeHeader(p);
    PaddedFieldShape(p.sname, SnameLength);
    PaddedFieldShape(p.file, FileLength);
    assert h[4..8] == UInt32Bytes(p.xid);
    assert h[8..10] == UInt16Bytes(p.secs);
    assert h[10..12] == UInt16Bytes(p.flags);
    assert h[12..16] == p.ciaddr;
    assert h[16..20] == p.yiaddr;
    assert h[20..24] == p.siaddr;
    assert h[24..28] == p.giaddr;
    assert h[28..44] == p.chaddr;
    assert h[44..108] == PaddedField(p.sname, SnameLength);
  }

  /** The encoded packet: the header fields at their fixed offsets, the cookie at 236, the
      options from 240, and its length is 240 + the options' size + 1. */
  lemma EncodeLayout(p: Packet)
    requires |p.chaddr| == 16 && p.options.Valid()
    ensures var e := Encode(p);
      && |e| == OptionsOffset + OptionsSize(p.options, p.options.ids) + 1
      && e[0] == p.op && e[1] == p.htype && e[2] == p.hlen && e[3] == p.hops
      && e[4..8] == UInt32Bytes(p.xid)
      && e[8..10] == UInt16Bytes(p.secs) && e[10..12] == UInt16Bytes(p.flags)
      && e[12..16] == p.ciaddr && e[16..20] == p.yiaddr
      && e[20..24] == p.siaddr && e[24..28] == p.giaddr
      && e[28..44] == p.chaddr
      && e[44..108] == PaddedField(p.sname, SnameLength)
      && e[108..236] == PaddedField(p.file, FileLength)
      && e[236..240] == UInt32Bytes(MagicCookie)
      && e[240..] == EncodeOptions(p.options, p.options.ids) + [End]
  {
    var e := Encode(p);
    var h := EncodeHeader(p);
    EncodeHeaderLayout(p);
    EncodeOptionsSize(p.options, p.options.ids);
    assert e == h + (UInt32Bytes(MagicCookie) + EncodeOptions(p.options, p.options.ids) + [End]);
    SlicesOfPrefix(h, e);
  }

  /** Slices inside a prefix are slices of the prefix. */
  lemma SlicesOfPrefix(h: seq<byte>, e: seq<byte>)
    requires |h| <= |e| && e[..|h|] == h
    ensures forall i, j | 0 <= i <= j <= |h| :: e[i..j] == h[i..j]
    ensures forall i | 0 <= i < |h| :: e[i] == h[i]
  {
    forall i | 0 <= i < |h| ensures e[i] == h[i] {
      assert e[i] == e[..|h|][i];
    }
    forall i, j | 0 <= i <= j <= |h| ensures e[i..j] == h[i..j] {
      assert forall k | 0 <= k < j - i :: e[i..j][k] == h[i..j][k];
    }
  }

  /** The option list of an encoded packet decodes to its table. */
  lemma DecodeEncodedOptions(p: Packet)
    requires WellFormed(p)
    ensures |Encode(p)| >= OptionsOffset
    ensures ReadOptions(Encode(p)[OptionsOffset..], Empty) == Ok(p.options)
  {
    var e := Encode(p);
    EncodeLayout(p);
    ReadEncodedOptions(p.options, p.options.ids, [], Empty);
    assert EncodeOptions(p.options, p.options.ids) + [End] + [] == e[OptionsOffset..];
    SetAllRebuilds(p.options, 0);
    assert Prefix(p.options, 0) == Empty;
    assert p.options.ids[0..] == p.options.ids;
  }

  /** Round trip: decoding an encoded well-formed packet gives it back, except that sname
      and file come back as the writer stored them (cut to 63 and 127 bytes, ASCII,
      stopped at a NUL). */
  lemma RoundTrip(p: Packet)
    requires WellFormed(p)
    ensures Decode(Encode(p))
         == Ok(p.(sname := StoredField(p.sname, SnameLength), file := StoredField(p.file, FileLength)))
  {
    var e := Encode(p);
    EncodeLayout(p);
    DecodeEncodedOptions(p);
    DecodeLayout(e);
    UInt32BytesOf(e[4..8]);
    UInt32RoundTrip(p.xid);
    UInt16RoundTrip(p.secs);
    UInt16RoundTrip(p.flags);
  }

  /** The exact round trip: with ASCII text fields without NUL that fit their fields,
      decoding the encoding gives the packet itself. */
  lemma ExactRoundTrip(p: Packet)
    requires WellFormed(p)
    requires IsAscii(p.sname) && NoNul(p.sname) && |p.sname| < SnameLength
    requires IsAscii(p.file) && NoNul(p.file) && |p.file| < FileLength
    ensures Decode(Encode(p)) == Ok(p)
  {
    RoundTrip(p);
    StoredFieldExact(p.sname, SnameLength);
    StoredFieldExact(p.file, FileLength);
  }

  /** The copy constructor applied to a decoded packet: everything is kept except that a
      sname of 64 or a file of 128 characters loses its last one. */
  lemma CopyOfDecoded(data: seq<byte>)
    requires Decode(data).Ok?
    ensures var p := Decode(data).value;
      WellFormed(p) && Decode(Encode(p)) == Ok(p.(sname := p.sname[..Min(|p.sname|, SnameLength - 1)],
                                 file := p.file[..Min(|p.file|, FileLength - 1)]))
  {
    var p := Decode(data).value;
    DecodedWellFormed(data);
    RoundTrip(p);
    StoredFieldTruncates(p.sname, SnameLength);
    StoredFieldTruncates(p.file, FileLength);
  }

  /** Copying twice is the same as copying once. */
  lemma CopyIsStable(p: Packet)
    requires WellFormed(p)
    ensures Decode(Encode(p)).Ok?
    ensures var q := Decode(Encode(p)).value; WellFormed(q) && Decode(Encode(q)) == Ok(q)
  {
    RoundTrip(p);
    var q := p.(sname := StoredField(p.sname, SnameLength), file := StoredField(p.file, FileLength));
    StoredFieldStable(p.sname, SnameLength);
    StoredFieldStable(p.file, FileLength);
    ExactRoundTrip(q);
  }

  // ---------------------------------------------------------------------------
  // The class

  class DhcpPacket {
    var op: byte
    var htype: byte
    var hlen: byte
    var hops: byte
    var xid: uint32
    var secs: uint16
    var flags: uint16
    var ciaddr: Ipv4
    var yiaddr: Ipv4
    var siaddr: Ipv4
    var giaddr: Ipv4
    var chaddr: seq<byte>
    var sname: string
    var file: string
    var options: DhcpPacketOptions

    ghost predicate Valid()
      reads this, options
    {
      options.Valid()
    }

    /** The fields as a value. */
    function Value(): Packet
      reads this, options
    {
      Packet(op, htype, hlen, hops, xid, secs, flags, ciaddr, yiaddr, siaddr, giaddr,
             chaddr, sname, file, options.table)
    }

    /** The state FromArray leaves behind when every read succeeds: the header fields
        read and the options object it filled. */
    constructor Of(header: Packet, options: DhcpPacketOptions)
      requires options.Valid()
      ensures this.options == options && Valid()
      ensures Value() == header.(options := options.table)
    {
      op, htype, hlen, hops := header.op, header.htype, header.hlen, header.hops;
      xid, secs, flags := header.xid, header.secs, header.flags;
      ciaddr, yiaddr, siaddr, giaddr := header.ciaddr, header.yiaddr, header.siaddr, header.giaddr;
      chaddr, sname, file := header.chaddr, header.sname, header.file;
      this.options := options;
    }

    /** The constructor DhcpPacket(data, dataLength), which runs FromArray(data,
        dataLength): a new options object, then the reads in order. `dataLength` is only
        compared with 241 for a log line; the whole array is decoded. A read that throws
        makes the constructor throw, so no packet comes out. */
    static method FromArray(data: seq<byte>, dataLength: int) returns (r: Result<DhcpPacket>)
      ensures r.Ok? <==> Decode(data).Ok?
      ensures r.Ok? ==> fresh(r.value) && fresh(r.value.options) && r.value.Valid()
                        && r.value.Value() == Decode(data).value
    {
      DecodeLayout(data);
      var options := new DhcpPacketOptions();
      var reader := new DhcpPacketReader(data);
      var header :- ReadHeader(reader);
      header :- ReadNames(reader, header);
      var done :- ReadOptionList(reader, options);
      var packet := new DhcpPacket.Of(header, options);
      r := Ok(packet);
    }

    /** The first reads of FromArray: the numeric header fields, the four addresses and
        the hardware address, from the start of the data. The hardware address is read
        with ReadBytes, which does not throw, so these reads succeed once the 28 bytes up
        to the end of giaddr are there. */
    static method ReadHeader(reader: DhcpPacketReader) returns (r: Result<Packet>)
      requires reader.Valid() && reader.pos == 0
      modifies reader
      ensures reader.Valid()
      ensures r.Ok? <==> |reader.data| >= 28
      ensures r.Ok? ==> reader.pos == Min(SnameOffset, |reader.data|)
      ensures r.Ok? && |reader.data| >= SnameOffset ==> var data := reader.data;
        r.value == Packet(data[0], data[1], data[2], data[3], UInt32Of(data[4..8]),
                             UInt16Of(data[8], data[9]), UInt16Of(data[10], data[11]),
                             data[12..16], data[16..20], data[20..24], data[24..28],
                             data[28..44], "", "", Empty)
    {
      var op :- reader.ReadByte();
      var htype :- reader.ReadByte();
      var hlen :- reader.ReadByte();
      var hops :- reader.ReadByte();
      var xid :- reader.ReadUInt32();
      var secs :- reader.ReadUInt16();
      var flags :- reader.ReadUInt16();
      var ciaddr :- reader.ReadIpAddress();
      var yiaddr :- reader.ReadIpAddress();
      var siaddr :- reader.ReadIpAddress();
      var giaddr :- reader.ReadIpAddress();
      var chaddr := reader.ReadBytes(16);
      r := Ok(Packet(op, htype, hlen, hops, xid, secs, flags, ciaddr, yiaddr, siaddr, giaddr,
                     chaddr, "", "", Empty));
    }

    /** The next reads of FromArray: the two text fields and the magic cookie, which is
        read and not checked. */
    static method ReadNames(reader: DhcpPacketReader, header: Packet) returns (r: Result<Packet>)
      requires reader.Valid() && reader.pos == Min(SnameOffset, |reader.data|)
      modifies reader
      ensures reader.Valid()
      ensures r.Ok? <==> |reader.data| >= OptionsOffset
      ensures r.Ok? ==> var data := reader.data;
        && reader.pos == OptionsOffset
        && r.value == header.(sname := FieldText(data[44..108]), file := FieldText(data[108..236]))
    {
      var sname :- reader.ReadString(SnameLength);
      var file :- reader.ReadString(FileLength);
      var magicCookie :- reader.ReadUInt32();
      ReadStringField(reader.data, 44, SnameLength);
      ReadStringField(reader.data, 108, FileLength);
      r := Ok(header.(sname := sname, file := file));
    }

    /** The `while (true)` loop of FromArray: option entries until End. */
    static method ReadOptionList(reader: DhcpPacketReader, options: DhcpPacketOptions)
      returns (r: Result<()>)
      requires reader.Valid() && options.Valid()
      modifies reader, options
      ensures r.Ok? <==> ReadOptions(reader.data[old(reader.pos)..], old(options.table)).Ok?
      ensures r.Ok? ==> options.Valid()
                        && options.table == ReadOptions(reader.data[old(reader.pos)..], old(options.table)).value
    {
      while true
        invariant reader.Valid() && options.Valid()
        invariant ReadOptions(reader.data[reader.pos..], options.table)
               == ReadOptions(reader.data[old(reader.pos)..], old(options.table))
        decreases |reader.data| - reader.pos
      {
        var more :- ReadOption(reader, options);
        if !more {
          break;
        }
      }
      r := Ok(());
    }

    /** One pass of that loop: read an id; skip Pad; stop at End (false); otherwise read
        the length byte and the payload and store it with SetBytes (true). */
    static method ReadOption(reader: DhcpPacketReader, options: DhcpPacketOptions)
      returns (r: Result<bool>)
      requires reader.Valid() && options.Valid()
      modifies reader, options
      ensures reader.Valid() && options.Valid()
      ensures var before := ReadOptions(reader.data[old(reader.pos)..], old(options.table));
        && (r.Throw? ==> before.Throw?)
        && (r.Ok? && r.value ==> old(reader.pos) < reader.pos
                                 && ReadOptions(reader.data[reader.pos..], options.table) == before)
        && (r.Ok? && !r.value ==> before == Ok(options.table))
    {
      ghost var rest := reader.data[reader.pos..];
      var id :- reader.ReadByte();
      assert reader.data[reader.pos..] == rest[1..];
      if id == Pad {
        return Ok(true);
      } else if id == End {
        return Ok(false);
      }
      var length :- reader.ReadByte();
      var payload := reader.ReadBytes(length);
      assert payload == rest[2..2 + |payload|] && reader.data[reader.pos..] == rest[2 + |payload|..];
      options.SetBytes(id, payload);
      r := Ok(true);
    }

    /** ToArray: the header, the cookie, every option in enumeration order, then End. */
    method ToArray() returns (bytes: seq<byte>)
      requires Valid()
      ensures bytes == Encode(Value())
    {
      ghost var p := Value();
      var writer := new DhcpPacketWriter();
      WriteHeader(writer);
      writer.WriteUInt32(MagicCookie);
      assert writer.written == EncodeHeader(p) + UInt32Bytes(MagicCookie);
      WriteOptionList(writer);
      writer.WriteByte(End);
      bytes := writer.ToArray();
    }

    /** The header writes of ToArray, field by field. */
    method WriteHeader(writer: DhcpPacketWriter)
      requires writer.written == []
      modifies writer
      ensures writer.written == EncodeHeader(Value())
    {
      writer.WriteByte(op);
      writer.WriteByte(htype);
      writer.WriteByte(hlen);
      writer.WriteByte(hops);
      writer.WriteUInt32(xid);
      writer.WriteUInt16(secs);
      writer.WriteUInt16(flags);
      ghost var numbers := writer.written;
      assert numbers == [op, htype, hlen, hops] + UInt32Bytes(xid) + UInt16Bytes(secs)
                        + UInt16Bytes(flags);
      writer.WriteIpAddress(ciaddr);
      writer.WriteIpAddress(yiaddr);
      writer.WriteIpAddress(siaddr);
      writer.WriteIpAddress(giaddr);
      writer.WriteBytes(chaddr);
      ghost var addresses := writer.written;
      assert addresses == numbers + ciaddr + yiaddr + siaddr + giaddr + chaddr;
      writer.WriteString(sname, SnameLength);
      writer.WriteString(file, FileLength);
      assert writer.written
          == addresses + PaddedField(sname, SnameLength) + PaddedField(file, FileLength);
    }

    /** The `foreach` over the option ids in ToArray: id, length byte, payload. */
    method WriteOptionList(writer: DhcpPacketWriter)
      requires options.Valid()
      modifies writer
      ensures writer.written
           == old(writer.written) + EncodeOptions(options.table, options.table.GetIds())
    {
      var table := options.table;
      var ids := table.GetIds();
      ghost var start := writer.written;
      for i := 0 to |ids|
        invariant writer.written == start + EncodeOptions(table, ids[..i])
      {
        var id := ids[i];
        writer.WriteByte(id);
        var payload := table.GetBytes(id);
        writer.WriteByte(|payload.value| % 0x100);
        writer.WriteBytes(payload.value);
        EncodeOptionsAppend(table, ids[..i], id);
        assert ids[..i + 1] == ids[..i] + [id];
      }
      assert ids[..|ids|] == ids;
    }

    /** The copy constructor DhcpPacket(DhcpPacket): FromArray(original.ToArray()). */
    static method Copy(original: DhcpPacket) returns (r: Result<DhcpPacket>)
      requires original.Valid()
      ensures r.Ok? <==> Decode(Encode(original.Value())).Ok?
      ensures r.Ok? ==> fresh(r.value) && fresh(r.value.options) && r.value.Valid()
                        && r.value.Value() == Decode(Encode(original.Value())).value
    {
      var bytes := original.ToArray();
      r := FromArray(bytes, -1);
    }
  }
}
