/** TftpPacket.cs: a TFTP packet (RFC 1350) with the option extension of RFC 2347.

    `Decode` and `Encode` are the wire format as pure functions; the class `TftpPacket`
    reads and writes it step by step through a TftpPacketReader and a TftpPacketWriter,
    and its methods are proved to agree with them. */
module TftpPackets {
  import opened Wrappers
  import opened Wire
  import opened TftpReading
  import opened TftpWriting
  import opened TftpOptions

  // TftpPacketType
  const ReadRequest: uint16 := 1
  const WriteRequest: uint16 := 2
  const Data: uint16 := 3
  const Acknowledgment: uint16 := 4
  const Error: uint16 := 5
  const OptionAcknowledgment: uint16 := 6

  /** The transfer modes StringToMode tells apart (the declaration of TftpMode is not
      part of this model). */
  datatype TftpMode = Unknown | Netascii | Octet | Mail | Binary

  function ModeName(mode: TftpMode): string {
    match mode
    case Unknown => ""
    case Netascii => "netascii"
    case Octet => "octet"
    case Mail => "mail"
    case Binary => "binary"
  }

  /** String.Equals with StringComparison.OrdinalIgnoreCase, for the ASCII text the
      decoder yields. */
  predicate EqualsIgnoreCase(a: string, b: string) {
    ToLower(a) == ToLower(b)
  }

  function StringToMode(mode: string): TftpMode {
    if EqualsIgnoreCase(mode, "netascii") then Netascii
    else if EqualsIgnoreCase(mode, "octet") then Octet
    else if EqualsIgnoreCase(mode, "mail") then Mail
    else if EqualsIgnoreCase(mode, "binary") then Binary
    else Unknown
  }

  /** A mode name is recognised in any mix of cases, and only a mode name is. */
  lemma StringToModeIgnoresCase(mode: string, m: TftpMode)
    requires m != Unknown
    ensures StringToMode(mode) == m <==> ToLower(mode) == ModeName(m)
  {
    ToLowerOfLower("netascii");
    ToLowerOfLower("octet");
    ToLowerOfLower("mail");
    ToLowerOfLower("binary");
  }

  /** The properties of a TftpPacket. Properties that FromArray does not set keep their
      defaults: null, zero, false. */
  datatype Packet = Packet(
    opcode: uint16,
    fileName: Option<string>,
    mode: TftpMode,
    blockNumber: uint16,
    data: Option<seq<byte>>,
    errorCode: uint16,
    errorMessage: Option<string>,
    options: OptionMap,
    blockSize: int32,
    timeout: int32,
    tSize: int32,
    multicast: bool,
    windowSize: int32)

  /** TftpPacket(type): the type and an empty option set. */
  function Blank(opcode: uint16): Packet {
    Packet(opcode, None, Unknown, 0, None, 0, None, Empty, 0, 0, 0, false, 0)
  }

  // ---------------------------------------------------------------------------
  // Decoding

  /** The RFC 2347 loop of FromArray from `pos`: lower-cased name and value pairs added
      to `table`, until the end of the data or an empty name. */
  function ReadOptionsFrom(data: seq<byte>, pos: nat, table: OptionMap): Result<OptionMap>
    decreases |data| + 1 - pos
  {
    if pos >= |data| then Ok(table)
    else
      var name := ReadStringFrom(data, pos).value;
      var key := ToLower(name.value);
      if key == "" then Ok(table)
      else
        var value :- ReadStringFrom(data, name.next);
        ReadOptionsFrom(data, value.next, table.Add(key, value.value))
  }

  /** The read or write request fields: file name, mode, options, and the five option
      values looked up from them (-1 when absent or not a number). */
  function DecodeRequest(data: seq<byte>, p: Packet): Result<Packet> {
    var fileName :- ReadStringFrom(data, 2);
    var mode :- ReadStringFrom(data, fileName.next);
    var options :- ReadOptionsFrom(data, mode.next, p.options);
    Ok(p.(fileName := Some(fileName.value), mode := StringToMode(mode.value), options := options,
          blockSize := options.GetNumber("blksize", -1), timeout := options.GetNumber("timeout", -1),
          tSize := options.GetNumber("tsize", -1), multicast := options.Exists("multicast"),
          windowSize := options.GetNumber("windowsize", -1)))
  }

  /** What follows the opcode, by packet type; an option acknowledgment's body and an
      unknown type's are not read. */
  function DecodeBody(data: seq<byte>, p: Packet): Result<Packet> {
    if p.opcode == ReadRequest || p.opcode == WriteRequest then DecodeRequest(data, p)
    else if p.opcode == Data then
      var block :- ReadUInt16From(data, 2);
      var payload :- ReadToEndFrom(data, 4);
      Ok(p.(blockNumber := block.value, data := Some(payload)))
    else if p.opcode == Acknowledgment then
      var block :- ReadUInt16From(data, 2);
      Ok(p.(blockNumber := block.value))
    else if p.opcode == Error then
      var code :- ReadUInt16From(data, 2);
      var message :- ReadStringFrom(data, 4);
      Ok(p.(errorCode := code.value, errorMessage := Some(message.value)))
    else Ok(p)
  }

  /** FromArray: the opcode, then the body. */
  function Decode(data: seq<byte>): (r: Result<Packet>)
    ensures r.Ok? ==> |data| >= 2 && UInt16Bytes(r.value.opcode) == data[..2]
  {
    var opcode :- ReadUInt16From(data, 0);
    DecodeBody(data, Blank(opcode.value))
  }

  /** The option loop keeps the dictionary well formed. */
  lemma {:induction false} ReadOptionsValid(data: seq<byte>, pos: nat, table: OptionMap)
    requires table.Valid()
    ensures ReadOptionsFrom(data, pos, table).Ok? ==> ReadOptionsFrom(data, pos, table).value.Valid()
    decreases |data| + 1 - pos
  {
    if pos < |data| {
      var name := ReadStringFrom(data, pos).value;
      var key := ToLower(name.value);
      if key != "" && ReadStringFrom(data, name.next).Ok? {
        var value := ReadStringFrom(data, name.next).value;
        AddValid(table, key, value.value);
        ReadOptionsValid(data, value.next, table.Add(key, value.value));
      }
    }
  }

  /** A decoded packet's options are well formed. */
  lemma DecodedOptionsValid(data: seq<byte>)
    ensures Decode(data).Ok? ==> Decode(data).value.options.Valid()
  {
    EmptyValid();
    if Decode(data).Ok? && Decode(data).value.opcode in {ReadRequest, WriteRequest} {
      var fileName := ReadStringFrom(data, 2).value;
      var mode := ReadStringFrom(data, fileName.next).value;
      ReadOptionsValid(data, mode.next, Empty);
    }
  }

  // ---------------------------------------------------------------------------
  // Encoding

  /** One option as ToArray writes it: the name, then the value, each terminated. */
  function EncodeOption(name: string, value: string): seq<byte> {
    Terminated(name) + Terminated(value)
  }

  function EncodeOptions(table: OptionMap, names: seq<string>): seq<byte>
    requires forall i | 0 <= i < |names| :: names[i] in table.values
  {
    if names == [] then []
    else EncodeOption(names[0], table.values[names[0]]) + EncodeOptions(table, names[1..])
  }

  /** ToArray: the opcode, and for an option acknowledgment every option in enumeration
      order. A data packet without data fails while sizing the stream. */
  function Encode(p: Packet): (r: Result<seq<byte>>)
    requires p.options.Valid()
  {
    if p.opcode == Data && p.data.None? then Throw(NullReference)
    else if p.opcode == OptionAcknowledgment then
      Ok(UInt16Bytes(p.opcode) + EncodeOptions(p.options, p.options.names))
    else Ok(UInt16Bytes(p.opcode))
  }

  // ---------------------------------------------------------------------------
  // Properties

  lemma {:induction false} EncodeOptionsAppend(table: OptionMap, names: seq<string>, name: string)
    requires forall i | 0 <= i < |names| :: names[i] in table.values
    requires name in table.values
    ensures EncodeOptions(table, names + [name])
         == EncodeOptions(table, names) + EncodeOption(name, table.values[name])
  {
    if names != [] {
      assert (names + [name])[1..] == names[1..] + [name];
      EncodeOptionsAppend(table, names[1..], name);
    } else {
      assert (names + [name])[1..] == [];
    }
  }

  /** The bytes of the first `i + 1` options: those of the first `i`, then the next
      name and its value. */
  lemma EncodeOptionsNext(start: seq<byte>, table: OptionMap, names: seq<string>, i: nat)
    requires forall k | 0 <= k < |names| :: names[k] in table.values
    requires i < |names|
    ensures start + EncodeOptions(table, names[..i + 1])
         == start + EncodeOptions(table, names[..i]) + Terminated(names[i])
            + Terminated(table.values[names[i]])
  {
    EncodeOptionsAppend(table, names[..i], names[i]);
    assert names[..i + 1] == names[..i] + [names[i]];
  }

  /** The options ToArray can write so that the option loop reads them back: non-empty
      ASCII names and ASCII values, without NUL. */
  ghost predicate Transmissible(table: OptionMap) {
    && table.Valid()
    && (forall i | 0 <= i < |table.names| :: Sendable(table, table.names[i]))
  }

  /** The options `names` of `source` added in order to `table`. */
  function AddAll(table: OptionMap, source: OptionMap, names: seq<string>): OptionMap
    requires forall i | 0 <= i < |names| :: names[i] in source.values
    decreases |names|
  {
    if names == [] then table
    else AddAll(table.Add(names[0], source.values[names[0]]), source, names[1..])
  }

  /** The option loop ends at the end of the data and at a zero byte. */
  lemma ReadOptionsStop(data: seq<byte>, pos: nat, table: OptionMap)
    requires pos == |data| || (pos < |data| && data[pos] == 0)
    ensures ReadOptionsFrom(data, pos, table) == Ok(table)
  {
    if pos < |data| {
      assert StringEnd(data, pos) == pos;
    }
  }

  /** Bytes put between a prefix and a tail that is empty or starts with a zero byte. */
  lemma EncodedBetween(prefix: seq<byte>, bytes: seq<byte>, tail: seq<byte>)
    requires tail == [] || tail[0] == 0
    ensures EncodedAt(prefix + bytes + tail, |prefix|, bytes)
  {
    var data := prefix + bytes + tail;
    assert data[|prefix|..|prefix| + |bytes|] == bytes;
    assert |prefix| + |bytes| < |data| ==> data[|prefix| + |bytes|] == tail[0];
  }

  /** Bytes found at `pos` that are two pieces put together hold each piece in turn. */
  lemma SliceSplit(data: seq<byte>, pos: nat, a: seq<byte>, b: seq<byte>)
    requires pos + |a| + |b| <= |data| && data[pos..pos + |a| + |b|] == a + b
    ensures data[pos..pos + |a|] == a && data[pos + |a|..pos + |a| + |b|] == b
  {
    assert data[pos..pos + |a|] == (a + b)[..|a|];
    assert data[pos + |a|..pos + |a| + |b|] == (a + b)[|a|..];
  }

  /** One pass of the option loop: a non-empty name and its value are added. */
  lemma ReadOptionsStep(data: seq<byte>, pos: nat, table: OptionMap, name: Read<string>,
                        value: Read<string>)
    requires pos < |data| && ReadStringFrom(data, pos) == Ok(name) && ToLower(name.value) != ""
    requires ReadStringFrom(data, name.next) == Ok(value)
    ensures ReadOptionsFrom(data, pos, table)
         == ReadOptionsFrom(data, value.next, table.Add(ToLower(name.value), value.value))
  {
  }

  /** Where the option loop resumes after the option `name`, `value`. */
  function OptionEnd(pos: nat, name: string, value: string): nat {
    pos + |name| + |value| + 2
  }

  /** The two strings of an encoded option read back in turn. */
  lemma ReadOptionText(data: seq<byte>, pos: nat, name: string, value: string)
    requires IsAscii(name) && NoNul(name) && IsAscii(value) && NoNul(value)
    requires pos + |EncodeOption(name, value)| <= |data|
    requires data[pos..pos + |EncodeOption(name, value)|] == EncodeOption(name, value)
    ensures OptionRead(data, pos, name, value)
  {
    var middle := pos + |name| + 1;
    assert middle + |value| + 1 == OptionEnd(pos, name, value);
    SliceSplit(data, pos, Terminated(name), Terminated(value));
    ReadTerminated(data, pos, name);
    ReadTerminated(data, middle, value);
  }

  /** Option `name` of `source` is one the option loop reads back as written. */
  ghost predicate Sendable(source: OptionMap, name: string) {
    && name in source.values && name != "" && IsLower(name) && IsAscii(name) && NoNul(name)
    && IsAscii(source.values[name]) && NoNul(source.values[name])
  }

  /** Every one of `names` is sendable. */
  ghost predicate AllSendable(source: OptionMap, names: seq<string>)
    decreases |names|
  {
    names == [] || (Sendable(source, names[0]) && AllSendable(source, names[1..]))
  }

  lemma {:induction false} TransmissibleSendable(table: OptionMap, k: nat)
    requires Transmissible(table) && k <= |table.names|
    ensures AllSendable(table, table.names[k..])
    decreases |table.names| - k
  {
    if k < |table.names| {
      assert table.names[k..][1..] == table.names[k + 1..];
      TransmissibleSendable(table, k + 1);
    }
  }

  /** `bytes` sit at `pos` in `data`, followed by the end of the data or a zero byte. */
  ghost predicate EncodedAt(data: seq<byte>, pos: nat, bytes: seq<byte>) {
    && pos + |bytes| <= |data| && data[pos..pos + |bytes|] == bytes
    && (pos + |bytes| == |data| || data[pos + |bytes|] == 0)
  }

  /** Bytes found at `pos`, followed by the end or a zero byte, that are two pieces put
      together: the first piece at `pos`, the second likewise followed. */
  lemma EncodedSplit(data: seq<byte>, pos: nat, a: seq<byte>, b: seq<byte>)
    requires EncodedAt(data, pos, a + b)
    ensures pos + |a| <= |data| && data[pos..pos + |a|] == a && EncodedAt(data, pos + |a|, b)
  {
    SliceSplit(data, pos, a, b);
  }

  /** The option loop, at `pos`, reads the name `name` and then the value `value`. */
  ghost predicate OptionRead(data: seq<byte>, pos: nat, name: string, value: string) {
    && pos < |data|
    && ReadStringFrom(data, pos) == Ok(Read(name, pos + |name| + 1))
    && ReadStringFrom(data, pos + |name| + 1) == Ok(Read(value, OptionEnd(pos, name, value)))
  }

  /** The options `names` of `source` are read one after another from `pos`, and then
      the loop meets the end of the data or a zero byte. */
  ghost predicate OptionsAt(data: seq<byte>, pos: nat, source: OptionMap, names: seq<string>)
    decreases |names|
  {
    if names == [] then pos == |data| || (pos < |data| && data[pos] == 0)
    else
      && names[0] in source.values && names[0] != "" && IsLower(names[0])
      && OptionRead(data, pos, names[0], source.values[names[0]])
      && OptionsAt(data, OptionEnd(pos, names[0], source.values[names[0]]), source, names[1..])
  }

  /** Encoded options found at `pos` are read there one after another. */
  lemma {:induction false} EncodedOptionsAt(data: seq<byte>, pos: nat, source: OptionMap,
                                            names: seq<string>)
    requires (forall i | 0 <= i < |names| :: names[i] in source.values) && AllSendable(source, names)
    requires EncodedAt(data, pos, EncodeOptions(source, names))
    ensures OptionsAt(data, pos, source, names)
    decreases |names|
  {
    if names != [] {
      var name := names[0];
      var one := EncodeOption(name, source.values[name]);
      EncodedSplit(data, pos, one, EncodeOptions(source, names[1..]));
      ReadOptionText(data, pos, name, source.values[name]);
      assert pos + |one| == OptionEnd(pos, name, source.values[name]);
      EncodedOptionsAt(data, OptionEnd(pos, name, source.values[name]), source, names[1..]);
    }
  }

  /** The option loop reads encoded options back, in order. */
  lemma {:induction false} ReadEncodedOptions(data: seq<byte>, pos: nat, source: OptionMap,
                                              names: seq<string>, table: OptionMap)
    requires (forall i | 0 <= i < |names| :: names[i] in source.values)
    requires OptionsAt(data, pos, source, names)
    ensures ReadOptionsFrom(data, pos, table) == Ok(AddAll(table, source, names))
    decreases |names|
  {
    if names == [] {
      ReadOptionsStop(data, pos, table);
    } else {
      var name := names[0];
      ToLowerOfLower(name);
      ReadOptionsStep(data, pos, table, Read(name, pos + |name| + 1),
                      Read(source.values[name], OptionEnd(pos, name, source.values[name])));
      ReadEncodedOptions(data, OptionEnd(pos, name, source.values[name]), source, names[1..],
                         table.Add(name, source.values[name]));
    }
  }

  /** The first `k` options of `source`. */
  function Prefix(source: OptionMap, k: nat): OptionMap
    requires k <= |source.names|
  {
    OptionMap(source.names[..k], map name | name in source.names[..k] && name in source.values
                                    :: source.values[name])
  }

  /** Adding the options of a valid table to its own prefix rebuilds the table. */
  lemma {:induction false} AddAllRebuilds(source: OptionMap, k: nat)
    requires source.Valid() && k <= |source.names|
    ensures AddAll(Prefix(source, k), source, source.names[k..]) == source
    decreases |source.names| - k
  {
    if k == |source.names| {
      assert source.names[..k] == source.names;
      assert Prefix(source, k).values == source.values;
    } else {
      assert source.names[k..][0] == source.names[k];
      assert source.names[k..][1..] == source.names[k + 1..];
      PrefixNext(source, k);
      AddAllRebuilds(source, k + 1);
    }
  }

  /** Adding the next option to a prefix gives the next prefix. */
  lemma PrefixNext(source: OptionMap, k: nat)
    requires source.Valid() && k < |source.names|
    ensures Prefix(source, k).Add(source.names[k], source.values[source.names[k]])
         == Prefix(source, k + 1)
  {
    var name := source.names[k];
    ToLowerOfLower(name);
    assert name !in source.names[..k];
    var before := Prefix(source, k);
    var after := Prefix(source, k + 1);
    assert source.names[..k + 1] == source.names[..k] + [name];
    assert before.Add(name, source.values[name]).names == after.names;
    var added := before.Add(name, source.values[name]).values;
    forall n ensures n in added <==> n in after.values {
      assert n in source.names[..k + 1] <==> n in source.names[..k] || n == name;
    }
    assert added == after.values;
  }

  /** No option at all is the empty table. */
  lemma PrefixZero(source: OptionMap)
    ensures Prefix(source, 0) == Empty
  {
    assert Prefix(source, 0).values == map[];
  }

  /** The options of a valid table, written in enumeration order, read back into an empty
      table give the table again. */
  lemma ReadWrittenOptions(prefix: seq<byte>, options: OptionMap, tail: seq<byte>)
    requires Transmissible(options) && (tail == [] || tail[0] == 0)
    ensures ReadOptionsFrom(prefix + EncodeOptions(options, options.names) + tail, |prefix|, Empty)
         == Ok(options)
  {
    var data := prefix + EncodeOptions(options, options.names) + tail;
    EncodedBetween(prefix, EncodeOptions(options, options.names), tail);
    assert options.names[0..] == options.names;
    TransmissibleSendable(options, 0);
    EncodedOptionsAt(data, |prefix|, options, options.names);
    ReadEncodedOptions(data, |prefix|, options, options.names, Empty);
    PrefixZero(options);
    AddAllRebuilds(options, 0);
  }

  /** An option acknowledgment's body, read back with the option loop of a request,
      gives back exactly the options it was written from. */
  lemma OptionsRoundTrip(p: Packet)
    requires p.opcode == OptionAcknowledgment && Transmissible(p.options)
    ensures Encode(p).Ok? && ReadOptionsFrom(Encode(p).value, 2, Empty) == Ok(p.options)
  {
    ReadWrittenOptions(UInt16Bytes(p.opcode), p.options, []);
    assert UInt16Bytes(p.opcode) + EncodeOptions(p.options, p.options.names) + [] == Encode(p).value;
  }

  /** What DecodeRequest makes of the three reads it does. */
  lemma DecodeRequestOf(data: seq<byte>, p: Packet, fileName: Read<string>, mode: Read<string>,
                        options: OptionMap)
    requires ReadStringFrom(data, 2) == Ok(fileName)
    requires ReadStringFrom(data, fileName.next) == Ok(mode)
    requires ReadOptionsFrom(data, mode.next, p.options) == Ok(options)
    ensures DecodeRequest(data, p)
         == Ok(p.(fileName := Some(fileName.value), mode := StringToMode(mode.value),
                  options := options,
                  blockSize := options.GetNumber("blksize", -1),
                  timeout := options.GetNumber("timeout", -1),
                  tSize := options.GetNumber("tsize", -1),
                  multicast := options.Exists("multicast"),
                  windowSize := options.GetNumber("windowsize", -1)))
  {
  }

  /** The fixed part of a read or write request: opcode, file name and mode. */
  function RequestHead(opcode: uint16, fileName: string, mode: string): (r: seq<byte>)
    ensures |r| == |fileName| + |mode| + 4
  {
    UInt16Bytes(opcode) + Terminated(fileName) + Terminated(mode)
  }

  /** The fixed part of a request reads back whatever follows it. */
  lemma ReadRequestHead(opcode: uint16, fileName: string, mode: string, rest: seq<byte>)
    requires IsAscii(fileName) && NoNul(fileName) && IsAscii(mode) && NoNul(mode)
    ensures var data := RequestHead(opcode, fileName, mode) + rest;
      && ReadUInt16From(data, 0) == Ok(Read(opcode, 2))
      && ReadStringFrom(data, 2) == Ok(Read(fileName, |fileName| + 3))
      && ReadStringFrom(data, |fileName| + 3)
         == Ok(Read(mode, |RequestHead(opcode, fileName, mode)|))
  {
    var head := UInt16Bytes(opcode);
    var data := RequestHead(opcode, fileName, mode) + rest;
    assert data[..2] == head;
    assert data[2..|fileName| + 3] == Terminated(fileName);
    assert data[|fileName| + 3..|fileName| + |mode| + 4] == Terminated(mode);
    UInt16RoundTrip(opcode);
    ReadTerminated(data, 2, fileName);
    ReadTerminated(data, |fileName| + 3, mode);
  }

  /** A read or write request carrying a file name, a mode and options decodes to them;
      the option values are looked up from the options read. Anything after the options
      that starts with a zero byte is ignored. */
  lemma DecodeRequestBytes(opcode: uint16, fileName: string, mode: string, options: OptionMap,
                           tail: seq<byte>)
    requires opcode == ReadRequest || opcode == WriteRequest
    requires IsAscii(fileName) && NoNul(fileName) && IsAscii(mode) && NoNul(mode)
    requires Transmissible(options)
    requires tail == [] || tail[0] == 0
    ensures Decode(RequestHead(opcode, fileName, mode) + EncodeOptions(options, options.names) + tail)
         == Ok(Blank(opcode).(fileName := Some(fileName), mode := StringToMode(mode),
                              options := options,
                              blockSize := options.GetNumber("blksize", -1),
                              timeout := options.GetNumber("timeout", -1),
                              tSize := options.GetNumber("tsize", -1),
                              multicast := options.Exists("multicast"),
                              windowSize := options.GetNumber("windowsize", -1)))
  {
    var head := RequestHead(opcode, fileName, mode);
    var body := EncodeOptions(options, options.names);
    var data := head + body + tail;
    assert data == head + (body + tail);
    ReadRequestHead(opcode, fileName, mode, body + tail);
    ReadWrittenOptions(head, options, tail);
    assert Blank(opcode).options == Empty;
    DecodeRequestOf(data, Blank(opcode), Read(fileName, |fileName| + 3), Read(mode, |head|), options);
  }

  /** A data packet decodes to its block number and every byte after it. */
  lemma DecodeDataBytes(block: uint16, payload: seq<byte>)
    ensures Decode(UInt16Bytes(Data) + UInt16Bytes(block) + payload)
         == Ok(Blank(Data).(blockNumber := block, data := Some(payload)))
  {
    var data := UInt16Bytes(Data) + UInt16Bytes(block) + payload;
    ReadWrittenUInt16([], Data, UInt16Bytes(block) + payload);
    assert data == [] + UInt16Bytes(Data) + (UInt16Bytes(block) + payload);
    ReadWrittenUInt16(UInt16Bytes(Data), block, payload);
    assert data[4..] == payload;
  }

  /** An acknowledgment decodes to its block number; anything after it is ignored. */
  lemma DecodeAckBytes(block: uint16, tail: seq<byte>)
    ensures Decode(UInt16Bytes(Acknowledgment) + UInt16Bytes(block) + tail)
         == Ok(Blank(Acknowledgment).(blockNumber := block))
  {
    var data := UInt16Bytes(Acknowledgment) + UInt16Bytes(block) + tail;
    ReadWrittenUInt16([], Acknowledgment, UInt16Bytes(block) + tail);
    assert data == [] + UInt16Bytes(Acknowledgment) + (UInt16Bytes(block) + tail);
    ReadWrittenUInt16(UInt16Bytes(Acknowledgment), block, tail);
  }

  /** An error packet decodes to its code and message; anything after the message's
      terminator is ignored. */
  lemma DecodeErrorBytes(code: uint16, message: string, tail: seq<byte>)
    requires IsAscii(message) && NoNul(message)
    ensures Decode(UInt16Bytes(Error) + UInt16Bytes(code) + Terminated(message) + tail)
         == Ok(Blank(Error).(errorCode := code, errorMessage := Some(message)))
  {
    var data := UInt16Bytes(Error) + UInt16Bytes(code) + Terminated(message) + tail;
    ReadWrittenUInt16([], Error, UInt16Bytes(code) + Terminated(message) + tail);
    assert data == [] + UInt16Bytes(Error) + (UInt16Bytes(code) + Terminated(message) + tail);
    ReadWrittenUInt16(UInt16Bytes(Error), code, Terminated(message) + tail);
    assert data == UInt16Bytes(Error) + UInt16Bytes(code) + (Terminated(message) + tail);
    ReadWrittenString(UInt16Bytes(Error) + UInt16Bytes(code), message, tail);
  }

  /** Fewer than two bytes hold no opcode. */
  lemma DecodeShort(data: seq<byte>)
    ensures Decode(data).Throw? <== |data| < 2
  {
  }

  /** ToArray writes nothing after the opcode except for an option acknowledgment, so
      only packets whose type has no body to read decode from it again, and then to a
      packet with nothing but the type. */
  lemma EncodeThenDecode(p: Packet)
    requires p.options.Valid() && Encode(p).Ok?
    ensures Decode(Encode(p).value).Ok?
        <==> p.opcode !in {ReadRequest, WriteRequest, Data, Acknowledgment, Error}
    ensures Decode(Encode(p).value).Ok? ==> Decode(Encode(p).value).value == Blank(p.opcode)
  {
    var bytes := Encode(p).value;
    ReadWrittenUInt16([], p.opcode, bytes[2..]);
    assert bytes == [] + UInt16Bytes(p.opcode) + bytes[2..];
    if p.opcode != OptionAcknowledgment {
      assert |bytes| == 2;
      if p.opcode == ReadRequest || p.opcode == WriteRequest {
        assert ReadStringFrom(bytes, 2).value.next == 3;
      }
    }
  }

  // ---------------------------------------------------------------------------
  // The class

  class TftpPacket {
    var opcode: uint16
    var fileName: Option<string>
    var mode: TftpMode
    var blockNumber: uint16
    var data: Option<seq<byte>>
    var errorCode: uint16
    var errorMessage: Option<string>
    var options: TftpPacketOptions
    var blockSize: int32
    var timeout: int32
    var tSize: int32
    var multicast: bool
    var windowSize: int32

    ghost predicate Valid()
      reads this, options
    {
      options.Valid()
    }

    /** The properties as a value. */
    function Value(): Packet
      reads this, options
    {
      Packet(opcode, fileName, mode, blockNumber, data, errorCode, errorMessage, options.table,
             blockSize, timeout, tSize, multicast, windowSize)
    }

    /** TftpPacket(type). */
    constructor (opcode: uint16)
      ensures fresh(options) && Valid() && Value() == Blank(opcode)
    {
      this.opcode := opcode;
      fileName, mode, blockNumber, data := None, Unknown, 0, None;
      errorCode, errorMessage := 0, None;
      options := new TftpPacketOptions();
      blockSize, timeout, tSize, multicast, windowSize := 0, 0, 0, false, 0;
    }

    /** The state FromArray leaves behind when every read succeeds. */
    constructor Of(p: Packet, options: TftpPacketOptions)
      requires options.Valid()
      ensures this.options == options && Valid() && Value() == p.(options := options.table)
    {
      opcode, fileName, mode, blockNumber := p.opcode, p.fileName, p.mode, p.blockNumber;
      data, errorCode, errorMessage := p.data, p.errorCode, p.errorMessage;
      this.options := options;
      blockSize, timeout, tSize := p.blockSize, p.timeout, p.tSize;
      multicast, windowSize := p.multicast, p.windowSize;
    }

    /** TftpPacket(data, dataLength), which runs FromArray(data, dataLength). The
        length is only compared with 4 for a log line: the whole array is decoded. A
        read that throws makes the constructor throw, so no packet comes out. */
    static method FromArray(data: seq<byte>, dataLength: int) returns (r: Result<TftpPacket>)
      ensures r.Ok? <==> Decode(data).Ok?
      ensures r.Ok? ==> fresh(r.value) && fresh(r.value.options) && r.value.Valid()
                        && r.value.Value() == Decode(data).value
    {
      var options := new TftpPacketOptions();
      var reader := new TftpPacketReader(data);
      var opcode := reader.ReadUInt16();
      if opcode.Throw? {
        return Throw(opcode.exception);
      }
      var decoded := ReadBody(reader, options, Blank(opcode.value));
      if decoded.Throw? {
        return Throw(decoded.exception);
      }
      var packet := new TftpPacket.Of(decoded.value, options);
      r := Ok(packet);
    }

    /** The `switch` of FromArray on the packet type. */
    static method ReadBody(reader: TftpPacketReader, options: TftpPacketOptions, p: Packet)
      returns (r: Result<Packet>)
      requires reader.Valid() && reader.pos == 2 && options.Valid() && options.table == p.options
      modifies reader, options
      ensures options.Valid()
      ensures SameOutcome(r, DecodeBody(reader.data, p))
      ensures r.Ok? ==> r.value.options == options.table
    {
      if p.opcode == ReadRequest || p.opcode == WriteRequest {
        r := ReadRequestFields(reader, options, p);
      } else if p.opcode == Data {
        var block := reader.ReadUInt16();
        if block.Throw? {
          return Throw(block.exception);
        }
        var payload := reader.ReadToEnd();
        r := Ok(p.(blockNumber := block.value, data := Some(payload.value)));
      } else if p.opcode == Acknowledgment {
        var block := reader.ReadUInt16();
        if block.Throw? {
          return Throw(block.exception);
        }
        r := Ok(p.(blockNumber := block.value));
      } else if p.opcode == Error {
        var code := reader.ReadUInt16();
        if code.Throw? {
          return Throw(code.exception);
        }
        var message := reader.ReadString();
        r := Ok(p.(errorCode := code.value, errorMessage := Some(message.value)));
      } else {
        r := Ok(p);
      }
    }

    /** The read and write request case: file name, mode, the option loop, then the
        option values looked up. */
    static method ReadRequestFields(reader: TftpPacketReader, options: TftpPacketOptions, p: Packet)
      returns (r: Result<Packet>)
      requires reader.Valid() && reader.pos == 2 && options.Valid() && options.table == p.options
      requires p.opcode == ReadRequest || p.opcode == WriteRequest
      modifies reader, options
      ensures options.Valid()
      ensures SameOutcome(r, DecodeRequest(reader.data, p))
      ensures r.Ok? ==> r.value.options == options.table
    {
      var fileName := reader.ReadString();
      if fileName.Throw? {
        return Throw(fileName.exception);
      }
      var mode := reader.ReadString();
      if mode.Throw? {
        return Throw(mode.exception);
      }
      var done := ReadOptionList(reader, options);
      if done.Throw? {
        return Throw(done.exception);
      }
      var t := options.table;
      r := Ok(p.(fileName := Some(fileName.value), mode := StringToMode(mode.value), options := t,
                 blockSize := t.GetNumber("blksize", -1), timeout := t.GetNumber("timeout", -1),
                 tSize := t.GetNumber("tsize", -1), multicast := t.Exists("multicast"),
                 windowSize := t.GetNumber("windowsize", -1)));
    }

    /** The RFC 2347 `while (!reader.EndOfStream())` loop. */
    static method ReadOptionList(reader: TftpPacketReader, options: TftpPacketOptions)
      returns (r: Result<()>)
      requires reader.Valid() && options.Valid()
      modifies reader, options
      ensures options.Valid()
      ensures r.Ok? <==> ReadOptionsFrom(reader.data, old(reader.pos), old(options.table)).Ok?
      ensures r.Ok? ==> options.table == ReadOptionsFrom(reader.data, old(reader.pos), old(options.table)).value
    {
      while true
        invariant reader.Valid() && options.Valid()
        invariant ReadOptionsFrom(reader.data, reader.pos, options.table)
               == ReadOptionsFrom(reader.data, old(reader.pos), old(options.table))
        decreases |reader.data| + 1 - reader.pos
      {
        var atEnd := reader.EndOfStream();
        if atEnd {
          break;
        }
        var name := reader.ReadString();
        var key := ToLower(name.value);
        if key == "" {
          break;
        }
        var value := reader.ReadString();
        if value.Throw? {
          return Throw(value.exception);
        }
        options.Add(key, value.value);
      }
      r := Ok(());
    }

    /** ToArray: a growable writer, the opcode, the options of an acknowledgment. */
    method ToArray() returns (r: Result<seq<byte>>)
      requires Valid()
      ensures r == Encode(Value())
    {
      if opcode == Data && data.None? {
        return Throw(NullReference);
      }
      var capacity := if opcode == Data then |data.value| + 4 else 1024;
      var writer := new TftpPacketWriter(capacity);
      writer.WriteUInt16(opcode);
      assert writer.written == UInt16Bytes(opcode);
      if opcode == OptionAcknowledgment {
        WriteOptionList(writer);
      }
      var bytes := writer.ToArray();
      assert Value().opcode == opcode && Value().options == options.table;
      r := Ok(bytes);
    }

    /** The `foreach` over GetNames() in ToArray: each name and its GetString value. */
    method WriteOptionList(writer: TftpPacketWriter)
      requires writer.Valid() && writer.buffer == null && options.Valid()
      modifies writer
      ensures writer.Valid()
      ensures writer.written == old(writer.written) + EncodeOptions(options.table, options.table.names)
    {
      var table := options.table;
      var names := table.GetNames();
      ghost var start := writer.written;
      for i := 0 to |names|
        invariant writer.Valid()
        invariant writer.written == start + EncodeOptions(table, names[..i])
      {
        var name := names[i];
        writer.WriteString(name);
        ToLowerOfLower(name);
        var value := table.GetString(name, None);
        writer.WriteString(value.value);
        EncodeOptionsNext(start, table, names, i);
      }
      assert names[..|names|] == names;
    }
  }
}
