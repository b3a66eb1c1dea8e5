# PXE boot server core in Dafny

This project models the core of a small PXE boot server written in C#. The server has two
parts.

**A proxy DHCP server.** It listens on ports 67 and 4011 and answers only clients whose
vendor class identifier (option 60) starts with `PXEClient`:
- a Discover gets an Offer, broadcast to port 68;
- a Request on port 4011 gets an Ack that names the boot file for the client's
  architecture (option 93).

**A read-only TFTP server.** It answers a read request with an option acknowledgment
(OACK), then sends one DATA block for each acknowledgment it receives.

The model covers the byte-exact codecs of both protocols and the decisions the two servers
take. Each is built on these standards:

| Part | Standards |
|---|---|
| BOOTP header | section 3 of RFC 951 |
| Magic cookie, options | sections 2, 3.1 and 3.2 of RFC 2132 |
| Client architecture | section 2.1 of RFC 4578 |
| TFTP packets | section 5 of RFC 1350 |
| Option extension | RFC 2347, with the option names of RFC 2348 and RFC 2349 |

**Module layout.** There is one module per source file:
- `DhcpReading`, `DhcpWriting`, `DhcpOptions`, `DhcpPackets` and `DhcpServers`;
- `TftpReading`, `TftpWriting`, `TftpOptions`, `TftpPackets` and `TftpServers`;
- two shared modules: `Wrappers` holds the result types and the .NET exceptions, and `Wire`
  holds the byte types, network byte order, `Encoding.ASCII`, decimal text,
  `Int32.TryParse` and the wrap of unchecked Int32 arithmetic.

**Classes and specification functions.** Every C# class that updates its own fields is a
Dafny class with those fields:
- the readers keep their cursor;
- the writers keep the stream contents, and over a caller's array they write in place;
- the option dictionaries hold their table;
- the packets hold their header fields;
- the TFTP server holds its session fields `_fileInfo`, `_blockSize`, `_fileBlock` (an
  `array`) and `_timeout`.

Each method is proved equal to a pure specification function, for example:
- `ReadStringAt` and `Decode` for the DHCP codec;
- `Respond` for the DHCP server;
- `ReadRequestStep` and `AckStep` for the TFTP session.

The lemmas then state what the source promises about those functions:
- the encode/decode round trips;
- the fixed layout of the BOOTP header;
- field truncation and padding;
- last-write-wins in both option dictionaries;
- the admission filter and the replies of the DHCP proxy;
- the option acknowledgment;
- the block arithmetic of the TFTP transfer.

**Exceptions.** An exception the C# code can throw is a `Throw(e)` result. The UDP worker
catches and logs every exception and drops the datagram. The server methods are therefore
compared with their specifications by `SameOutcome`, which ignores which exception was
thrown. Sending is a returned datagram: the bytes, plus the destination for DHCP.

**Behaviours kept as written.** The model keeps two behaviours of the source exactly as they
are, and proves them:
- `TftpServers.ExactMultipleEnds`: a file whose length is an exact multiple of the block
  size ends without the empty final DATA block of RFC 1350. Its last DATA block is full,
  and the acknowledgment of that block sends nothing (`TftpServers.AckFinished`).
- `TftpServers.DoubleSeparatorEscapes`: a file name that starts with two separators is
  resolved from the root of the drive, not under the server's root directory.

## Model

| member | source | states |
|---|---|---|
| DhcpReading.ReadByteAt | src/Bootp/Dhcp/DhcpPacketReader.cs:30-33 | ReadByte succeeds exactly when the cursor is before the end, yields the byte there and advances by one |
| DhcpReading.ReadBytesAt | src/Bootp/Dhcp/DhcpPacketReader.cs:66-69 | ReadBytes yields the bytes at the cursor, exactly `count` of them exactly when that many remain, and advances past them |
| DhcpReading.ReadUInt16At | src/Bootp/Dhcp/DhcpPacketReader.cs:35-39 | ReadUInt16 succeeds exactly when two bytes remain, yields the next two bytes read most significant first, and advances by two |
| DhcpReading.ReadUInt32At | src/Bootp/Dhcp/DhcpPacketReader.cs:41-45 | ReadUInt32 succeeds exactly when four bytes remain, yields the next four bytes read most significant first, and advances by four |
| DhcpReading.ReadIpAddressAt | src/Bootp/Dhcp/DhcpPacketReader.cs:60-64 | ReadIpAddress succeeds exactly when four bytes remain, yields those four bytes and advances by four |
| DhcpReading.ReadStringAt | src/Bootp/Dhcp/DhcpPacketReader.cs:47-58 | a successful ReadString(n) leaves the cursor n bytes on, or at the end of a shorter stream |
| DhcpReading.ReadStringField | src/Bootp/Dhcp/DhcpPacketReader.cs:47-58 | a whole field consumes exactly n bytes and yields the text before its first zero byte; a field starting with zero yields "" |
| DhcpReading.ReadStringFails | src/Bootp/Dhcp/DhcpPacketReader.cs:47-58 | ReadString throws exactly when the stream ends inside the field and no zero byte came first |
| DhcpReading.DhcpPacketReader.ReadByte | src/Bootp/Dhcp/DhcpPacketReader.cs:30-33 | the method yields what ReadByteAt says and moves the cursor to its next position |
| DhcpReading.DhcpPacketReader.ReadUInt16 | src/Bootp/Dhcp/DhcpPacketReader.cs:35-39 | the method yields what ReadUInt16At says and moves the cursor accordingly |
| DhcpReading.DhcpPacketReader.ReadUInt32 | src/Bootp/Dhcp/DhcpPacketReader.cs:41-45 | the method yields what ReadUInt32At says and moves the cursor accordingly |
| DhcpReading.DhcpPacketReader.ReadBytes | src/Bootp/Dhcp/DhcpPacketReader.cs:66-69 | the method yields what ReadBytesAt says and moves the cursor past the bytes read |
| DhcpReading.DhcpPacketReader.ReadString | src/Bootp/Dhcp/DhcpPacketReader.cs:47-58 | the counting loop over the field yields what ReadStringAt says |
| DhcpReading.DhcpPacketReader.ReadIpAddress | src/Bootp/Dhcp/DhcpPacketReader.cs:60-64 | the method yields what ReadIpAddressAt says and moves the cursor accordingly |
| DhcpWriting.PaddedFieldShape | src/Bootp/Dhcp/DhcpPacketWriter.cs:52-60 | WriteString(s, n) writes exactly n bytes: the first min(\|s\|, n-1) ASCII bytes of s, then zeros, so the last byte is always zero |
| DhcpWriting.StoredFieldTruncates | src/Bootp/Dhcp/DhcpPacketWriter.cs:55-59 | an ASCII string without NUL reads back cut to n-1 characters |
| DhcpWriting.StoredFieldExact | src/Bootp/Dhcp/DhcpPacketWriter.cs:52-60 | an ASCII string without NUL shorter than the field reads back unchanged |
| DhcpWriting.StoredFieldStable | src/Bootp/Dhcp/DhcpPacketWriter.cs:52-60 | whatever is written, the text read back is ASCII, has no NUL and is shorter than the field |
| DhcpWriting.WriteStringReadString | src/Bootp/Dhcp/DhcpPacketReader.cs:47-58 | the reader's ReadString(n) of the writer's WriteString(s, n), between any bytes, yields s and consumes n bytes |
| DhcpWriting.DhcpPacketWriter.ToArray | src/Bootp/Dhcp/DhcpPacketWriter.cs:30-33 | ToArray yields everything written so far |
| DhcpWriting.DhcpPacketWriter.WriteByte | src/Bootp/Dhcp/DhcpPacketWriter.cs:35-38 | appends the byte |
| DhcpWriting.DhcpPacketWriter.WriteUInt16 | src/Bootp/Dhcp/DhcpPacketWriter.cs:40-44 | appends the two bytes of the value, most significant first |
| DhcpWriting.DhcpPacketWriter.WriteUInt32 | src/Bootp/Dhcp/DhcpPacketWriter.cs:46-50 | appends the four bytes of the value, most significant first |
| DhcpWriting.DhcpPacketWriter.WriteString | src/Bootp/Dhcp/DhcpPacketWriter.cs:52-60 | appends the padded field of n bytes |
| DhcpWriting.DhcpPacketWriter.WriteIpAddress | src/Bootp/Dhcp/DhcpPacketWriter.cs:62-66 | appends the four address bytes unchanged |
| DhcpWriting.DhcpPacketWriter.WriteBytes | src/Bootp/Dhcp/DhcpPacketWriter.cs:68-71 | appends the bytes |
| DhcpOptions.OptionTable.Set | src/Bootp/Dhcp/DhcpPacketOptions.cs:104-108 | SetBytes keeps the dictionary well formed: every id enumerated exactly once |
| DhcpOptions.Without | src/Bootp/Dhcp/DhcpPacketOptions.cs:32-35 | removing an id from the enumeration keeps every other id and only those |
| DhcpOptions.EmptyValid | src/Bootp/Dhcp/DhcpPacketOptions.cs:11 | a new dictionary is well formed, enumerates nothing and holds no id |
| DhcpOptions.SetThenGet | src/Bootp/Dhcp/DhcpPacketOptions.cs:104-108 | after SetBytes(id, b), GetBytes(id) is b and Exists(id) holds, every other id reads as before, and the table stays well formed |
| DhcpOptions.SetOverwrites | src/Bootp/Dhcp/DhcpPacketOptions.cs:107 | last write wins: setting an id twice equals setting it once with the second value; an existing id keeps the enumeration, a new one is appended |
| DhcpOptions.ClearForgets | src/Bootp/Dhcp/DhcpPacketOptions.cs:22-30 | after Clear nothing exists, GetIds is empty and the getters give their defaults |
| DhcpOptions.RemoveForgets | src/Bootp/Dhcp/DhcpPacketOptions.cs:32-35 | after Remove(id), id is absent, every other id reads as before, and the table stays well formed |
| DhcpOptions.RemoveKeepsDistinct | src/Bootp/Dhcp/DhcpPacketOptions.cs:32-35 | removing an id from an enumeration without repeats leaves one without repeats |
| DhcpOptions.GetIdsExact | src/Bootp/Dhcp/DhcpPacketOptions.cs:17-20 | GetIds lists exactly the stored ids, each once, as many as the dictionary holds |
| DhcpOptions.DistinctCount | src/Bootp/Dhcp/DhcpPacketOptions.cs:17-20 | an enumeration without repeats is as long as the set of ids it lists |
| DhcpOptions.MissingGivesDefault | src/Bootp/Dhcp/DhcpPacketOptions.cs:39-69 | on a missing id: GetByte gives 0, GetString and GetBytes give null, GetUInt16 and GetUInt32 give the byte-swapped default, so 0 gives 0 |
| DhcpOptions.SetGetUInt16 | src/Bootp/Dhcp/DhcpPacketOptions.cs:44-48 | GetUInt16 of the two big-endian bytes SetUInt16 stores gives the value back |
| DhcpOptions.SetGetUInt32 | src/Bootp/Dhcp/DhcpPacketOptions.cs:50-54 | GetUInt32 of the four big-endian bytes SetUInt32 stores gives the value back |
| DhcpOptions.SetGetByte | src/Bootp/Dhcp/DhcpPacketOptions.cs:39-42 | GetByte gives the byte SetByte stored, and in general the first byte of any non-empty payload |
| DhcpOptions.SetGetString | src/Bootp/Dhcp/DhcpPacketOptions.cs:56-59 | GetString gives back an ASCII string SetString stored |
| DhcpOptions.SetGetIpAddress | src/Bootp/Dhcp/DhcpPacketOptions.cs:61-64 | GetIpAAddress gives back the address SetIpAAddress stored |
| DhcpOptions.DhcpPacketOptions.Clear | src/Bootp/Dhcp/DhcpPacketOptions.cs:22-25 | the dictionary becomes the empty table |
| DhcpOptions.DhcpPacketOptions.Remove | src/Bootp/Dhcp/DhcpPacketOptions.cs:32-35 | returns whether the id was present, and the table loses the id |
| DhcpOptions.DhcpPacketOptions.SetBytes | src/Bootp/Dhcp/DhcpPacketOptions.cs:104-108 | the table becomes the table with the id set to the payload, and stays well formed |
| DhcpOptions.DhcpPacketOptions.SetByte | src/Bootp/Dhcp/DhcpPacketOptions.cs:75-78 | stores a one-byte payload |
| DhcpOptions.DhcpPacketOptions.SetUInt16 | src/Bootp/Dhcp/DhcpPacketOptions.cs:80-84 | stores the two big-endian bytes of the value |
| DhcpOptions.DhcpPacketOptions.SetUInt32 | src/Bootp/Dhcp/DhcpPacketOptions.cs:86-90 | stores the four big-endian bytes of the value |
| DhcpOptions.DhcpPacketOptions.SetString | src/Bootp/Dhcp/DhcpPacketOptions.cs:92-96 | stores the ASCII bytes of the string |
| DhcpOptions.DhcpPacketOptions.SetIpAddress | src/Bootp/Dhcp/DhcpPacketOptions.cs:98-102 | stores the four address bytes |
| DhcpPackets.ReadOptions | src/Bootp/Dhcp/DhcpPacket.cs:84-100 | the option loop keeps the dictionary well formed |
| DhcpPackets.Decode | src/Bootp/Dhcp/DhcpPacket.cs:46-102 | a decoded packet's options are well formed |
| DhcpPackets.ReadOptionsEntry | src/Bootp/Dhcp/DhcpPacket.cs:84-100 | an id other than Pad and End reads a length byte and that many payload bytes (fewer at the end of the data), and overwrites an earlier entry with the same id |
| DhcpPackets.ReadOptionsIgnoresTail | src/Bootp/Dhcp/DhcpPacket.cs:92-95 | bytes after a decoded option list's End are never read |
| DhcpPackets.ReadOptionsWellFormed | src/Bootp/Dhcp/DhcpPacket.cs:84-100 | decoded ids are never Pad or End, and their payloads are shorter than 256 bytes |
| DhcpPackets.ReadEncodedOptions | src/Bootp/Dhcp/DhcpPacket.cs:84-100 | the loop over encoded options followed by End sets them one after the other, whatever follows |
| DhcpPackets.SetAllRebuilds | src/Bootp/Dhcp/DhcpPacket.cs:84-100 | setting the options of a table in its enumeration order rebuilds it, order included |
| DhcpPackets.PrefixGrows | src/Bootp/Dhcp/DhcpPacket.cs:84-100 | setting the next enumerated option on the first k gives the first k + 1 |
| DhcpPackets.EncodeOptionsAppend | src/Bootp/Dhcp/DhcpPacket.cs:126-134 | one more id in the foreach appends its id, length byte and payload |
| DhcpPackets.EncodeOptionsSize | src/Bootp/Dhcp/DhcpPacket.cs:126-134 | the encoded options take two bytes plus the payload each |
| DhcpPackets.DecodeLong | src/Bootp/Dhcp/DhcpPacket.cs:63-100 | with at least 240 bytes the header is read at fixed offsets, and decoding fails only in the option list |
| DhcpPackets.ShortDataFails | src/Bootp/Dhcp/DhcpPacket.cs:53-56 | data of 240 bytes or fewer never decodes: the too-short check only logs, and the option loop runs out of data |
| DhcpPackets.DecodeLayout | src/Bootp/Dhcp/DhcpPacket.cs:63-100 | decoding succeeds exactly when there are more than 240 bytes and the option list decodes; the fields then sit at widths 1,1,1,1,4,2,2,4×4,16,64,128, with the options from 240 |
| DhcpPackets.CookieIgnored | src/Bootp/Dhcp/DhcpPacket.cs:78-82 | a wrong magic cookie does not change the decoded packet |
| DhcpPackets.TrailingBytesIgnored | src/Bootp/Dhcp/DhcpPacket.cs:92-95 | bytes after End do not change the decoded packet |
| DhcpPackets.DecodedWellFormed | src/Bootp/Dhcp/DhcpPacket.cs:63-100 | a decoded packet has a 16-byte chaddr, well-formed options, and sname and file that are ASCII, have no NUL and fit their fields |
| DhcpPackets.FieldTextClean | src/Bootp/Dhcp/DhcpPacketReader.cs:47-58 | the text of a field is ASCII, has no NUL and is no longer than the field |
| DhcpPackets.EncodeHeaderLayout | src/Bootp/Dhcp/DhcpPacket.cs:109-122 | the header is 236 bytes, with every field at its fixed offset |
| DhcpPackets.EncodeLayout | src/Bootp/Dhcp/DhcpPacket.cs:104-140 | the encoding is the header, the cookie 0x63825363 at 236, the options from 240 and exactly one End; its length is 240 + Σ(2 + \|payload\|) + 1 |
| DhcpPackets.DecodeEncodedOptions | src/Bootp/Dhcp/DhcpPacket.cs:84-100 | the option list of an encoded well-formed packet decodes to its table |
| DhcpPackets.RoundTrip | src/Bootp/Dhcp/DhcpPacket.cs:46-140 | decoding an encoded well-formed packet gives it back, except that sname and file come back as stored in their fields |
| DhcpPackets.ExactRoundTrip | src/Bootp/Dhcp/DhcpPacket.cs:46-140 | with ASCII sname and file without NUL shorter than 64 and 128, decode(encode(p)) == p |
| DhcpPackets.CopyOfDecoded | src/Bootp/Dhcp/DhcpPacket.cs:41-44 | the copy of a decoded packet keeps every field, except that a sname of 64 characters and a file of 128 characters each lose their last one |
| DhcpPackets.CopyIsStable | src/Bootp/Dhcp/DhcpPacket.cs:41-44 | a copy of a copy equals the copy |
| DhcpPackets.DhcpPacket.FromArray | src/Bootp/Dhcp/DhcpPacket.cs:36-102 | the constructor succeeds exactly when Decode does, and the fresh packet holds the decoded fields |
| DhcpPackets.DhcpPacket.ReadHeader | src/Bootp/Dhcp/DhcpPacket.cs:63-74 | the numeric fields, the four addresses and chaddr read succeed exactly with 28 bytes; with 44 they are the fields at their fixed offsets |
| DhcpPackets.DhcpPacket.ReadNames | src/Bootp/Dhcp/DhcpPacket.cs:75-82 | sname, file and the cookie read succeed exactly with 240 bytes, yielding the texts of bytes 44-108 and 108-236 |
| DhcpPackets.DhcpPacket.ReadOptionList | src/Bootp/Dhcp/DhcpPacket.cs:84-100 | the `while (true)` loop gives exactly what ReadOptions gives on the rest of the stream |
| DhcpPackets.DhcpPacket.ReadOption | src/Bootp/Dhcp/DhcpPacket.cs:86-99 | one pass of the loop either throws as ReadOptions does, or stops as ReadOptions stops, or moves on and leaves the rest equal |
| DhcpPackets.DhcpPacket.ToArray | src/Bootp/Dhcp/DhcpPacket.cs:104-140 | the bytes written are Encode of the packet |
| DhcpPackets.DhcpPacket.WriteHeader | src/Bootp/Dhcp/DhcpPacket.cs:109-122 | the header writes produce EncodeHeader of the packet |
| DhcpPackets.DhcpPacket.WriteOptionList | src/Bootp/Dhcp/DhcpPacket.cs:126-134 | the foreach appends the options in enumeration order |
| DhcpPackets.DhcpPacket.Copy | src/Bootp/Dhcp/DhcpPacket.cs:41-44 | the copy constructor is decode(encode(original)) |
| DhcpServers.ResponseOf | src/Bootp/Dhcp/DhcpServer.cs:53-69 | the response made from a request has well-formed options |
| DhcpServers.AsResponse | src/Bootp/Dhcp/DhcpServer.cs:61-66 | the changes to the copy leave well-formed options |
| DhcpServers.RepliesExactly | src/Bootp/Dhcp/DhcpServer.cs:18-51 | a datagram goes out exactly when the request decodes, its logged getters do not throw and it is a PXE client, and then either it is a Discover, or it is a Request on port 4011 whose architecture has a boot file name set |
| DhcpServers.ResponseOfDecoded | src/Bootp/Dhcp/DhcpServer.cs:53-69 | the response to a decoded request is the request with op 2, the server name, the cut file and the options {53: 0, 54: address} |
| DhcpServers.DiscoverAnswered | src/Bootp/Dhcp/DhcpServer.cs:71-78 | a PXE Discover on any port is answered with the encoded Offer sent to 255.255.255.255:68 |
| DhcpServers.DiscoverOffer | src/Bootp/Dhcp/DhcpServer.cs:53-78 | the Offer decodes to the request with op 2, flags 0x8000, sname "Vurdalakov.PxeServer." + the address, options exactly {53: 2, 54: address, 60: "PXEClient"}, and xid, chaddr and the addresses unchanged |
| DhcpServers.ReplyDecodes | src/Bootp/Dhcp/DhcpServer.cs:106-119 | an answer built from a decoded request decodes back to itself, with its file as stored |
| DhcpServers.CutFileStored | src/Bootp/Dhcp/DhcpPacket.cs:41-44 | the file of a decoded request, as the copy cuts it, is stored unchanged |
| DhcpServers.RequestAnswered | src/Bootp/Dhcp/DhcpServer.cs:80-104 | a PXE Request on port 4011 is answered with the encoded Ack sent to ciaddr:4011, or not at all when the chosen boot file name is null |
| DhcpServers.RequestAck | src/Bootp/Dhcp/DhcpServer.cs:80-104 | the Ack decodes to the request with op 2, flags 0, siaddr the server, options exactly {53: 5, 54: address}; the file is the 32-bit name for architecture 6, the 64-bit name for 7 and 9, and the request's own file otherwise |
| DhcpServers.RequestElsewhereIgnored | src/Bootp/Dhcp/DhcpServer.cs:39-44 | a Request that did not arrive on port 4011 gets no answer |
| DhcpServers.NonPxeIgnored | src/Bootp/Dhcp/DhcpServer.cs:25-30 | a request whose option 60 is missing, empty or does not start with "PXEClient" gets no answer on any port |
| DhcpServers.ServerNameClean | src/Bootp/Dhcp/DhcpServer.cs:62 | the server name is ASCII, has no NUL and fits the 64-byte sname field |
| DhcpServers.DottedTextShort | src/Bootp/Dhcp/DhcpServer.cs:62 | the dotted-decimal address is at most 15 digits and dots |
| DhcpServers.ServerTable | src/Bootp/Dhcp/DhcpServer.cs:64-66 | Clear, SetByte(53, 0) and SetIpAAddress(54) leave exactly those two options |
| DhcpServers.OfferTable | src/Bootp/Dhcp/DhcpServer.cs:75 | SetString(60) and then SetByte(53, 2) give the Offer's options, with 53 overwritten in place |
| DhcpServers.AckTable | src/Bootp/Dhcp/DhcpServer.cs:110 | SetByte(53, 5) gives the Ack's options, with 53 overwritten in place |
| DhcpServers.RepliesWellFormed | src/Bootp/Dhcp/DhcpServer.cs:64-75 | both reply tables encode and decode back: distinct ids, neither Pad nor End, short payloads |
| DhcpServers.DhcpServer.ProcessRequest | src/Bootp/Dhcp/DhcpServer.cs:18-51 | the method sends what Respond says, or nothing when Respond throws |
| DhcpServers.DhcpServer.CreateResponsePacket | src/Bootp/Dhcp/DhcpServer.cs:53-69 | yields a fresh packet holding ResponseOf of the request, and throws exactly when ResponseOf does |
| DhcpServers.DhcpServer.MakeResponse | src/Bootp/Dhcp/DhcpServer.cs:61-66 | the field and option changes turn the copy into AsResponse of it |
| DhcpServers.DhcpServer.ProcessDiscoverRequest | src/Bootp/Dhcp/DhcpServer.cs:71-78 | sends what DiscoverReply says |
| DhcpServers.DhcpServer.AnswerDiscover | src/Bootp/Dhcp/DhcpServer.cs:75-77 | sends what OfferOf says |
| DhcpServers.DhcpServer.ProcessRequestRequest | src/Bootp/Dhcp/DhcpServer.cs:80-104 | sends what RequestReply says |
| DhcpServers.DhcpServer.AnswerRequest | src/Bootp/Dhcp/DhcpServer.cs:84-103 | sends what AckOf says |
| DhcpServers.DhcpServer.SetBootFile | src/Bootp/Dhcp/DhcpServer.cs:86-101 | the architecture switch sets file as BootFile says, and changes no other field |
| DhcpServers.DhcpServer.SendPacket | src/Bootp/Dhcp/DhcpServer.cs:106-122 | sets option 53 and the flags (0x8000 for a broadcast, 0 otherwise), then sends the encoded packet to the given address and port |
| TftpReading.ReadUInt16From | src/Bootp/Tftp/TftpPacketReader.cs:28-35 | ReadUInt16 succeeds exactly when two bytes remain, yields them most significant first and advances by two |
| TftpReading.StringEnd | src/Bootp/Tftp/TftpPacketReader.cs:39-43 | the scan stops at or after the cursor and not past the end |
| TftpReading.ReadStringFrom | src/Bootp/Tftp/TftpPacketReader.cs:37-49 | ReadString succeeds exactly when the cursor is not past the end, and moves it on by at least one, to at most one past the end |
| TftpReading.StringEndStops | src/Bootp/Tftp/TftpPacketReader.cs:39-43 | the scan stops exactly at the first zero byte, or at the end |
| TftpReading.StringEndAt | src/Bootp/Tftp/TftpPacketReader.cs:39-43 | a scan that meets a zero byte at j and none before stops at j |
| TftpReading.ReadStringStops | src/Bootp/Tftp/TftpPacketReader.cs:37-49 | ReadString yields the text up to the first zero byte or the end, and the cursor moves one past that point |
| TftpReading.ReadToEndFrom | src/Bootp/Tftp/TftpPacketReader.cs:51-57 | ReadToEnd yields every byte from the cursor on, and fails when the cursor is past the end |
| TftpReading.ReadStringPastEnd | src/Bootp/Tftp/TftpPacketReader.cs:37-49 | the cursor ends one past the end exactly when no terminator follows it |
| TftpReading.TftpPacketReader.EndOfStream | src/Bootp/Tftp/TftpPacketReader.cs:23-26 | EndOfStream holds exactly when the cursor is at or past the end |
| TftpReading.TftpPacketReader.ReadUInt16 | src/Bootp/Tftp/TftpPacketReader.cs:28-35 | yields what ReadUInt16From says; the cursor never moves back |
| TftpReading.TftpPacketReader.ReadString | src/Bootp/Tftp/TftpPacketReader.cs:37-49 | the scanning loop yields what ReadStringFrom says; the cursor never moves back |
| TftpReading.TftpPacketReader.ReadToEnd | src/Bootp/Tftp/TftpPacketReader.cs:51-57 | yields what ReadToEndFrom says and does not move the cursor |
| TftpWriting.Terminated | src/Bootp/Tftp/TftpPacketWriter.cs:51-57 | WriteString writes one byte per character and then a zero byte |
| TftpWriting.Overwrite | src/Bootp/Tftp/TftpPacketWriter.cs:18-22 | writing over a caller's array keeps its length |
| TftpWriting.ReadTerminated | src/Bootp/Tftp/TftpPacketReader.cs:37-49 | an ASCII string without NUL written with WriteString reads back with ReadString, and the cursor lands after its terminator |
| TftpWriting.ReadWrittenString | src/Bootp/Tftp/TftpPacketWriter.cs:51-57 | the same round trip between any surrounding bytes |
| TftpWriting.ReadWrittenUInt16 | src/Bootp/Tftp/TftpPacketWriter.cs:45-49 | a number written with WriteUInt16 reads back with ReadUInt16 |
| TftpWriting.TftpPacketWriter.ToArray | src/Bootp/Tftp/TftpPacketWriter.cs:35-38 | a growable stream gives what was written; a stream over a caller's array gives the whole array, with the written bytes over its start |
| TftpWriting.TftpPacketWriter.WriteByte | src/Bootp/Tftp/TftpPacketWriter.cs:40-43 | appends the byte; over a caller's array, nothing past the written bytes changes |
| TftpWriting.TftpPacketWriter.WriteUInt16 | src/Bootp/Tftp/TftpPacketWriter.cs:45-49 | appends the high byte, then the low byte |
| TftpWriting.TftpPacketWriter.WriteString | src/Bootp/Tftp/TftpPacketWriter.cs:51-57 | appends the ASCII bytes and a zero byte |
| TftpWriting.TftpPacketWriter.WriteNumberString | src/Bootp/Tftp/TftpPacketWriter.cs:59-62 | appends the decimal digits of the number and a zero byte |
| TftpWriting.TftpPacketWriter.WriteBytes | src/Bootp/Tftp/TftpPacketWriter.cs:64-67 | appends the bytes, in place when the stream is a caller's array |
| TftpOptions.EmptyValid | src/Bootp/Tftp/TftpPacketOptions.cs:9 | a new dictionary is well formed |
| TftpOptions.AddValid | src/Bootp/Tftp/TftpPacketOptions.cs:21-24 | Add keeps the names distinct, lower case and exactly the keys |
| TftpOptions.AddThenGet | src/Bootp/Tftp/TftpPacketOptions.cs:21-35 | after Add, a name equal up to case reads the new value, and every other name reads as before |
| TftpOptions.AddOverwrites | src/Bootp/Tftp/TftpPacketOptions.cs:21-24 | a later Add of the same name in any case overwrites the value and adds no name |
| TftpOptions.LookupIgnoresCase | src/Bootp/Tftp/TftpPacketOptions.cs:16-47 | Exists, GetString and GetNumber ignore case |
| TftpOptions.MissingGivesDefault | src/Bootp/Tftp/TftpPacketOptions.cs:31-47 | a missing name gives the defaults of GetString and GetNumber |
| TftpOptions.AddNumberGetNumber | src/Bootp/Tftp/TftpPacketOptions.cs:26-47 | GetNumber reads back the number Add(name, Int32) stored as decimal text |
| TftpOptions.AddTextGetNumber | src/Bootp/Tftp/TftpPacketOptions.cs:37-47 | text that Int32.TryParse rejects reads as the default |
| TftpOptions.GetNamesExact | src/Bootp/Tftp/TftpPacketOptions.cs:11-14 | GetNames lists a lower-case name exactly when it exists |
| TftpOptions.TftpPacketOptions.Add | src/Bootp/Tftp/TftpPacketOptions.cs:21-24 | the table becomes the table with the value under the lower-cased name |
| TftpOptions.TftpPacketOptions.AddNumber | src/Bootp/Tftp/TftpPacketOptions.cs:26-29 | the table gets the decimal text of the number |
| TftpPackets.StringToModeIgnoresCase | src/Bootp/Tftp/TftpPacket.cs:134-156 | a mode is recognised exactly when its lower-cased text is netascii, octet, mail or binary |
| TftpPackets.Decode | src/Bootp/Tftp/TftpPacket.cs:37-96 | a decoded packet's opcode is its first two bytes, most significant first |
| TftpPackets.ReadOptionsValid | src/Bootp/Tftp/TftpPacket.cs:61-70 | the option loop keeps the dictionary well formed |
| TftpPackets.DecodedOptionsValid | src/Bootp/Tftp/TftpPacket.cs:37-96 | a decoded packet's options are well formed |
| TftpPackets.EncodeOptionsAppend | src/Bootp/Tftp/TftpPacket.cs:116-124 | one more name in the foreach appends the name and value, each terminated |
| TftpPackets.ReadOptionsStop | src/Bootp/Tftp/TftpPacket.cs:61-70 | the option loop stops at the end of the data and at an empty name, even with bytes left |
| TftpPackets.ReadOptionsStep | src/Bootp/Tftp/TftpPacket.cs:61-70 | one pass adds the lower-cased name with its value and goes on after the value |
| TftpPackets.ReadEncodedOptions | src/Bootp/Tftp/TftpPacket.cs:61-70 | the option loop reads encoded options back one after another |
| TftpPackets.AddAllRebuilds | src/Bootp/Tftp/TftpPacket.cs:61-70 | adding a table's options in enumeration order rebuilds it |
| TftpPackets.PrefixNext | src/Bootp/Tftp/TftpPacket.cs:61-70 | adding the next option to the first k gives the first k + 1 |
| TftpPackets.ReadWrittenOptions | src/Bootp/Tftp/TftpPacket.cs:116-124 | options written in enumeration order read back into an empty dictionary as the same table |
| TftpPackets.OptionsRoundTrip | src/Bootp/Tftp/TftpPacket.cs:98-132 | an OACK's body, read with the option loop of a request, gives its options back |
| TftpPackets.ReadRequestHead | src/Bootp/Tftp/TftpPacket.cs:51-59 | the opcode, file name and mode of a request read back in turn |
| TftpPackets.DecodeRequestBytes | src/Bootp/Tftp/TftpPacket.cs:55-77 | a request decodes to its file name, mode and options; BlockSize, Timeout, TSize and WindowSize are GetNumber of their names with default -1, and Multicast is whether "multicast" exists |
| TftpPackets.DecodeDataBytes | src/Bootp/Tftp/TftpPacket.cs:78-81 | DATA decodes to its block number and every byte after it |
| TftpPackets.DecodeAckBytes | src/Bootp/Tftp/TftpPacket.cs:82-84 | ACK decodes to its block number only; anything after it is ignored |
| TftpPackets.DecodeErrorBytes | src/Bootp/Tftp/TftpPacket.cs:85-88 | ERROR decodes to its code and terminated message |
| TftpPackets.DecodeShort | src/Bootp/Tftp/TftpPacket.cs:51 | fewer than two bytes never decode |
| TftpPackets.EncodeThenDecode | src/Bootp/Tftp/TftpPacket.cs:89-132 | ToArray writes only the opcode except for an OACK, so the result decodes exactly for types with no body to read, and then to a blank packet |
| TftpPackets.TftpPacket.FromArray | src/Bootp/Tftp/TftpPacket.cs:30-96 | the constructor succeeds exactly when Decode does, and the fresh packet holds the decoded properties |
| TftpPackets.TftpPacket.ReadBody | src/Bootp/Tftp/TftpPacket.cs:53-94 | the switch on the type reads what DecodeBody says |
| TftpPackets.TftpPacket.ReadRequestFields | src/Bootp/Tftp/TftpPacket.cs:55-77 | the request case reads what DecodeRequest says |
| TftpPackets.TftpPacket.ReadOptionList | src/Bootp/Tftp/TftpPacket.cs:61-70 | the `while (!EndOfStream)` loop gives exactly what ReadOptionsFrom gives |
| TftpPackets.TftpPacket.ToArray | src/Bootp/Tftp/TftpPacket.cs:98-132 | the bytes written are Encode of the packet |
| TftpPackets.TftpPacket.WriteOptionList | src/Bootp/Tftp/TftpPacket.cs:116-124 | the foreach appends each name and its value in enumeration order |
| TftpServers.ReadRequestStep | src/Bootp/Tftp/TftpServer.cs:70-123 | a read request keeps the session well formed: the block buffer has room for the header and one byte |
| TftpServers.Negotiate | src/Bootp/Tftp/TftpServer.cs:99-122 | the negotiation keeps the session well formed |
| TftpServers.NegotiateOverflows | src/Bootp/Tftp/TftpServer.cs:99-112 | when blksize + 4 overflows an Int32, the new block size is kept and the allocation throws |
| TftpServers.NegotiateAccepted | src/Bootp/Tftp/TftpServer.cs:99-122 | otherwise the session gets the block size, a zeroed buffer of blksize + 4 bytes and the timeout, and the OACK is sent |
| TftpServers.Available | src/Bootp/Tftp/TftpServer.cs:141-145 | FileStream.Read yields at most the count asked for |
| TftpServers.AckStep | src/Bootp/Tftp/TftpServer.cs:125-149 | an acknowledgment keeps the session well formed |
| TftpServers.SendBlock | src/Bootp/Tftp/TftpServer.cs:136-147 | sending a block keeps the session well formed |
| TftpServers.Respond | src/Bootp/Tftp/TftpServer.cs:17-63 | every datagram keeps the session well formed |
| TftpServers.ErrorPacketDecodes | src/Bootp/Tftp/TftpServer.cs:158-168 | an error packet is \|message\| + 5 bytes long and decodes to opcode 5 with its code and message |
| TftpServers.UndecodableIgnored | src/Bootp/Tftp/TftpServer.cs:17-22 | a datagram that does not decode leaves the session as it was and sends nothing |
| TftpServers.UnservedTypes | src/Bootp/Tftp/TftpServer.cs:34-62 | WRQ, DATA, OACK and unknown types get error 4 "Packet type not supported" and leave the session unchanged; a received ERROR gets no reply |
| TftpServers.ReadRequestRefused | src/Bootp/Tftp/TftpServer.cs:72-81 | an empty file name gets no reply, and a mode other than octet gets error 4 "Transfer mode not supported"; the session is unchanged |
| TftpServers.MissingFileReplacesSession | src/Bootp/Tftp/TftpServer.cs:83-97 | a missing file gets error 1 "File not found", but the session file is replaced first, so a later ACK throws |
| TftpServers.OackExplicit | src/Bootp/Tftp/TftpServer.cs:99-122 | the OACK's options are tsize, blksize and timeout in that order, each present under its condition |
| TftpServers.OackContents | src/Bootp/Tftp/TftpServer.cs:99-122 | the OACK holds tsize = the file length exactly when the requested tsize was 0, blksize exactly when it was asked for, and timeout exactly when it was asked for |
| TftpServers.OackTransmissible | src/Bootp/Tftp/TftpServer.cs:99-122 | every OACK option can be read back by the option loop |
| TftpServers.ReadRequestAccepted | src/Bootp/Tftp/TftpServer.cs:70-123 | for an existing file: the session gets the file and its length, the block size (requested, else 512), a zeroed buffer of that size + 4 and the timeout; the reply is an OACK, sent even when empty, whose options read back as OackOptions |
| TftpServers.BlocksPrefix | src/Bootp/Tftp/TftpServer.cs:127-147 | the first k blocks sent, put together, are the first k × blksize bytes of the file |
| TftpServers.ShortBlockIsLast | src/Bootp/Tftp/TftpServer.cs:134 | a block is shorter than blksize exactly when it reaches the end of the file |
| TftpServers.AckSendsBlock | src/Bootp/Tftp/TftpServer.cs:125-149 | an ACK of b below the file length sends DATA block (b+1) mod 2^16 with the min(blksize, len − b·blksize) file bytes at offset b·blksize, \|payload\| + 4 bytes in all, and the session keeps its file, size, timeout and buffer length |
| TftpServers.AckOffsets | src/Bootp/Tftp/TftpServer.cs:127-134 | below 2 GiB the offset and the count do not wrap |
| TftpServers.BlockSent | src/Bootp/Tftp/TftpServer.cs:136-147 | the header and the bytes read are sent from the reused buffer, and the session keeps its file, size, timeout and buffer length |
| TftpServers.OverwriteHeader | src/Bootp/Tftp/TftpServer.cs:136-147 | the header written at the start of the buffer and the payload read after it are the first bytes of the buffer |
| TftpServers.AvailableBlock | src/Bootp/Tftp/TftpServer.cs:134-145 | what the file stream reads for block b is block b of the file |
| TftpServers.AckFinished | src/Bootp/Tftp/TftpServer.cs:127-132 | once the offset of the acknowledged block reaches the cached length, nothing is sent and the session is unchanged |
| TftpServers.ExactMultipleEnds | src/Bootp/Tftp/TftpServer.cs:125-149 | for a file of k full blocks, the ACK of block k-1 sends DATA block k holding the file's last blksize bytes, and the ACK of block k that follows sends nothing: no empty final block |
| TftpServers.LastBlockFull | src/Bootp/Tftp/TftpServer.cs:127-134 | in a file of k full blocks, block k-1 starts inside the file and is its last blksize bytes |
| TftpServers.NameUnderRoot | src/Bootp/Tftp/TftpServer.cs:83-89 | a relative name is put under the root, with '/' mapped to '\\' |
| TftpServers.LeadingSeparatorIgnored | src/Bootp/Tftp/TftpServer.cs:83-88 | one leading separator is stripped |
| TftpServers.DoubleSeparatorEscapes | src/Bootp/Tftp/TftpServer.cs:83-89 | a name starting with two separators resolves from the drive root, outside the server's root |
| TftpServers.TftpServer.ProcessRequest | src/Bootp/Tftp/TftpServer.cs:17-63 | the new session and the reply are those Respond gives, up to the exception thrown |
| TftpServers.TftpServer.ProcessReadRequest | src/Bootp/Tftp/TftpServer.cs:70-123 | the new session and the reply are those ReadRequestStep gives |
| TftpServers.TftpServer.AnswerReadRequest | src/Bootp/Tftp/TftpServer.cs:99-122 | the new session and the reply are those Negotiate gives |
| TftpServers.TftpServer.AcknowledgmentOf | src/Bootp/Tftp/TftpServer.cs:99-110 | the response packet is an OACK holding OackOptions |
| TftpServers.TftpServer.ProcessAcknowledgment | src/Bootp/Tftp/TftpServer.cs:125-149 | the new session and the reply are those AckStep gives |
| TftpServers.TftpServer.SendFileBlock | src/Bootp/Tftp/TftpServer.cs:136-147 | the buffer and the reply are those SendBlock gives |
| TftpServers.TftpServer.ReadFile | src/Bootp/Tftp/TftpServer.cs:141-145 | FileStream.Read puts what is available into the buffer from index 4, and changes nothing else |
| TftpServers.TftpServer.SendNotSupportedError | src/Bootp/Tftp/TftpServer.cs:151-156 | sends error 4 "Packet type not supported" |
| TftpServers.TftpServer.SendError | src/Bootp/Tftp/TftpServer.cs:158-168 | the bytes written are the error packet: opcode 5, code, message, zero |
| Wire.NatTextValue | src/Bootp/Tftp/TftpPacketOptions.cs:26-29 | the decimal text of a number has that number as its value |
| Wire.ParseIntText | src/Bootp/Tftp/TftpPacketOptions.cs:37-47 | Int32.TryParse reads back what Int32.ToString wrote |
| Wire.UInt32RoundTrip | src/Bootp/Dhcp/DhcpPacketReader.cs:41-45 | four bytes written most significant first read back as the number |
| Wire.AsciiRoundTrip | src/Bootp/Dhcp/DhcpPacketOptions.cs:56-59 | ASCII-decoding the ASCII bytes of an ASCII string gives it back |

## Left out

- DhcpOptions.OptionTable.GetIpAddress: the IPAddress constructor also accepts a sixteen-byte (IPv6) payload; the model's addresses are IPv4 only, so such a payload is reported as Argument like every other length other than four.
- Sockets, the UDP worker, the thread pool and the broadcast socket option (src/Bootp/UdpServer.cs) are not part of this model. `SendData` is a returned datagram, and a thrown exception is a `Throw` result that sends nothing.
- src/Bootp/BootpServer.cs, src/Bootp/Program.cs and src/Bootp/Helpers.cs are not part of this model: they are wiring, console prompts and interface discovery.
- All `Console.WriteLine` logging is left out, and so are the `PacketReceived` event and `TraceToFile`/`TraceBinary` (compiled out by `#if false`). The getters that are only logged are kept, because they can throw.
- The DHCP server ignores the remote end point and builds its own destination. Every TFTP reply goes back to the sender's end point, which the model leaves implicit: a TFTP reply is bytes only. `dataLength` is only logged. The decoders read the whole array: the receive buffer is shared between datagrams, so bytes past `dataLength` are left over from earlier ones, and the decoded `data` may be any byte sequence.
- The DHCP codec and the DHCP options are modelled for a little-endian host. `HostToNetworkOrder`/`NetworkToHostOrder` combined with the little-endian BinaryWriter and BinaryReader give big-endian fields only there; on a big-endian host the source puts the DHCP numeric fields on the wire least significant byte first. The TFTP reader and writer build their bytes by hand and do not depend on the host.
- DhcpServers.DhcpServer.ProcessRequest, TftpServers.TftpServer.ProcessRequest: they are compared with their specifications up to which exception is thrown, because the UDP worker treats every exception alike.
- DhcpServers.IsPxeClient: `StartsWith("PXEClient")` is culture-sensitive in .NET; the model uses an ordinal prefix test, which agrees on printable ASCII text. The culture-sensitive comparison ignores control characters such as U+0000, so `"\0PXEClient"` or `"PXE\0Client"` pass the source's test and fail the model's.
- TftpPackets.StringToMode, TftpOptions.OptionMap.Add: `String.ToLower` and the case-insensitive compare are modelled on the ASCII letters only. ASCII decoding never yields other letters.
- DhcpServers.DhcpServer.SendPacket: the comparison `address == IPAddress.Broadcast` is reference equality in C#. It is a flag chosen at the call site: true for the Offer, which passes `IPAddress.Broadcast` itself, and false for the Ack.
- DhcpOptions.OptionTable.Remove: the order in which a .NET Dictionary reuses a freed slot is not modelled. Remove drops the id from the enumeration, and no modelled path encodes a table after a Remove.
- TftpWriting.TftpPacketWriter: a writer over a caller's array requires room for what it writes. The source would throw `NotSupportedException` when the array is full, and no modelled call reaches that.
- The file system is a map from path to contents, passed to each call. The model leaves out `FileInfo` normalisation (`GetFullPath`, too-long paths, `NotSupportedException` on a second colon), directories and sharing violations. The length is cached at the existence check, as `FileInfo` caches it.
- TftpServers.Combine: `Path.Combine` is modelled with the classic .NET Framework rules: the invalid characters `"`, `<`, `>`, `|` and those below U+0020; a rooted second path; a separator added unless the root ends in one.
- Running out of memory on a huge allocation is not modelled. Only the negative length of `new byte[blksize + 4]` is (`OverflowException`).
- Timeouts and retransmission are not modelled: the source stores the negotiated timeout but never uses it.
- The single shared TFTP session is modelled sequentially. Interleaved requests from several clients, which corrupt each other's session in the source, are not modelled.
- The enum declarations (DhcpPacketOptionId, DhcpMessageType, DhcpClientSystemArchitecture, TftpPacketType, TftpError, TftpMode) appear only as the constants the model uses.
