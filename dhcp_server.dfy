/** DhcpServer.cs: the PXE proxy. A request is decoded; one whose vendor class identifier
    (option 60) does not start with "PXEClient" is ignored; a Discover is answered with a
    broadcast Offer to port 68, and a Request that arrived on port 4011 with an Ack to the
    client's own address on port 4011 that names the boot file for its architecture
    (option 93, RFC 4578 section 2.1).

    `Respond` is the whole decision as a pure function; the class `DhcpServer` builds the
    response by mutating a copy of the request, as the source does, and is proved to send
    what `Respond` says. The lemmas then say what the client receives. */
module DhcpServers {
  import opened Wrappers
  import opened Wire
  import opened DhcpWriting
  import opened DhcpOptions
  import opened DhcpPackets

  /** DhcpMessageType values (RFC 2132 section 9.6). */
  const Discover: byte := 1
  const Offer: byte := 2
  const Request: byte := 3
  const Acknowledge: byte := 5

  /** The op code of a reply (RFC 951 section 3). */
  const BootReply: byte := 2

  /** DhcpClientSystemArchitecture values (RFC 4578 section 2.1). */
  const EfiIa32: uint16 := 6
  const EfiBc: uint16 := 7
  const Efix8664: uint16 := 9

  /** The port a Request must arrive on, and the client port an Offer goes to. */
  const ProxyPort: int := 4011
  const ClientPort: int := 68

  /** The prefix of option 60 that marks a PXE client, and the text an Offer carries. */
  const PxeClient: string := "PXEClient"

  const ServerNamePrefix: string := "Vurdalakov.PxeServer."

  /** The bytes handed to SendData and the end point they go to. */
  datatype Datagram = Datagram(bytes: seq<byte>, address: Ipv4, port: int)

  /** The admission test: String.IsNullOrEmpty fails and StartsWith("PXEClient") holds. */
  predicate IsPxeClient(vendorClass: Option<string>) {
    vendorClass.Some? && PxeClient <= vendorClass.value
  }

  /** The sname of every response: the prefix and the server address in dotted decimal. */
  function ServerName(address: Ipv4): string {
    ServerNamePrefix + AddressText(address)
  }

  /** CreateResponsePacket: the two getters it logs (either may throw on a malformed
      option), then the copy of the request made into a response. */
  function ResponseOf(request: Packet, address: Ipv4): (r: Result<Packet>)
    requires request.options.Valid()
    ensures r.Ok? ==> r.value.options.Valid()
  {
    var size :- request.MaximumDhcpMessageSize();
    var architecture :- request.ClientSystemArchitecture();
    var copy :- Decode(Encode(request));
    Ok(AsResponse(copy, address))
  }

  /** The changes CreateResponsePacket makes to the copy: op 2, the server name, and the
      options cleared down to 53 (value 0 for now) and 54, the server address. */
  function AsResponse(copy: Packet, address: Ipv4): (r: Packet)
    ensures r.options.Valid()
  {
    EmptyValid();
    copy.(op := BootReply, sname := ServerName(address),
          options := Empty.Set(MessageTypeId, ByteBytes(0)).Set(ServerIdentifierId, address))
  }

  /** The changes SendPacket makes before encoding: option 53 set to the message type,
      and flags 0x8000 exactly when the destination is the IPAddress.Broadcast object. */
  function Sent(messageType: byte, response: Packet, broadcast: bool): Packet {
    response.(options := response.options.Set(MessageTypeId, ByteBytes(messageType)),
              flags := if broadcast then 0x8000 else 0)
  }

  /** ProcessDiscoverRequest: the response of CreateResponsePacket sent as an Offer. */
  function DiscoverReply(request: Packet, address: Ipv4): Result<Datagram>
    requires request.options.Valid()
  {
    var response :- ResponseOf(request, address);
    OfferOf(response)
  }

  /** The rest of ProcessDiscoverRequest: option 60 "PXEClient" added, sent to
      255.255.255.255:68. */
  function OfferOf(response: Packet): Result<Datagram>
    requires response.options.Valid()
  {
    var offer := Sent(Offer, response.(options := response.options.Set(VendorClassIdentifierId, StringBytes(PxeClient))), true);
    Ok(Datagram(Encode(offer), Broadcast, ClientPort))
  }

  /** The `file` field after the architecture switch: the 32-bit name for EfiIa32, the
      64-bit name for EfiBc and Efix8664, unchanged otherwise. A null name makes the
      later WriteString throw. */
  function BootFile(architecture: uint16, file: string, uefi32: Option<string>, uefi64: Option<string>): Result<string> {
    var chosen :=
      if architecture == EfiIa32 then uefi32
      else if architecture == EfiBc || architecture == Efix8664 then uefi64
      else Some(file);
    if chosen.Some? then Ok(chosen.value) else Throw(ArgumentNull)
  }

  /** ProcessRequestRequest: the response of CreateResponsePacket answered as below, for
      the architecture and the client address of the request. */
  function RequestReply(request: Packet, address: Ipv4, uefi32: Option<string>, uefi64: Option<string>): Result<Datagram>
    requires request.options.Valid()
  {
    var response :- ResponseOf(request, address);
    AckOf(response, address, request.ClientSystemArchitecture().value, request.ciaddr, uefi32, uefi64)
  }

  /** The rest of ProcessRequestRequest: siaddr set to the server, the boot file chosen,
      sent to the client address on port 4011. The destination is a new IPAddress object,
      never the Broadcast one, so the flags are 0. */
  function AckOf(response: Packet, address: Ipv4, architecture: uint16, client: Ipv4,
                 uefi32: Option<string>, uefi64: Option<string>): Result<Datagram>
    requires response.options.Valid()
  {
    var file :- BootFile(architecture, response.file, uefi32, uefi64);
    var ack := Sent(Acknowledge, response.(siaddr := address, file := file), false);
    Ok(Datagram(Encode(ack), client, ProxyPort))
  }

  /** ProcessRequest on a server listening on `port`: the datagram sent, none, or the
      exception that escapes to the UDP worker (which drops the request). The message type
      is read first, for a log line, so a malformed option 53 throws before the admission
      test. */
  function Respond(port: int, address: Ipv4, uefi32: Option<string>, uefi64: Option<string>, data: seq<byte>): Result<Option<Datagram>> {
    var request :- Decode(data);
    var messageType :- request.MessageType();
    if !IsPxeClient(request.VendorClassIdentifier()) then Ok(None)
    else if messageType == Discover then
      var offer :- DiscoverReply(request, address);
      Ok(Some(offer))
    else if messageType == Request && port == ProxyPort then
      var ack :- RequestReply(request, address, uefi32, uefi64);
      Ok(Some(ack))
    else Ok(None)
  }

  /** Whether a datagram goes out. */
  predicate Replies(r: Result<Option<Datagram>>) {
    r.Ok? && r.value.Some?
  }

  // ---------------------------------------------------------------------------
  // What the client receives

  /** The options of an Offer, in the order they are written. */
  function OfferOptions(address: Ipv4): OptionTable {
    OptionTable([MessageTypeId, ServerIdentifierId, VendorClassIdentifierId],
                map[MessageTypeId := [Offer], ServerIdentifierId := address,
                    VendorClassIdentifierId := AsciiBytes(PxeClient)])
  }

  /** The options of an Ack. */
  function AckOptions(address: Ipv4): OptionTable {
    OptionTable([MessageTypeId, ServerIdentifierId],
                map[MessageTypeId := [Acknowledge], ServerIdentifierId := address])
  }

  /** A datagram goes out exactly when the request decodes, its getters do not throw, it
      is a PXE client, and it is a Discover, or a Request on port 4011 whose architecture
      does not select a null file name. */
  lemma RepliesExactly(port: int, address: Ipv4, uefi32: Option<string>, uefi64: Option<string>, data: seq<byte>)
    ensures Replies(Respond(port, address, uefi32, uefi64, data))
        <==> && Decode(data).Ok?
             && var q := Decode(data).value;
             && q.MessageType().Ok?
             && q.MaximumDhcpMessageSize().Ok?
             && q.ClientSystemArchitecture().Ok?
             && IsPxeClient(q.VendorClassIdentifier())
             && var architecture := q.ClientSystemArchitecture().value;
             || q.MessageType().value == Discover
             || (&& q.MessageType().value == Request && port == ProxyPort
                 && (architecture == EfiIa32 ==> uefi32.Some?)
                 && (architecture == EfiBc || architecture == Efix8664 ==> uefi64.Some?))
  {
    if Decode(data).Ok? {
      CopyOfDecoded(data);
    }
  }

  /** What CreateResponsePacket makes of a decoded request: the request with op 2, the
      server name, the file cut to 127 characters by the copy, and options 53 = 0 and
      54 = the server address. */
  lemma ResponseOfDecoded(data: seq<byte>, address: Ipv4)
    requires Decode(data).Ok?
    requires var q := Decode(data).value;
      q.MaximumDhcpMessageSize().Ok? && q.ClientSystemArchitecture().Ok?
    ensures var q := Decode(data).value;
      ResponseOf(q, address)
      == Ok(q.(op := BootReply, sname := ServerName(address),
               file := q.file[..Min(|q.file|, FileLength - 1)], options := ServerOptions(address)))
  {
    CopyOfDecoded(data);
    ServerTable(address);
  }

  /** The Offer built for a decoded request `q`. */
  function OfferPacket(q: Packet, address: Ipv4): Packet {
    q.(op := BootReply, flags := 0x8000, sname := ServerName(address),
       file := q.file[..Min(|q.file|, FileLength - 1)], options := OfferOptions(address))
  }

  /** The Ack built for a decoded request `q`, carrying `file`. */
  function AckPacket(q: Packet, address: Ipv4, file: string): Packet {
    q.(op := BootReply, flags := 0, siaddr := address, sname := ServerName(address),
       file := file, options := AckOptions(address))
  }

  /** A PXE Discover is answered with the encoded Offer, broadcast to port 68. */
  lemma DiscoverAnswered(port: int, address: Ipv4, uefi32: Option<string>, uefi64: Option<string>, data: seq<byte>)
    requires Decode(data).Ok?
    requires var q := Decode(data).value;
      && q.MessageType() == Ok(Discover) && IsPxeClient(q.VendorClassIdentifier())
      && q.MaximumDhcpMessageSize().Ok? && q.ClientSystemArchitecture().Ok?
    ensures Respond(port, address, uefi32, uefi64, data)
         == Ok(Some(Datagram(Encode(OfferPacket(Decode(data).value, address)), Broadcast, ClientPort)))
  {
    ResponseOfDecoded(data, address);
    OfferTable(address, StringBytes(PxeClient));
  }

  /** A PXE Discover, on any port, is answered with a broadcast to port 68 that the client
      decodes as its own request turned into a reply: op 2, flags 0x8000, the server name,
      options exactly 53 = Offer, 54 = the server address and 60 = "PXEClient", and every
      other field kept (a 128-character file loses its last character in the copy). */
  lemma DiscoverOffer(port: int, address: Ipv4, uefi32: Option<string>, uefi64: Option<string>, data: seq<byte>)
    requires Decode(data).Ok?
    requires var q := Decode(data).value;
      && q.MessageType() == Ok(Discover) && IsPxeClient(q.VendorClassIdentifier())
      && q.MaximumDhcpMessageSize().Ok? && q.ClientSystemArchitecture().Ok?
    ensures var q := Decode(data).value;
      var r := Respond(port, address, uefi32, uefi64, data);
      && Replies(r)
      && r.value.value.address == Broadcast && r.value.value.port == ClientPort
      && Decode(r.value.value.bytes)
         == Ok(q.(op := BootReply, flags := 0x8000, sname := ServerName(address),
                  file := q.file[..Min(|q.file|, FileLength - 1)], options := OfferOptions(address)))
  {
    DiscoverAnswered(port, address, uefi32, uefi64, data);
    RepliesWellFormed(address);
    ReplyDecodes(data, address, OfferPacket(Decode(data).value, address));
    CutFileStored(data);
  }

  /** The client decodes an answer built from a decoded request, with the server name and
      a well-formed option table, as that answer with its file as the 128-byte field
      stores it. */
  lemma ReplyDecodes(data: seq<byte>, address: Ipv4, reply: Packet)
    requires Decode(data).Ok?
    requires reply.chaddr == Decode(data).value.chaddr && reply.sname == ServerName(address)
    requires WellFormedOptions(reply.options)
    ensures Decode(Encode(reply)) == Ok(reply.(file := StoredField(reply.file, FileLength)))
  {
    DecodedWellFormed(data);
    ServerNameClean(address);
    StoredFieldExact(reply.sname, SnameLength);
    RoundTrip(reply);
  }

  /** The file of a decoded request, as the copy cuts it, is stored unchanged. */
  lemma CutFileStored(data: seq<byte>)
    requires Decode(data).Ok?
    ensures var file := Decode(data).value.file;
      var cut := file[..Min(|file|, FileLength - 1)];
      StoredField(cut, FileLength) == cut
  {
    var file := Decode(data).value.file;
    DecodedWellFormed(data);
    FieldStaysClean(file);
    StoredFieldExact(file[..Min(|file|, FileLength - 1)], FileLength);
  }

  /** A PXE Request on port 4011 is answered with the encoded Ack to ciaddr:4011, or
      throws when the architecture selects a null file name. */
  lemma RequestAnswered(address: Ipv4, uefi32: Option<string>, uefi64: Option<string>, data: seq<byte>)
    requires Decode(data).Ok?
    requires var q := Decode(data).value;
      && q.MessageType() == Ok(Request) && IsPxeClient(q.VendorClassIdentifier())
      && q.MaximumDhcpMessageSize().Ok? && q.ClientSystemArchitecture().Ok?
    ensures var q := Decode(data).value;
      var chosen := BootFile(q.ClientSystemArchitecture().value, q.file[..Min(|q.file|, FileLength - 1)], uefi32, uefi64);
      Respond(ProxyPort, address, uefi32, uefi64, data)
      == if chosen.Ok? then Ok(Some(Datagram(Encode(AckPacket(q, address, chosen.value)), q.ciaddr, ProxyPort)))
         else Throw(ArgumentNull)
  {
    ResponseOfDecoded(data, address);
    AckTable(address);
  }

  /** A PXE Request on port 4011 whose architecture has a file name is answered to the
      client's ciaddr on port 4011 with op 2, flags 0, siaddr the server address, the
      server name, options exactly 53 = Ack and 54 = the server address, the 32-bit name
      for architecture 6, the 64-bit name for 7 and 9 (as the 128-byte field stores them),
      and the request's own file for any other architecture. */
  lemma RequestAck(address: Ipv4, uefi32: Option<string>, uefi64: Option<string>, data: seq<byte>)
    requires Decode(data).Ok?
    requires var q := Decode(data).value;
      && q.MessageType() == Ok(Request) && IsPxeClient(q.VendorClassIdentifier())
      && q.MaximumDhcpMessageSize().Ok? && q.ClientSystemArchitecture().Ok?
    ensures var q := Decode(data).value;
      var architecture := q.ClientSystemArchitecture().value;
      var r := Respond(ProxyPort, address, uefi32, uefi64, data);
      var file :=
        if architecture == EfiIa32 then (if uefi32.Some? then Some(StoredField(uefi32.value, FileLength)) else None)
        else if architecture == EfiBc || architecture == Efix8664 then
          (if uefi64.Some? then Some(StoredField(uefi64.value, FileLength)) else None)
        else Some(q.file[..Min(|q.file|, FileLength - 1)]);
      && (file.None? ==> !Replies(r))
      && (file.Some? ==>
            && Replies(r)
            && r.value.value.address == q.ciaddr && r.value.value.port == ProxyPort
            && Decode(r.value.value.bytes)
               == Ok(q.(op := BootReply, flags := 0, siaddr := address, sname := ServerName(address),
                        file := file.value, options := AckOptions(address))))
  {
    var q := Decode(data).value;
    var chosen := BootFile(q.ClientSystemArchitecture().value, q.file[..Min(|q.file|, FileLength - 1)], uefi32, uefi64);
    RequestAnswered(address, uefi32, uefi64, data);
    if chosen.Ok? {
      RepliesWellFormed(address);
      ReplyDecodes(data, address, AckPacket(q, address, chosen.value));
      CutFileStored(data);
    }
  }

  /** A Request that did not arrive on port 4011 gets no answer, whatever it holds. */
  lemma RequestElsewhereIgnored(port: int, address: Ipv4, uefi32: Option<string>, uefi64: Option<string>, data: seq<byte>)
    requires port != ProxyPort
    requires Decode(data).Ok? && Decode(data).value.MessageType() == Ok(Request)
    ensures !Replies(Respond(port, address, uefi32, uefi64, data))
  {
  }

  /** A request without option 60, with an empty one, or with one not starting with
      "PXEClient" gets no answer on any port. */
  lemma NonPxeIgnored(port: int, address: Ipv4, uefi32: Option<string>, uefi64: Option<string>, data: seq<byte>)
    requires Decode(data).Ok? && !IsPxeClient(Decode(data).value.VendorClassIdentifier())
    ensures !Replies(Respond(port, address, uefi32, uefi64, data))
  {
  }

  /** The server name is ASCII, has no NUL and fits the 64-byte sname field. */
  lemma ServerNameClean(address: Ipv4)
    ensures var s := ServerName(address); IsAscii(s) && NoNul(s) && |s| < SnameLength
  {
    DottedTextShort(address);
    var s := ServerName(address);
    forall i | 0 <= i < |s| ensures s[i] as int < 0x80 && s[i] != '\0' {
      if i >= |ServerNamePrefix| {
        assert s[i] == AddressText(address)[i - |ServerNamePrefix|];
      }
    }
  }

  /** The dotted-decimal text of an address is at most 15 digits and dots. */
  lemma DottedTextShort(a: Ipv4)
    ensures |AddressText(a)| <= 15
    ensures forall i | 0 <= i < |AddressText(a)| :: IsDigit(AddressText(a)[i]) || AddressText(a)[i] == '.'
  {
    NatTextShort(a[0]);
    NatTextShort(a[1]);
    NatTextShort(a[2]);
    NatTextShort(a[3]);
  }

  lemma NatTextShort(n: byte)
    ensures |NatText(n)| <= 3
  {
    if n >= 10 {
      assert |NatText(n / 10)| <= 2 by {
        if n / 10 >= 10 {
          assert NatText(n / 10) == NatText(n / 100) + [DigitChar(n / 10 % 10)];
        }
      }
    }
  }

  /** The file a decoded request carries is still clean after the copy cuts it. */
  lemma FieldStaysClean(file: string)
    requires IsAscii(file) && NoNul(file) && |file| <= FileLength
    ensures var f := file[..Min(|file|, FileLength - 1)]; IsAscii(f) && NoNul(f) && |f| < FileLength
  {
  }

  /** The options CreateResponsePacket leaves: Clear, SetByte(53, 0), SetIpAAddress(54). */
  function ServerOptions(address: Ipv4): OptionTable {
    OptionTable([MessageTypeId, ServerIdentifierId], map[MessageTypeId := [0], ServerIdentifierId := address])
  }

  lemma ServerTable(address: Ipv4)
    ensures Empty.Set(MessageTypeId, ByteBytes(0)).Set(ServerIdentifierId, address) == ServerOptions(address)
  {
    var u := Empty.Set(MessageTypeId, ByteBytes(0)).Set(ServerIdentifierId, address);
    assert u.payloads == ServerOptions(address).payloads;
  }

  /** The option table of an Offer: SetString(60), then SetByte(53, 2) overwrites 53 in
      place. */
  lemma OfferTable(address: Ipv4, text: seq<byte>)
    requires text == StringBytes(PxeClient)
    ensures ServerOptions(address).Set(VendorClassIdentifierId, text).Set(MessageTypeId, ByteBytes(Offer))
         == OfferOptions(address)
  {
    var a := ServerOptions(address).Set(VendorClassIdentifierId, text);
    assert a.ids == OfferOptions(address).ids;
    var u := a.Set(MessageTypeId, ByteBytes(Offer));
    assert u.payloads == OfferOptions(address).payloads;
  }

  /** The option table of an Ack: SetByte(53, 5) overwrites 53 in place. */
  lemma AckTable(address: Ipv4)
    ensures ServerOptions(address).Set(MessageTypeId, ByteBytes(Acknowledge)) == AckOptions(address)
  {
    var u := ServerOptions(address).Set(MessageTypeId, ByteBytes(Acknowledge));
    assert u.payloads == AckOptions(address).payloads;
  }

  /** Both tables encode: distinct ids, neither Pad nor End, short payloads. */
  lemma RepliesWellFormed(address: Ipv4)
    ensures WellFormedOptions(OfferOptions(address)) && WellFormedOptions(AckOptions(address))
  {
    assert |AsciiBytes(PxeClient)| == 9;
  }

  // ---------------------------------------------------------------------------
  // The class

  class DhcpServer {
    /** UdpServer.Address and UdpServer.Port. */
    const address: Ipv4
    const port: int

    /** Uefi32FileName and Uefi64FileName; None is a property never set (null). */
    var uefi32FileName: Option<string>
    var uefi64FileName: Option<string>

    constructor (address: Ipv4, port: int)
      ensures this.address == address && this.port == port
      ensures uefi32FileName == None && uefi64FileName == None
    {
      this.address := address;
      this.port := port;
      uefi32FileName := None;
      uefi64FileName := None;
    }

    /** ProcessRequest(remoteEndPoint, data, dataLength); the remote end point is not
        used. */
    method ProcessRequest(data: seq<byte>, dataLength: int) returns (r: Result<Option<Datagram>>)
      ensures SameOutcome(r, Respond(port, address, uefi32FileName, uefi64FileName, data))
    {
      var request :- DhcpPacket.FromArray(data, dataLength);
      var messageType :- request.Value().MessageType();
      if !IsPxeClient(request.Value().VendorClassIdentifier()) {
        return Ok(None);
      }
      if messageType == Discover {
        var offer :- ProcessDiscoverRequest(request);
        r := Ok(Some(offer));
      } else if messageType == Request {
        if port != ProxyPort {
          return Ok(None);
        }
        var ack :- ProcessRequestRequest(request);
        r := Ok(Some(ack));
      } else {
        r := Ok(None);
      }
    }

    method CreateResponsePacket(request: DhcpPacket) returns (r: Result<DhcpPacket>)
      requires request.Valid()
      ensures r.Ok? <==> ResponseOf(request.Value(), address).Ok?
      ensures r.Ok? ==> fresh(r.value) && fresh(r.value.options) && r.value.Valid()
                        && r.value.Value() == ResponseOf(request.Value(), address).value
    {
      var size :- request.Value().MaximumDhcpMessageSize();
      var architecture :- request.Value().ClientSystemArchitecture();
      var response :- DhcpPacket.Copy(request);
      MakeResponse(response);
      r := Ok(response);
    }

    /** The field and option changes of CreateResponsePacket. */
    method MakeResponse(response: DhcpPacket)
      requires response.Valid()
      modifies response, response.options
      ensures response.options == old(response.options) && response.Valid()
      ensures response.Value() == AsResponse(old(response.Value()), address)
    {
      response.op := BootReply;
      response.sname := ServerName(address);
      response.options.Clear();
      response.options.SetByte(MessageTypeId, 0);
      response.options.SetIpAddress(ServerIdentifierId, address);
    }

    method ProcessDiscoverRequest(request: DhcpPacket) returns (r: Result<Datagram>)
      requires request.Valid()
      ensures SameOutcome(r, DiscoverReply(request.Value(), address))
    {
      var response := CreateResponsePacket(request);
      if response.Throw? {
        return Throw(response.exception);
      }
      r := AnswerDiscover(response.value);
    }

    /** The part of ProcessDiscoverRequest after CreateResponsePacket. */
    method AnswerDiscover(response: DhcpPacket) returns (r: Result<Datagram>)
      requires response.Valid()
      modifies response, response.options
      ensures r == OfferOf(old(response.Value()))
    {
      response.options.SetString(VendorClassIdentifierId, PxeClient);
      var offer := SendPacket(Offer, response, Broadcast, ClientPort, true);
      r := Ok(offer);
    }

    method ProcessRequestRequest(request: DhcpPacket) returns (r: Result<Datagram>)
      requires request.Valid()
      ensures SameOutcome(r, RequestReply(request.Value(), address, uefi32FileName, uefi64FileName))
    {
      var response :- CreateResponsePacket(request);
      var architecture := request.Value().ClientSystemArchitecture().value;
      r := AnswerRequest(response, architecture, request.ciaddr);
    }

    /** The part of ProcessRequestRequest after CreateResponsePacket. */
    method AnswerRequest(response: DhcpPacket, architecture: uint16, client: Ipv4) returns (r: Result<Datagram>)
      requires response.Valid()
      modifies response, response.options
      ensures SameOutcome(r, AckOf(old(response.Value()), address, architecture, client, uefi32FileName, uefi64FileName))
    {
      response.siaddr := address;
      var chosen :- SetBootFile(response, architecture);
      var ack := SendPacket(Acknowledge, response, client, ProxyPort, false);
      r := Ok(ack);
    }

    /** The architecture switch of ProcessRequestRequest. The null check stands for the
        ArgumentNullException that ToArray's WriteString raises later in SendPacket;
        nothing observable happens in between. */
    method SetBootFile(response: DhcpPacket, architecture: uint16) returns (r: Result<()>)
      modifies response
      ensures r.Ok? <==> BootFile(architecture, old(response.file), uefi32FileName, uefi64FileName).Ok?
      ensures r.Ok? ==> response.file == BootFile(architecture, old(response.file), uefi32FileName, uefi64FileName).value
      ensures unchanged(response`op, response`htype, response`hlen, response`hops, response`xid, response`secs)
      ensures unchanged(response`flags, response`ciaddr, response`yiaddr, response`siaddr, response`giaddr)
      ensures unchanged(response`chaddr, response`sname, response`options)
    {
      if architecture == EfiIa32 {
        if uefi32FileName.None? {
          return Throw(ArgumentNull);
        }
        response.file := uefi32FileName.value;
      } else if architecture == EfiBc || architecture == Efix8664 {
        if uefi64FileName.None? {
          return Throw(ArgumentNull);
        }
        response.file := uefi64FileName.value;
      }
      r := Ok(());
    }

    /** SendPacket(type, response, address, port). `broadcast` is the comparison
        `address == IPAddress.Broadcast`, which compares references: it holds for the
        Offer, which passes IPAddress.Broadcast itself, and not for the Ack. */
    method SendPacket(messageType: byte, response: DhcpPacket, destination: Ipv4, destinationPort: int, broadcast: bool)
      returns (d: Datagram)
      requires response.Valid()
      modifies response, response.options
      ensures response.Valid() && response.Value() == Sent(messageType, old(response.Value()), broadcast)
      ensures d == Datagram(Encode(response.Value()), destination, destinationPort)
    {
      response.options.SetByte(MessageTypeId, messageType);
      response.flags := if broadcast then 0x8000 else 0;
      var bytes := response.ToArray();
      d := Datagram(bytes, destination, destinationPort);
    }
  }
}
