/** TftpServer.cs: the read-only TFTP server of the PXE boot (RFC 1350 with the option
    negotiation of RFC 2347). One session is kept for all clients: a read request
    replaces it and answers with an option acknowledgment, and each acknowledgment of
    block `b` sends block `b + 1` of the session file from a block buffer that is reused
    in place. Everything else is refused with an error packet, except a received error,
    which is ignored.

    The file system is a map from local path to contents, passed to every call; the
    length of the session file is the one FileInfo cached when the read request checked
    that the file exists, and its contents are those at the time of each acknowledgment.
    `Respond` is the whole step as a pure function of the session; the class
    `TftpServer` keeps the session in fields, as the source does, and is proved to
    follow `Respond`. */
module TftpServers {
  import opened Wrappers
  import opened Wire
  import opened TftpWriting
  import opened TftpOptions
  import opened TftpPackets

  // TftpError
  const FileNotFoundCode: uint16 := 1
  const IllegalOperationCode: uint16 := 4

  const NotSupportedMessage: string := "Packet type not supported"
  const ModeNotSupportedMessage: string := "Transfer mode not supported"
  const FileNotFoundMessage: string := "File not found"

  /** The block size of RFC 1350, used when the request asks for none. */
  const DefaultBlockSize: int32 := 512

  /** The files the server can see: local path to contents. */
  type FileSystem = map<string, seq<byte>>

  /** A FileInfo: its path, and the length its existence check found (none when the
      file was missing, so that asking for the length throws). */
  datatype FileRef = FileRef(path: string, length: Option<nat>)

  /** The session fields _fileInfo, _blockSize, _fileBlock and _timeout. */
  datatype Session = Session(file: Option<FileRef>, blockSize: int32, block: Option<seq<byte>>,
                             timeout: int32)
  {
    /** A block buffer always has room for the four header bytes and one more. */
    predicate Valid() {
      block.Some? ==> |block.value| >= 5
    }
  }

  /** The fields of a new server: null references and zeros. */
  const Initial := Session(None, 0, None, 0)

  /** The session after a request, and the datagram sent back to the client (none, or
      the exception that escapes to the UDP worker, which then sends nothing). */
  datatype Outcome = Outcome(session: Session, reply: Result<Option<seq<byte>>>)

  // ---------------------------------------------------------------------------
  // Error packets

  /** SendError: the opcode 5, the error code and the message with its terminator. */
  function ErrorPacket(code: uint16, message: string): seq<byte> {
    UInt16Bytes(Error) + UInt16Bytes(code) + Terminated(message)
  }

  /** The reply to every packet type the server does not serve. */
  function NotSupportedReply(): seq<byte> {
    ErrorPacket(IllegalOperationCode, NotSupportedMessage)
  }

  // ---------------------------------------------------------------------------
  // Local file names

  predicate IsSeparator(c: char) {
    c == '\\' || c == '/'
  }

  /** Path.IsPathRooted: a leading separator or a drive letter. */
  predicate IsPathRooted(path: string) {
    (|path| >= 1 && IsSeparator(path[0])) || (|path| >= 2 && path[1] == ':')
  }

  /** The characters Path.Combine refuses. */
  predicate IsInvalidPathChar(c: char) {
    c == '"' || c == '<' || c == '>' || c == '|' || c < ' '
  }

  predicate HasInvalidPathChars(path: string) {
    exists i | 0 <= i < |path| :: IsInvalidPathChar(path[i])
  }

  /** Path.Combine(root, path): a rooted `path` replaces `root`; otherwise a separator
      is put between them unless `root` already ends with one or with a drive colon. */
  function Combine(root: string, path: string): Result<string> {
    if HasInvalidPathChars(root) || HasInvalidPathChars(path) then Throw(Argument)
    else if path == "" then Ok(root)
    else if root == "" then Ok(path)
    else if IsPathRooted(path) then Ok(path)
    else if IsSeparator(root[|root| - 1]) || root[|root| - 1] == ':' then Ok(root + path)
    else Ok(root + "\\" + path)
  }

  /** Replace('/', '\\'). */
  function MapSeparators(name: string): (r: string)
    ensures |r| == |name|
  {
    seq(|name|, i requires 0 <= i < |name| => if name[i] == '/' then '\\' else name[i])
  }

  /** The local file name of a request: separators made backslashes, one leading
      backslash dropped, the rest combined with the root directory. */
  function LocalPath(root: string, fileName: string): Result<string>
    requires fileName != ""
  {
    var mapped := MapSeparators(fileName);
    var relative := if mapped[0] == '\\' then mapped[1..] else mapped;
    Combine(root, relative)
  }

  // ---------------------------------------------------------------------------
  // Read requests

  /** The options of the acknowledgment, in the order they are added: the file length
      when the request's tsize was 0, the block size when one was asked for, and the
      timeout when one was asked for. */
  function OackOptions(length: nat, request: Packet): OptionMap {
    var withSize := if request.tSize == 0 then Empty.AddNumber("tsize", ToInt32(length)) else Empty;
    var withBlock := if request.blockSize > 0 then withSize.AddNumber("blksize", request.blockSize) else withSize;
    if request.timeout > 0 then withBlock.AddNumber("timeout", request.timeout) else withBlock
  }

  /** ProcessReadRequest: an empty name is dropped, a mode other than octet refused, and
      otherwise the session file replaced before its existence is checked. */
  function ReadRequestStep(s: Session, root: string, fs: FileSystem, request: Packet): (r: Outcome)
    requires s.Valid()
    ensures r.session.Valid()
  {
    if request.fileName.None? || request.fileName.value == "" then Outcome(s, Ok(None))
    else if request.mode != Octet then
      Outcome(s, Ok(Some(ErrorPacket(IllegalOperationCode, ModeNotSupportedMessage))))
    else
      match LocalPath(root, request.fileName.value)
      case Throw(e) => Outcome(s, Throw(e))
      case Ok(path) =>
        var file := FileRef(path, if path in fs then Some(|fs[path]|) else None);
        if file.length.None? then
          Outcome(s.(file := Some(file)), Ok(Some(ErrorPacket(FileNotFoundCode, FileNotFoundMessage))))
        else Negotiate(s.(file := Some(file)), file.length.value, request)
  }

  /** The rest of ProcessReadRequest for a file that exists: the block size (512 unless
      the request asks for a positive one), a zeroed block buffer four bytes longer (the
      allocation fails when that length overflows an Int32), the timeout (-1 unless the
      request asks for a positive one), and the acknowledgment. */
  function Negotiate(s: Session, length: nat, request: Packet): (r: Outcome)
    requires s.Valid()
    ensures r.session.Valid()
  {
    var blockSize := if request.blockSize > 0 then request.blockSize else DefaultBlockSize;
    // The Int32 sum wraps to a negative length exactly when it passes Int32.MaxValue.
    var size := blockSize + 4;
    if size > 0x7FFF_FFFF then Outcome(s.(blockSize := blockSize), Throw(Overflow))
    else
      var timeout := if request.timeout > 0 then request.timeout else -1;
      var oack := Blank(OptionAcknowledgment).(options := OackOptions(length, request));
      OackTransmissible(length, request);
      Outcome(Session(s.file, blockSize, Some(Zeros(size)), timeout), Ok(Some(Encode(oack).value)))
  }

  /** Negotiate when the buffer length overflows: only the block size is kept. */
  lemma NegotiateOverflows(s: Session, length: nat, request: Packet)
    requires s.Valid()
    requires (if request.blockSize > 0 then request.blockSize else DefaultBlockSize) + 4 > 0x7FFF_FFFF
    ensures Negotiate(s, length, request)
         == Outcome(s.(blockSize := if request.blockSize > 0 then request.blockSize else DefaultBlockSize),
                    Throw(Overflow))
  {
  }

  /** Negotiate when the buffer fits: the new session and the encoded acknowledgment. */
  lemma NegotiateAccepted(s: Session, length: nat, request: Packet)
    requires s.Valid()
    requires (if request.blockSize > 0 then request.blockSize else DefaultBlockSize) + 4 <= 0x7FFF_FFFF
    requires OackOptions(length, request).Valid()
    ensures var blockSize := if request.blockSize > 0 then request.blockSize else DefaultBlockSize;
      var oack := Blank(OptionAcknowledgment).(options := OackOptions(length, request));
      && Encode(oack).Ok?
      && Negotiate(s, length, request)
         == Outcome(Session(s.file, blockSize, Some(Zeros(blockSize + 4)),
                            if request.timeout > 0 then request.timeout else -1),
                    Ok(Some(Encode(oack).value)))
  {
    OackTransmissible(length, request);
  }

  // ---------------------------------------------------------------------------
  // Acknowledgments

  /** What FileStream.Read yields from `position` for at most `count` bytes: nothing at
      or past the end of the file. */
  function Available(content: seq<byte>, position: nat, count: nat): (r: seq<byte>)
    ensures |r| <= count
  {
    if position >= |content| then [] else content[position..position + Min(count, |content| - position)]
  }

  /** ProcessAcknowledgment of block `block`: the offset `block * blockSize` and the
      length min(blockSize, file length - offset), both in unchecked Int32 arithmetic;
      nothing is sent once the offset reaches the file length. Otherwise the DATA header
      with block number `block + 1` (mod 2^16) is written over the start of the block
      buffer, and then the file is opened, positioned and read into the buffer after the
      header; the buffer keeps the header even when that throws. */
  function AckStep(s: Session, fs: FileSystem, block: uint16): (r: Outcome)
    requires s.Valid()
    ensures r.session.Valid()
  {
    var position := ToInt32(block * s.blockSize);
    if s.file.None? then Outcome(s, Throw(NullReference))
    else if s.file.value.length.None? then Outcome(s, Throw(FileNotFound))
    else if position >= s.file.value.length.value then Outcome(s, Ok(None))
    else
      var count := Min(s.blockSize, ToInt32(ToInt32(s.file.value.length.value) - position));
      if s.block.None? then Outcome(s, Throw(ArgumentNull))
      else SendBlock(s, fs, block, position, count)
  }

  /** The `using` blocks of ProcessAcknowledgment: the header written over the buffer,
      then the file opened, positioned at `position` and read for `count` bytes after
      the header, and the header and those `count` bytes sent. */
  function SendBlock(s: Session, fs: FileSystem, block: uint16, position: int32, count: int32): (r: Outcome)
    requires s.Valid() && s.file.Some? && s.block.Some?
    ensures r.session.Valid()
  {
    var header := UInt16Bytes(Data) + UInt16Bytes((block + 1) % 0x1_0000);
    var buffer := Overwrite(s.block.value, 0, header);
    var path := s.file.value.path;
    if path !in fs then Outcome(s.(block := Some(buffer)), Throw(FileNotFound))
    else if position < 0 || count < 0 then Outcome(s.(block := Some(buffer)), Throw(ArgumentOutOfRange))
    else if 4 + count > |buffer| then Outcome(s.(block := Some(buffer)), Throw(Argument))
    else
      var filled := Overwrite(buffer, 4, Available(fs[path], position, count));
      Outcome(s.(block := Some(filled)), Ok(Some(filled[..count + 4])))
  }

  // ---------------------------------------------------------------------------
  // Dispatch

  /** ProcessRequest: a datagram that does not decode sends nothing; a read request and
      an acknowledgment are served, a received error is ignored, and every other type is
      refused with error 4. */
  function Respond(s: Session, root: string, fs: FileSystem, data: seq<byte>): (r: Outcome)
    requires s.Valid()
    ensures r.session.Valid()
  {
    match Decode(data)
    case Throw(e) => Outcome(s, Throw(e))
    case Ok(request) =>
      if request.opcode == ReadRequest then ReadRequestStep(s, root, fs, request)
      else if request.opcode == Acknowledgment then AckStep(s, fs, request.blockNumber)
      else if request.opcode == Error then Outcome(s, Ok(None))
      else Outcome(s, Ok(Some(NotSupportedReply())))
  }

  // ---------------------------------------------------------------------------
  // Error packets: layout

  /** Int32.ToString yields ASCII text without NUL. */
  lemma IntTextClean(n: int)
    ensures IsAscii(IntText(n)) && NoNul(IntText(n))
  {
    var s := IntText(n);
    var d := NatText(if n < 0 then -n else n);
    forall i | 0 <= i < |s|
      ensures s[i] as int < 0x80 && s[i] != '\0'
    {
      if n < 0 && i > 0 {
        assert s[i] == d[i - 1];
      }
    }
  }

  /** An error packet is |message| + 5 bytes long and decodes to an ERROR packet with
      the code and the message. */
  lemma ErrorPacketDecodes(code: uint16, message: string)
    requires IsAscii(message) && NoNul(message)
    ensures |ErrorPacket(code, message)| == |message| + 5
    ensures Decode(ErrorPacket(code, message))
         == Ok(Blank(Error).(errorCode := code, errorMessage := Some(message)))
  {
    DecodeErrorBytes(code, message, []);
    assert ErrorPacket(code, message) + [] == ErrorPacket(code, message);
  }

  /** The messages the server sends are ASCII without NUL. */
  lemma NotSupportedClean()
    ensures IsAscii(NotSupportedMessage) && NoNul(NotSupportedMessage)
  {
  }

  lemma ModeNotSupportedClean()
    ensures IsAscii(ModeNotSupportedMessage) && NoNul(ModeNotSupportedMessage)
  {
  }

  lemma FileNotFoundClean()
    ensures IsAscii(FileNotFoundMessage) && NoNul(FileNotFoundMessage)
  {
  }

  // ---------------------------------------------------------------------------
  // Dispatch

  /** A datagram that does not decode leaves the session as it was and sends nothing. */
  lemma UndecodableIgnored(s: Session, root: string, fs: FileSystem, data: seq<byte>)
    requires s.Valid() && Decode(data).Throw?
    ensures Respond(s, root, fs, data).session == s && Respond(s, root, fs, data).reply.Throw?
  {
  }

  /** A write request, a DATA packet, an option acknowledgment and an unknown type are
      answered with error 4, "Packet type not supported", and change nothing; a received
      ERROR packet gets no answer. */
  lemma UnservedTypes(s: Session, root: string, fs: FileSystem, data: seq<byte>)
    requires s.Valid() && Decode(data).Ok?
    requires Decode(data).value.opcode !in {ReadRequest, Acknowledgment}
    ensures Respond(s, root, fs, data).session == s
    ensures var reply := Respond(s, root, fs, data).reply;
      if Decode(data).value.opcode == Error then reply == Ok(None)
      else reply.Ok? && reply.value.Some?
           && Decode(reply.value.value).Ok? && Decode(reply.value.value).value.opcode == Error
           && Decode(reply.value.value).value.errorCode == IllegalOperationCode
           && Decode(reply.value.value).value.errorMessage == Some(NotSupportedMessage)
  {
    NotSupportedClean();
    ErrorPacketDecodes(IllegalOperationCode, NotSupportedMessage);
  }

  /** A read request with an empty file name gets no answer; one in a mode other than
      octet gets error 4, "Transfer mode not supported". Neither touches the session. */
  lemma ReadRequestRefused(s: Session, root: string, fs: FileSystem, request: Packet)
    requires s.Valid() && request.fileName.Some?
    requires request.fileName.value == "" || request.mode != Octet
    ensures ReadRequestStep(s, root, fs, request).session == s
    ensures var reply := ReadRequestStep(s, root, fs, request).reply;
      if request.fileName.value == "" then reply == Ok(None)
      else reply.Ok? && reply.value.Some?
           && Decode(reply.value.value).Ok? && Decode(reply.value.value).value.opcode == Error
           && Decode(reply.value.value).value.errorCode == IllegalOperationCode
           && Decode(reply.value.value).value.errorMessage == Some(ModeNotSupportedMessage)
  {
    ModeNotSupportedClean();
    ErrorPacketDecodes(IllegalOperationCode, ModeNotSupportedMessage);
  }

  /** A read request for a file that does not exist gets error 1, "File not found", but
      has already replaced the session file; every acknowledgment after it fails until
      the next read request. */
  lemma MissingFileReplacesSession(s: Session, root: string, fs: FileSystem, request: Packet,
                                   later: FileSystem, block: uint16)
    requires s.Valid() && request.fileName.Some? && request.fileName.value != ""
    requires request.mode == Octet
    requires LocalPath(root, request.fileName.value).Ok?
    requires LocalPath(root, request.fileName.value).value !in fs
    ensures var r := ReadRequestStep(s, root, fs, request);
      && r.session == s.(file := Some(FileRef(LocalPath(root, request.fileName.value).value, None)))
      && r.reply.Ok? && r.reply.value.Some?
      && Decode(r.reply.value.value).Ok? && Decode(r.reply.value.value).value.opcode == Error
      && Decode(r.reply.value.value).value.errorCode == FileNotFoundCode
      && Decode(r.reply.value.value).value.errorMessage == Some(FileNotFoundMessage)
      && AckStep(r.session, later, block).reply.Throw?
  {
    FileNotFoundClean();
    ErrorPacketDecodes(FileNotFoundCode, FileNotFoundMessage);
  }

  // ---------------------------------------------------------------------------
  // The option acknowledgment

  /** The option names the acknowledgment lists, in order. */
  function OackNames(request: Packet): seq<string> {
    (if request.tSize == 0 then ["tsize"] else [])
    + (if request.blockSize > 0 then ["blksize"] else [])
    + (if request.timeout > 0 then ["timeout"] else [])
  }

  /** The values the acknowledgment holds, by name. */
  function OackValues(length: nat, request: Packet): map<string, string> {
    var withSize := if request.tSize == 0 then map["tsize" := IntText(ToInt32(length))] else map[];
    var withBlock := if request.blockSize > 0 then withSize["blksize" := IntText(request.blockSize)] else withSize;
    if request.timeout > 0 then withBlock["timeout" := IntText(request.timeout)] else withBlock
  }

  /** Adding a lower-case name that is not there yet appends it. */
  lemma AddNew(t: OptionMap, name: string, value: string)
    requires IsLower(name) && name !in t.values
    ensures t.Add(name, value) == OptionMap(t.names + [name], t.values[name := value])
  {
    ToLowerOfLower(name);
  }

  /** The option names the acknowledgment uses are distinct, lower case, ASCII, and
      free of NUL. */
  lemma OackNamesClean()
    ensures IsLower("tsize") && IsLower("blksize") && IsLower("timeout")
    ensures IsAscii("tsize") && IsAscii("blksize") && IsAscii("timeout")
    ensures NoNul("tsize") && NoNul("blksize") && NoNul("timeout")
    ensures "blksize" != "timeout"
  {
    assert "blksize"[0] != "timeout"[0];
  }

  /** The acknowledgment's options, each added once in its turn. */
  lemma OackExplicit(length: nat, request: Packet)
    ensures OackOptions(length, request) == OptionMap(OackNames(request), OackValues(length, request))
  {
    OackNamesClean();
    var withSize := if request.tSize == 0 then Empty.AddNumber("tsize", ToInt32(length)) else Empty;
    var names := if request.tSize == 0 then ["tsize"] else [];
    var values := if request.tSize == 0 then map["tsize" := IntText(ToInt32(length))] else map[];
    if request.tSize == 0 {
      AddNew(Empty, "tsize", IntText(ToInt32(length)));
      assert Empty.names + ["tsize"] == ["tsize"];
    }
    assert withSize == OptionMap(names, values);
    var withBlock := if request.blockSize > 0 then withSize.AddNumber("blksize", request.blockSize) else withSize;
    var names' := names + (if request.blockSize > 0 then ["blksize"] else []);
    var values' := if request.blockSize > 0 then values["blksize" := IntText(request.blockSize)] else values;
    if request.blockSize > 0 {
      AddNew(withSize, "blksize", IntText(request.blockSize));
    } else {
      assert names' == names;
    }
    assert withBlock == OptionMap(names', values');
    if request.timeout > 0 {
      AddNew(withBlock, "timeout", IntText(request.timeout));
    } else {
      assert names' + [] == names';
    }
  }

  /** The acknowledgment holds exactly tsize (the file length, as an Int32), when the
      request's tsize was 0; blksize, when the request asked for a positive one; and
      timeout, likewise; in that order. */
  lemma OackContents(length: nat, request: Packet)
    ensures OackOptions(length, request).GetNames() == OackNames(request)
    ensures OackOptions(length, request).GetNumber("tsize", -1)
         == if request.tSize == 0 then ToInt32(length) else -1
    ensures OackOptions(length, request).GetNumber("blksize", -1)
         == if request.blockSize > 0 then request.blockSize else -1
    ensures OackOptions(length, request).GetNumber("timeout", -1)
         == if request.timeout > 0 then request.timeout else -1
  {
    OackExplicit(length, request);
    OackNamesClean();
    ToLowerOfLower("tsize");
    ToLowerOfLower("blksize");
    ToLowerOfLower("timeout");
    ParseIntText(ToInt32(length));
    ParseIntText(request.blockSize);
    ParseIntText(request.timeout);
  }

  /** Every option of the acknowledgment can be read back by the option loop. */
  lemma OackTransmissible(length: nat, request: Packet)
    ensures Transmissible(OackOptions(length, request))
  {
    var t := OackOptions(length, request);
    OackExplicit(length, request);
    OackNamesClean();
    IntTextClean(ToInt32(length));
    IntTextClean(request.blockSize);
    IntTextClean(request.timeout);
    forall i | 0 <= i < |t.names|
      ensures Sendable(t, t.names[i])
    {
      assert t.names[i] in {"tsize", "blksize", "timeout"};
    }
  }

  /** A read request for a file that exists makes the file, its length, the block size
      and the timeout the session, with a zeroed buffer four bytes longer than a block,
      and answers with an option acknowledgment whose options the option loop reads back
      as OackOptions says. */
  lemma ReadRequestAccepted(s: Session, root: string, fs: FileSystem, request: Packet)
    requires s.Valid() && request.fileName.Some? && request.fileName.value != ""
    requires request.mode == Octet
    requires LocalPath(root, request.fileName.value).Ok?
    requires LocalPath(root, request.fileName.value).value in fs
    requires request.blockSize < 0x7FFF_FFFC
    ensures var path := LocalPath(root, request.fileName.value).value;
      var blockSize := if request.blockSize > 0 then request.blockSize else DefaultBlockSize;
      var r := ReadRequestStep(s, root, fs, request);
      && r.session == Session(Some(FileRef(path, Some(|fs[path]|))), blockSize,
                              Some(Zeros(blockSize + 4)),
                              if request.timeout > 0 then request.timeout else -1)
      && r.reply.Ok? && r.reply.value.Some? && r.reply.value.value[..2] == UInt16Bytes(OptionAcknowledgment)
      && ReadOptionsFrom(r.reply.value.value, 2, Empty) == Ok(OackOptions(|fs[path]|, request))
  {
    var path := LocalPath(root, request.fileName.value).value;
    var oack := Blank(OptionAcknowledgment).(options := OackOptions(|fs[path]|, request));
    OackTransmissible(|fs[path]|, request);
    OptionsRoundTrip(oack);
  }

  // ---------------------------------------------------------------------------
  // Acknowledgments: the blocks of a file

  /** Block `block` (from 0) of `content` cut into blocks of `blockSize` bytes: empty past
      the end, shorter than a block at the end. */
  function BlockPayload(content: seq<byte>, blockSize: nat, block: nat): seq<byte> {
    if block * blockSize >= |content| then []
    else content[block * blockSize..Min(block * blockSize + blockSize, |content|)]
  }

  /** The first `k` blocks of `content`, one after another. */
  function Blocks(content: seq<byte>, blockSize: nat, k: nat): seq<byte> {
    if k == 0 then [] else Blocks(content, blockSize, k - 1) + BlockPayload(content, blockSize, k - 1)
  }

  /** The first `k` blocks put together are the first `k * blockSize` bytes of the file,
      or the whole file. */
  lemma {:induction false} BlocksPrefix(content: seq<byte>, blockSize: nat, k: nat)
    ensures Blocks(content, blockSize, k) == content[..Min(k * blockSize, |content|)]
  {
    if k > 0 {
      BlocksPrefix(content, blockSize, k - 1);
      var start := (k - 1) * blockSize;
      var end := Min(k * blockSize, |content|);
      assert start + blockSize == k * blockSize;
      if start < |content| {
        assert BlockPayload(content, blockSize, k - 1) == content[start..end];
        assert content[..start] + content[start..end] == content[..end];
      } else {
        assert end == |content|;
      }
    }
  }

  /** A block is shorter than a full one exactly when it is the last block with data or
      lies past the end of the file. */
  lemma ShortBlockIsLast(content: seq<byte>, blockSize: nat, block: nat)
    requires blockSize > 0
    ensures |BlockPayload(content, blockSize, block)| < blockSize
        <==> block * blockSize + blockSize > |content|
  {
  }

  /** The acknowledgment of block `block` below the end of the session file, on a session
      that a read request set up (its buffer a block plus four bytes) and with the file as
      long as it was then and below 2 GiB, sends DATA block `block + 1` (mod 2^16) with
      block `block` of the file as payload. The session keeps its file, block size,
      timeout and buffer length. */
  lemma AckSendsBlock(s: Session, fs: FileSystem, block: uint16)
    requires s.Valid() && s.file.Some? && s.file.value.path in fs
    requires s.file.value.length == Some(|fs[s.file.value.path]|)
    requires 0 < s.blockSize && s.block.Some? && |s.block.value| == s.blockSize + 4
    requires block * s.blockSize < |fs[s.file.value.path]| < 0x8000_0000
    ensures var r := AckStep(s, fs, block);
      var payload := BlockPayload(fs[s.file.value.path], s.blockSize, block);
      && r.reply == Ok(Some(UInt16Bytes(Data) + UInt16Bytes((block + 1) % 0x1_0000) + payload))
      && Decode(r.reply.value.value)
         == Ok(Blank(Data).(blockNumber := (block + 1) % 0x1_0000, data := Some(payload)))
      && r.session.file == s.file && r.session.blockSize == s.blockSize
      && r.session.timeout == s.timeout && r.session.block.Some?
      && |r.session.block.value| == |s.block.value|
  {
    var content := fs[s.file.value.path];
    var position := block * s.blockSize;
    var count := Min(s.blockSize, |content| - position);
    AckOffsets(s, fs, block);
    AvailableBlock(content, s.blockSize, block, count);
    BlockSent(s, fs, block, position, count);
    var payload := BlockPayload(content, s.blockSize, block);
    DecodeDataBytes((block + 1) % 0x1_0000, payload);
  }

  /** Below 2 GiB, the offset and the length of ProcessAcknowledgment do not wrap. */
  lemma AckOffsets(s: Session, fs: FileSystem, block: uint16)
    requires s.Valid() && s.file.Some? && s.file.value.length.Some? && s.block.Some?
    requires 0 < s.blockSize && block * s.blockSize < s.file.value.length.value < 0x8000_0000
    ensures AckStep(s, fs, block)
         == SendBlock(s, fs, block, block * s.blockSize,
                      Min(s.blockSize, s.file.value.length.value - block * s.blockSize))
  {
    assert ToInt32(block * s.blockSize) == block * s.blockSize;
    var length := s.file.value.length.value;
    assert ToInt32(ToInt32(length) - block * s.blockSize) == length - block * s.blockSize;
  }

  /** The header and the bytes the file stream reads, sent from the reused buffer. */
  lemma BlockSent(s: Session, fs: FileSystem, block: uint16, position: int32, count: int32)
    requires s.Valid() && s.file.Some? && s.file.value.path in fs
    requires 0 < s.blockSize && s.block.Some? && |s.block.value| == s.blockSize + 4
    requires 0 <= position < |fs[s.file.value.path]|
    requires count == Min(s.blockSize, |fs[s.file.value.path]| - position)
    ensures var r := SendBlock(s, fs, block, position, count);
      && r.reply == Ok(Some(UInt16Bytes(Data) + UInt16Bytes((block + 1) % 0x1_0000)
                            + Available(fs[s.file.value.path], position, count)))
      && r.session.file == s.file && r.session.blockSize == s.blockSize
      && r.session.timeout == s.timeout && r.session.block.Some?
      && |r.session.block.value| == |s.block.value|
  {
    var header := UInt16Bytes(Data) + UInt16Bytes((block + 1) % 0x1_0000);
    var payload := Available(fs[s.file.value.path], position, count);
    assert |payload| == count;
    OverwriteHeader(s.block.value, header, payload);
  }

  /** The header written at the start of a buffer and a payload after it read back as
      the header and the payload. */
  lemma OverwriteHeader(buffer: seq<byte>, header: seq<byte>, payload: seq<byte>)
    requires |header| == 4 && 4 + |payload| <= |buffer|
    ensures Overwrite(Overwrite(buffer, 0, header), 4, payload)[..|payload| + 4] == header + payload
  {
  }

  /** What the file stream reads for block `block` is the block. */
  lemma AvailableBlock(content: seq<byte>, blockSize: nat, block: nat, count: nat)
    requires 0 < blockSize && block * blockSize < |content|
    requires count == Min(blockSize, |content| - block * blockSize)
    ensures Available(content, block * blockSize, count) == BlockPayload(content, blockSize, block)
    ensures |BlockPayload(content, blockSize, block)| == count
  {
  }

  /** Once the offset of the acknowledged block reaches the cached file length, nothing
      is sent and the session is unchanged. A file whose length is a multiple of the
      block size thus ends with a full block and no empty one. */
  lemma AckFinished(s: Session, fs: FileSystem, block: uint16)
    requires s.Valid() && s.file.Some? && s.file.value.length.Some?
    requires ToInt32(block * s.blockSize) >= s.file.value.length.value
    ensures AckStep(s, fs, block) == Outcome(s, Ok(None))
  {
  }

  /** A file of `k` full blocks, below 2 GiB: the acknowledgment of block `k - 1` sends
      DATA block `k` carrying the last `blockSize` bytes of the file, and the
      acknowledgment of block `k` that follows sends nothing. The transfer ends with a
      full block and without the empty DATA block that RFC 1350 expects. */
  lemma ExactMultipleEnds(s: Session, fs: FileSystem, k: uint16)
    requires s.Valid() && s.file.Some? && s.file.value.path in fs
    requires s.file.value.length == Some(|fs[s.file.value.path]|)
    requires 0 < s.blockSize && s.block.Some? && |s.block.value| == s.blockSize + 4
    requires 0 < k && |fs[s.file.value.path]| == k * s.blockSize < 0x8000_0000
    ensures s.blockSize <= |fs[s.file.value.path]|
    ensures var content := fs[s.file.value.path];
      var r := AckStep(s, fs, k - 1);
      && r.reply == Ok(Some(UInt16Bytes(Data) + UInt16Bytes(k)
                            + content[|content| - s.blockSize..]))
      && AckStep(r.session, fs, k) == Outcome(r.session, Ok(None))
  {
    var content := fs[s.file.value.path];
    var length := k * s.blockSize;
    LastBlockFull(content, s.blockSize, k);
    AckSendsBlock(s, fs, k - 1);
    var r := AckStep(s, fs, k - 1);
    assert r.session.file == s.file;
    assert ToInt32(length) == length;
    AckFinished(r.session, fs, k);
  }

  /** Block `k - 1` of a file of `k` full blocks is its last `blockSize` bytes. */
  lemma LastBlockFull(content: seq<byte>, blockSize: nat, k: nat)
    requires 0 < blockSize && 0 < k && |content| == k * blockSize
    ensures (k - 1) * blockSize < |content| && blockSize <= |content|
    ensures BlockPayload(content, blockSize, k - 1) == content[|content| - blockSize..]
  {
    assert (k - 1) * blockSize == k * blockSize - blockSize;
  }

  // ---------------------------------------------------------------------------
  // Local file names: properties

  /** A name that neither starts with a separator nor names a drive is put under the
      root directory, its slashes made backslashes. */
  lemma NameUnderRoot(root: string, fileName: string)
    requires root != "" && !HasInvalidPathChars(root)
    requires !IsSeparator(root[|root| - 1]) && root[|root| - 1] != ':'
    requires fileName != "" && !HasInvalidPathChars(fileName)
    requires !IsSeparator(fileName[0]) && (|fileName| < 2 || fileName[1] != ':')
    ensures LocalPath(root, fileName) == Ok(root + "\\" + MapSeparators(fileName))
  {
    var mapped := MapSeparators(fileName);
    assert mapped[0] == fileName[0];
    assert |fileName| >= 2 ==> mapped[1] != ':';
    assert !HasInvalidPathChars(mapped) by {
      forall i | 0 <= i < |mapped| ensures !IsInvalidPathChar(mapped[i]) {
        assert !IsInvalidPathChar(fileName[i]);
      }
    }
  }

  /** One leading separator is ignored. */
  lemma LeadingSeparatorIgnored(root: string, fileName: string)
    requires |fileName| >= 2 && IsSeparator(fileName[0]) && !IsSeparator(fileName[1])
    ensures LocalPath(root, fileName) == LocalPath(root, fileName[1..])
  {
    assert MapSeparators(fileName)[1..] == MapSeparators(fileName[1..]);
  }

  /** A name that starts with two separators is taken from the root of the drive, not
      from the root directory: the root directory does not confine the names served. */
  lemma DoubleSeparatorEscapes(root: string, name: string)
    requires !HasInvalidPathChars(root) && !HasInvalidPathChars(name)
    ensures LocalPath(root, "//" + name) == Ok("\\" + MapSeparators(name))
  {
    var fileName := "//" + name;
    var mapped := MapSeparators(fileName);
    assert mapped[1..] == "\\" + MapSeparators(name);
    assert !HasInvalidPathChars(mapped[1..]) by {
      forall i | 0 <= i < |mapped[1..]| ensures !IsInvalidPathChar(mapped[1..][i]) {
        if i > 0 {
          assert mapped[1..][i] == MapSeparators(name)[i - 1];
          assert !IsInvalidPathChar(name[i - 1]);
        }
      }
    }
  }

  // ---------------------------------------------------------------------------
  // The class

  class TftpServer {
    const rootDirectory: string
    var fileInfo: Option<FileRef>
    var blockSize: int32
    var fileBlock: array?<byte>
    var timeout: int32

    /** The session fields as a value. */
    function State(): Session
      reads this, fileBlock
    {
      Session(fileInfo, blockSize, if fileBlock == null then None else Some(fileBlock[..]), timeout)
    }

    /** TftpServer(address, rootDirectory); the address and port only bind the socket. */
    constructor (rootDirectory: string)
      ensures this.rootDirectory == rootDirectory && State() == Initial
    {
      this.rootDirectory := rootDirectory;
      fileInfo := None;
      blockSize := 0;
      fileBlock := null;
      timeout := 0;
    }

    /** ProcessRequest(remoteEndPoint, data, dataLength) with the files as they are now;
        the datagram returned goes back to the remote end point. */
    method ProcessRequest(fs: FileSystem, data: seq<byte>, dataLength: int)
      returns (r: Result<Option<seq<byte>>>)
      requires State().Valid()
      modifies this, fileBlock
      ensures State() == Respond(old(State()), rootDirectory, fs, data).session
      ensures SameOutcome(r, Respond(old(State()), rootDirectory, fs, data).reply)
    {
      var request := TftpPacket.FromArray(data, dataLength);
      if request.Throw? {
        return Throw(request.exception);
      }
      var packet := request.value;
      if packet.opcode == ReadRequest {
        r := ProcessReadRequest(fs, packet);
      } else if packet.opcode == Acknowledgment {
        r := ProcessAcknowledgment(fs, packet);
      } else if packet.opcode == Error {
        r := Ok(None);
      } else {
        var bytes := SendNotSupportedError();
        r := Ok(Some(bytes));
      }
    }

    method ProcessReadRequest(fs: FileSystem, request: TftpPacket) returns (r: Result<Option<seq<byte>>>)
      requires request.Valid() && State().Valid()
      modifies this
      ensures State() == ReadRequestStep(old(State()), rootDirectory, fs, request.Value()).session
      ensures r == ReadRequestStep(old(State()), rootDirectory, fs, request.Value()).reply
    {
      if request.fileName.None? || request.fileName.value == "" {
        return Ok(None);
      }
      if request.mode != Octet {
        var bytes := SendError(IllegalOperationCode, ModeNotSupportedMessage);
        return Ok(Some(bytes));
      }
      var path := LocalPath(rootDirectory, request.fileName.value);
      if path.Throw? {
        return Throw(path.exception);
      }
      fileInfo := Some(FileRef(path.value, if path.value in fs then Some(|fs[path.value]|) else None));
      if fileInfo.value.length.None? {
        var bytes := SendError(FileNotFoundCode, FileNotFoundMessage);
        return Ok(Some(bytes));
      }
      r := AnswerReadRequest(fileInfo.value.length.value, request.Value());
    }

    /** The part of ProcessReadRequest after the existence check. */
    method AnswerReadRequest(length: nat, request: Packet) returns (r: Result<Option<seq<byte>>>)
      requires State().Valid()
      modifies this
      ensures State() == Negotiate(old(State()), length, request).session
      ensures r == Negotiate(old(State()), length, request).reply
    {
      ghost var s := State();
      var response := AcknowledgmentOf(length, request);
      blockSize := DefaultBlockSize;
      if request.blockSize > 0 {
        blockSize := request.blockSize;
      }
      if blockSize + 4 > 0x7FFF_FFFF {
        NegotiateOverflows(s, length, request);
        return Throw(Overflow);
      }
      fileBlock := NewBlock(blockSize + 4);
      timeout := -1;
      if request.timeout > 0 {
        timeout := request.timeout;
      }
      var bytes := response.ToArray();
      NegotiateAccepted(s, length, request);
      r := Ok(Some(bytes.value));
    }

    /** `new byte[length]`: a fresh array of zero bytes. */
    static method NewBlock(length: nat) returns (a: array<byte>)
      ensures fresh(a) && a[..] == Zeros(length)
    {
      a := new byte[length](_ => 0);
    }

    /** The `responsePacket` of ProcessReadRequest: an option acknowledgment that gets
        tsize, blksize and timeout in turn, each under its condition. */
    static method AcknowledgmentOf(length: nat, request: Packet) returns (response: TftpPacket)
      ensures fresh(response) && fresh(response.options) && response.Valid()
      ensures response.Value() == Blank(OptionAcknowledgment).(options := OackOptions(length, request))
    {
      response := new TftpPacket(OptionAcknowledgment);
      if request.tSize == 0 {
        response.options.AddNumber("tsize", ToInt32(length));
      }
      if request.blockSize > 0 {
        response.options.AddNumber("blksize", request.blockSize);
      }
      if request.timeout > 0 {
        response.options.AddNumber("timeout", request.timeout);
      }
    }

    method ProcessAcknowledgment(fs: FileSystem, request: TftpPacket) returns (r: Result<Option<seq<byte>>>)
      requires State().Valid()
      modifies fileBlock
      ensures State() == AckStep(old(State()), fs, request.blockNumber).session
      ensures r == AckStep(old(State()), fs, request.blockNumber).reply
    {
      var position := ToInt32(request.blockNumber * blockSize);
      if fileInfo.None? {
        return Throw(NullReference);
      }
      if fileInfo.value.length.None? {
        return Throw(FileNotFound);
      }
      if position >= fileInfo.value.length.value {
        return Ok(None);
      }
      var count := Min(blockSize, ToInt32(ToInt32(fileInfo.value.length.value) - position));
      if fileBlock == null {
        return Throw(ArgumentNull);
      }
      r := SendFileBlock(fs, request.blockNumber, position, count);
    }

    /** The `using` blocks of ProcessAcknowledgment. */
    method SendFileBlock(fs: FileSystem, block: uint16, position: int32, count: int32)
      returns (r: Result<Option<seq<byte>>>)
      requires State().Valid() && fileInfo.Some? && fileBlock != null
      modifies fileBlock
      ensures State() == SendBlock(old(State()), fs, block, position, count).session
      ensures r == SendBlock(old(State()), fs, block, position, count).reply
    {
      var writer := new TftpPacketWriter.OnBuffer(fileBlock);
      writer.WriteUInt16(Data);
      writer.WriteUInt16((block + 1) % 0x1_0000);
      assert writer.written == UInt16Bytes(Data) + UInt16Bytes((block + 1) % 0x1_0000);
      var path := fileInfo.value.path;
      if path !in fs {
        return Throw(FileNotFound);
      }
      if position < 0 || count < 0 {
        return Throw(ArgumentOutOfRange);
      }
      if 4 + count > fileBlock.Length {
        return Throw(Argument);
      }
      ReadFile(fs[path], position, count);
      r := Ok(Some(fileBlock[..count + 4]));
    }

    /** FileStream.Read(_fileBlock, 4, count) on a stream positioned at `position`: the
        bytes the file has from there, at most `count`, copied after the header. */
    method ReadFile(content: seq<byte>, position: nat, count: nat)
      requires fileBlock != null && 4 + count <= fileBlock.Length
      modifies fileBlock
      ensures fileBlock[..] == Overwrite(old(fileBlock[..]), 4, Available(content, position, count))
    {
      var bytes := Available(content, position, count);
      for i := 0 to |bytes|
        invariant fileBlock[..] == Overwrite(old(fileBlock[..]), 4, bytes[..i])
      {
        fileBlock[4 + i] := bytes[i];
        assert bytes[..i + 1] == bytes[..i] + [bytes[i]];
      }
      assert bytes[..|bytes|] == bytes;
    }

    method SendNotSupportedError() returns (bytes: seq<byte>)
      ensures bytes == NotSupportedReply()
    {
      bytes := SendError(IllegalOperationCode, NotSupportedMessage);
    }

    /** SendError: the packet written into a stream of |message| + 5 bytes. */
    method SendError(code: uint16, message: string) returns (bytes: seq<byte>)
      ensures bytes == ErrorPacket(code, message)
    {
      var writer := new TftpPacketWriter(|message| + 5);
      writer.WriteUInt16(Error);
      writer.WriteUInt16(code);
      writer.WriteString(message);
      bytes := writer.ToArray();
    }
  }
}
