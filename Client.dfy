/** The binary-header client (CLIENT/Client.py): every transfer starts with a
    64-byte header whose first byte is its type (0x01 file, 0x02 message, 0x03
    chunk), packed with struct in network byte order. The module-level socket is
    the `Connection` class below; the chunk it accepts is written into a local file. */
module Client {
  import opened Bytes

  const HEADER_SIZE := 64
  const CHECKSUM_SIZE := 16
  const RECV_LIMIT := 4096

  const FILE_TYPE: byte := 0x01
  const MESSAGE_TYPE: byte := 0x02
  const CHUNK_TYPE: byte := 0x03

  /** Bytes 1..7 of a file header: "!H I". */
  const FILE_FIELDS_END := 7
  /** Bytes 1..11 of a chunk header: "!H I I". */
  const CHUNK_FIELDS_END := 11

  /** The longest file name that still fits a 64-byte file header. */
  const MAX_FILE_NAME := HEADER_SIZE - FILE_FIELDS_END
  /** The longest path that leaves room for the 16-byte checksum in a 64-byte chunk header. */
  const MAX_CHUNK_PATH := HEADER_SIZE - CHUNK_FIELDS_END - CHECKSUM_SIZE

  /** What `recv(64)` hands to handle_server out of a header that was sent. */
  function FirstHeaderBytes(sent: seq<byte>): seq<byte>
  {
    sent[..Min(HEADER_SIZE, |sent|)]
  }

  // ===========================================================================
  // Type 0x01: file header

  datatype FileHeaderInfo = FileHeaderInfo(name: seq<byte>, dataLength: nat)

  /** The header send_file builds (CLIENT/Client.py:33-40): type, name length,
      data length, name, then zero padding up to 64 bytes. struct.pack raises for a
      name of 2^16 bytes or more or data of 2^32 bytes or more: None. */
  function FileHeader(name: seq<byte>, dataLength: nat): (r: Option<seq<byte>>)
    ensures r.Some? <==> |name| < 0x1_0000 && dataLength < 0x1_0000_0000
    ensures r.Some? ==> |r.value| >= HEADER_SIZE && r.value[0] == FILE_TYPE
  {
    if |name| < 0x1_0000 && dataLength < 0x1_0000_0000 then
      Some([FILE_TYPE] + U16(|name|) + U32(dataLength) + name + Repeat(0, HEADER_SIZE - FILE_FIELDS_END - |name|))
    else None
  }

  /** receive_file's reading of a header (CLIENT/Client.py:49-50); struct.unpack
      raises when fewer than 7 bytes arrived: None. Slicing past the end is cut short. */
  function DecodeFileHeader(header: seq<byte>): (r: Option<FileHeaderInfo>)
    ensures r.Some? <==> |header| >= FILE_FIELDS_END
    ensures r.Some? ==>
              r.value.dataLength == ReadU32(header[3..7]) &&
              |r.value.name| == Min(ReadU16(header[1..3]), |header| - FILE_FIELDS_END)
    ensures r.Some? ==>
              var name := r.value.name;
              r.value.dataLength < 0x1_0000_0000 && |name| <= |header| - FILE_FIELDS_END &&
              |name| <= ReadU16(header[1..3]) && name == header[FILE_FIELDS_END..FILE_FIELDS_END + |name|]
  {
    if |header| < FILE_FIELDS_END then None
    else
      var nameLength := ReadU16(header[1..3]);
      Some(FileHeaderInfo(header[FILE_FIELDS_END..Min(FILE_FIELDS_END + nameLength, |header|)], ReadU32(header[3..7])))
  }

  /** The file header is type 0x01, the two length fields, the name, and zeros up to
      exactly 64 bytes when the name has at most 57 bytes; a longer name is not padded. */
  lemma FileHeaderLayout(name: seq<byte>, dataLength: nat)
    requires |name| < 0x1_0000 && dataLength < 0x1_0000_0000
    ensures FileHeader(name, dataLength).Some?
    ensures var h := FileHeader(name, dataLength).value;
            |h| == (if |name| <= MAX_FILE_NAME then HEADER_SIZE else FILE_FIELDS_END + |name|) &&
            h[0] == FILE_TYPE && h[1..3] == U16(|name|) && h[3..7] == U32(dataLength) &&
            h[FILE_FIELDS_END..FILE_FIELDS_END + |name|] == name &&
            forall i | FILE_FIELDS_END + |name| <= i < |h| :: h[i] == 0
  {
  }

  /** Decoding the whole header recovers the name and the data length send_file packed. */
  lemma FileHeaderRoundTrip(name: seq<byte>, dataLength: nat)
    requires |name| < 0x1_0000 && dataLength < 0x1_0000_0000
    ensures DecodeFileHeader(FileHeader(name, dataLength).value) == Some(FileHeaderInfo(name, dataLength))
  {
    var h := FileHeader(name, dataLength).value;
    assert h[1..3] == U16(|name|) && h[3..7] == U32(dataLength);
    U16RoundTrip(|name|);
    U32RoundTrip(dataLength);
    assert h[FILE_FIELDS_END..FILE_FIELDS_END + |name|] == name;
  }

  /** handle_server reads only 64 header bytes, so the receiver gets the name back
      exactly when it has at most 57 bytes; a longer one arrives cut to 57. */
  lemma FileHeaderReceived(name: seq<byte>, dataLength: nat)
    requires |name| < 0x1_0000 && dataLength < 0x1_0000_0000
    ensures var got := DecodeFileHeader(FirstHeaderBytes(FileHeader(name, dataLength).value));
            got.Some? && got.value.dataLength == dataLength &&
            got.value.name == name[..Min(|name|, MAX_FILE_NAME)] &&
            (got == Some(FileHeaderInfo(name, dataLength)) <==> |name| <= MAX_FILE_NAME)
  {
    FileHeaderLayout(name, dataLength);
    var h := FileHeader(name, dataLength).value;
    var r := FirstHeaderBytes(h);
    assert |r| == HEADER_SIZE;
    assert r[1..3] == h[1..3] && r[3..7] == h[3..7];
    U16RoundTrip(|name|);
    U32RoundTrip(dataLength);
    var k := Min(|name|, MAX_FILE_NAME);
    assert r[FILE_FIELDS_END..FILE_FIELDS_END + k] == h[FILE_FIELDS_END..FILE_FIELDS_END + k];
    assert h[FILE_FIELDS_END..FILE_FIELDS_END + k] == name[..k];
  }

  // ===========================================================================
  // Type 0x02: message header

  /** The header send_message builds (CLIENT/Client.py:73-76); None when "!I"
      cannot hold the length. */
  function MessageHeader(length: nat): (r: Option<seq<byte>>)
    ensures r.Some? <==> length < 0x1_0000_0000
    ensures r.Some? ==> |r.value| == HEADER_SIZE && r.value[0] == MESSAGE_TYPE
  {
    if length < 0x1_0000_0000 then
      Some([MESSAGE_TYPE] + U32(length) + Repeat(0, HEADER_SIZE - 5))
    else None
  }

  /** receive_message's reading of the length (CLIENT/Client.py:85). */
  function DecodeMessageLength(header: seq<byte>): (r: Option<nat>)
    ensures r.Some? <==> |header| >= 5
    ensures r.Some? ==> r.value == ReadU32(header[1..5]) && r.value < 0x1_0000_0000
  {
    if |header| < 5 then None else Some(ReadU32(header[1..5]))
  }

  /** A message header is exactly 64 bytes, starts with 0x02, and gives back the
      length it was built from. */
  lemma MessageHeaderRoundTrip(length: nat)
    requires length < 0x1_0000_0000
    ensures MessageHeader(length).Some?
    ensures var h := MessageHeader(length).value;
            |h| == HEADER_SIZE && h[0] == MESSAGE_TYPE && h[1..5] == U32(length) &&
            (forall i | 5 <= i < HEADER_SIZE :: h[i] == 0) && FirstHeaderBytes(h) == h &&
            DecodeMessageLength(h) == Some(length)
  {
    var h := MessageHeader(length).value;
    assert h[1..5] == U32(length);
    U32RoundTrip(length);
  }

  // ===========================================================================
  // Type 0x03: chunk header

  datatype ChunkHeaderInfo = ChunkHeaderInfo(path: seq<byte>, offset: nat, chunkSize: nat, checksum: seq<byte>)

  /** receive_file_chunk's reading of a header (CLIENT/Client.py:90-93): "!H I I",
      the path, then the 16 bytes after it, each slice cut short at the end. */
  function DecodeChunkHeader(header: seq<byte>): (r: Option<ChunkHeaderInfo>)
    ensures r.Some? <==> |header| >= CHUNK_FIELDS_END
    ensures r.Some? ==>
              r.value.offset == ReadU32(header[3..7]) && r.value.chunkSize == ReadU32(header[7..11]) &&
              |r.value.path| == Min(ReadU16(header[1..3]), |header| - CHUNK_FIELDS_END) &&
              |r.value.checksum| == Min(CHECKSUM_SIZE, |header| - CHUNK_FIELDS_END - |r.value.path|)
    ensures r.Some? ==>
              var path, sum := r.value.path, r.value.checksum;
              r.value.offset < 0x1_0000_0000 && r.value.chunkSize < 0x1_0000_0000 &&
              |path| <= ReadU16(header[1..3]) && |sum| <= CHECKSUM_SIZE &&
              CHUNK_FIELDS_END + |path| + |sum| <= |header| &&
              path == header[CHUNK_FIELDS_END..CHUNK_FIELDS_END + |path|] &&
              sum == header[CHUNK_FIELDS_END + |path|..CHUNK_FIELDS_END + |path| + |sum|]
  {
    if |header| < CHUNK_FIELDS_END then None
    else
      var pathLength := ReadU16(header[1..3]);
      var pathEnd := Min(CHUNK_FIELDS_END + pathLength, |header|);
      var checksumEnd := Min(CHUNK_FIELDS_END + pathLength + CHECKSUM_SIZE, |header|);
      Some(ChunkHeaderInfo(header[CHUNK_FIELDS_END..pathEnd], ReadU32(header[3..7]), ReadU32(header[7..11]),
                           header[pathEnd..checksumEnd]))
  }

  /** The layout receive_file_chunk expects (the repository has no sender for it). */
  function ChunkHeaderLayout(path: seq<byte>, offset: nat, chunkSize: nat, checksum: seq<byte>): seq<byte>
    requires |path| < 0x1_0000 && offset < 0x1_0000_0000 && chunkSize < 0x1_0000_0000
  {
    [CHUNK_TYPE] + U16(|path|) + U32(offset) + U32(chunkSize) + path + checksum
  }

  /** A chunk header whose path has at most 37 bytes, padded to 64 bytes with any
      bytes, is exactly what handle_server's `recv(64)` hands over whatever data
      follows it, and decodes to the path, offset, size and checksum it was laid out from. */
  lemma ChunkHeaderRoundTrip(path: seq<byte>, offset: nat, chunkSize: nat, checksum: Digest16,
                             pad: seq<byte>, data: seq<byte>)
    requires |path| <= MAX_CHUNK_PATH && offset < 0x1_0000_0000 && chunkSize < 0x1_0000_0000
    requires |pad| == MAX_CHUNK_PATH - |path|
    ensures var h := ChunkHeaderLayout(path, offset, chunkSize, checksum) + pad;
            |h| == HEADER_SIZE && FirstHeaderBytes(h + data) == h &&
            DecodeChunkHeader(h) == Some(ChunkHeaderInfo(path, offset, chunkSize, checksum))
  {
    var h := ChunkHeaderLayout(path, offset, chunkSize, checksum) + pad;
    assert (h + data)[..HEADER_SIZE] == h;
    assert h[1..3] == U16(|path|) && h[3..7] == U32(offset) && h[7..11] == U32(chunkSize);
    U16RoundTrip(|path|);
    U32RoundTrip(offset);
    U32RoundTrip(chunkSize);
    assert h[CHUNK_FIELDS_END..CHUNK_FIELDS_END + |path|] == path;
    assert h[CHUNK_FIELDS_END + |path|..CHUNK_FIELDS_END + |path| + CHECKSUM_SIZE] == checksum;
  }

  /** With a declared path length above 37, the checksum slice of a 64-byte header
      is shorter than 16 bytes. */
  lemma LongPathShortChecksum(header: seq<byte>)
    requires CHUNK_FIELDS_END <= |header| <= HEADER_SIZE
    requires ReadU16(header[1..3]) > MAX_CHUNK_PATH
    ensures |DecodeChunkHeader(header).value.checksum| < CHECKSUM_SIZE
  {
  }

  datatype ChunkOutcome = BadChunkHeader | NoData | Mismatch | Written

  /** The checksum gate of receive_file_chunk (CLIENT/Client.py:95-105): empty data is
      dropped, data whose raw MD5 digest differs from the header's is refused. */
  function ChunkVerdict(md5: seq<byte> -> Digest16, info: ChunkHeaderInfo, data: seq<byte>): (r: ChunkOutcome)
    ensures r != BadChunkHeader
    ensures r == NoData <==> data == []
    ensures r == Written <==> data != [] && md5(data) == info.checksum
    ensures r == Written ==> |info.checksum| == CHECKSUM_SIZE
  {
    if data == [] then NoData
    else if md5(data) != info.checksum then Mismatch
    else Written
  }

  /** A chunk announced with a path longer than 37 bytes is never written, whatever
      data follows it. */
  lemma LongPathNeverWritten(md5: seq<byte> -> Digest16, header: seq<byte>, data: seq<byte>)
    requires CHUNK_FIELDS_END <= |header| <= HEADER_SIZE
    requires ReadU16(header[1..3]) > MAX_CHUNK_PATH
    ensures ChunkVerdict(md5, DecodeChunkHeader(header).value, data) != Written
  {
    LongPathShortChecksum(header);
  }

  /** A file's contents after `seek(offset)` and `write(data)` on a file opened "r+b":
      a write past the end leaves a zero-filled gap. */
  function WriteAt(content: seq<byte>, offset: nat, data: seq<byte>): (r: seq<byte>)
    ensures |r| == if offset + |data| > |content| then offset + |data| else |content|
    ensures r[offset..offset + |data|] == data
    ensures forall i | 0 <= i < |content| && !(offset <= i < offset + |data|) :: r[i] == content[i]
    ensures forall i | |content| <= i < offset :: r[i] == 0
  {
    var head := if offset <= |content| then content[..offset] else content + Repeat(0, offset - |content|);
    var tail := if offset + |data| < |content| then content[offset + |data|..] else [];
    head + data + tail
  }

  /** os.path.basename: the part of the path after its last "/". */
  function Basename(path: seq<byte>): seq<byte>
  {
    path[LastIndexOf(path, 47) + 1..]
  }

  const CHECKSUM_ERROR := Ascii("ERROR: Checksum mismatch for chunk.")
  const UNKNOWN_TYPE_ERROR := Ascii("ERROR: Unknown header type.")

  function NotFoundError(path: seq<byte>): seq<byte>
  {
    Ascii("ERROR: File '") + path + Ascii("' not found.")
  }

  /** What one call of handle_server did. */
  datatype Event =
    | ConnectionClosed
    | FileReceived(file: Option<FileHeaderInfo>, data: seq<byte>)
    | MessageReceived(message: Option<seq<byte>>)
    | ChunkReceived(outcome: ChunkOutcome)
    | UnknownType(headerType: byte)

  // ===========================================================================
  // The connection and the local file

  class Connection {
    /** Bytes the server has sent that this client has not read yet. */
    var incoming: seq<byte>
    /** Everything this client has sent. */
    var outgoing: seq<byte>
    var closed: bool
    /** The contents of "test.txt", which receive_file_chunk writes every accepted chunk into. */
    var chunkTarget: seq<byte>

    constructor (incoming: seq<byte>, chunkTarget: seq<byte>)
      ensures this.incoming == incoming && this.chunkTarget == chunkTarget
      ensures outgoing == [] && !closed
    {
      this.incoming := incoming;
      this.chunkTarget := chunkTarget;
      outgoing := [];
      closed := false;
    }

    /** `client.recv(n)`: at most n of the bytes that have arrived. */
    method Recv(n: nat) returns (data: seq<byte>)
      modifies this`incoming
      ensures data == old(incoming)[..Min(n, |old(incoming)|)]
      ensures incoming == old(incoming)[|data|..]
    {
      data := incoming[..Min(n, |incoming|)];
      incoming := incoming[|data|..];
    }

    /** send_message (CLIENT/Client.py:69-82): the 64-byte type-0x02 header, then the
        message. `ok` is false when struct.pack raises and nothing is sent. */
    method SendMessage(message: seq<byte>) returns (ok: bool)
      modifies this`outgoing
      ensures ok == (|message| < 0x1_0000_0000)
      ensures ok ==> outgoing == old(outgoing) + MessageHeader(|message|).value + message
      ensures !ok ==> outgoing == old(outgoing)
    {
      var header := MessageHeader(|message|);
      if header.None? {
        return false;
      }
      outgoing := outgoing + header.value + message;
      ok := true;
    }

    /** send_file (CLIENT/Client.py:22-46) against the local files: a missing file is
        reported with an error message; otherwise the type-0x01 header and the data go
        out. `ok` is false when a struct.pack raised. */
    method SendFile(disk: map<seq<byte>, seq<byte>>, path: seq<byte>) returns (ok: bool)
      modifies this`outgoing
      ensures path !in disk ==> ok == (|NotFoundError(path)| < 0x1_0000_0000) &&
                                outgoing == old(outgoing) + (if ok then MessageHeader(|NotFoundError(path)|).value + NotFoundError(path) else [])
      ensures path in disk ==>
                var header := FileHeader(Basename(path), |disk[path]|);
                ok == header.Some? &&
                outgoing == old(outgoing) + (if ok then header.value + disk[path] else [])
    {
      if path !in disk {
        ok := SendMessage(NotFoundError(path));
        return;
      }
      var data := disk[path];
      var header := FileHeader(Basename(path), |data|);
      if header.None? {
        return false;
      }
      outgoing := outgoing + header.value + data;
      ok := true;
    }

    /** receive_file (CLIENT/Client.py:48-60): decode the header, then read the data
        in pieces of at most 4096 bytes until it is all there or the peer stops. */
    method ReceiveFile(header: seq<byte>) returns (file: Option<FileHeaderInfo>, fileData: seq<byte>)
      modifies this`incoming
      ensures file == DecodeFileHeader(header)
      ensures file.None? ==> fileData == [] && incoming == old(incoming)
      ensures file.Some? ==> fileData == old(incoming)[..Min(file.value.dataLength, |old(incoming)|)]
      ensures incoming == old(incoming)[|fileData|..]
    {
      file := DecodeFileHeader(header);
      fileData := [];
      if file.None? {
        return;
      }
      var dataLength := file.value.dataLength;
      var remaining := dataLength;
      while remaining > 0
        invariant 0 <= remaining <= dataLength
        invariant |fileData| + remaining == dataLength
        invariant old(incoming) == fileData + incoming
        decreases remaining
      {
        var chunk := Recv(Min(remaining, RECV_LIMIT));
        if chunk == [] {
          break;
        }
        fileData := fileData + chunk;
        remaining := remaining - |chunk|;
      }
      assert old(incoming)[..|fileData|] == fileData;
    }

    /** receive_message (CLIENT/Client.py:84-87). */
    method ReceiveMessage(header: seq<byte>) returns (message: Option<seq<byte>>)
      modifies this`incoming
      ensures DecodeMessageLength(header).None? ==> message.None? && incoming == old(incoming)
      ensures DecodeMessageLength(header).Some? ==>
                var n := DecodeMessageLength(header).value;
                message == Some(old(incoming)[..Min(n, |old(incoming)|)]) &&
                incoming == old(incoming)[Min(n, |old(incoming)|)..]
    {
      var length := DecodeMessageLength(header);
      if length.None? {
        return None;
      }
      var data := Recv(length.value);
      message := Some(data);
    }

    /** receive_file_chunk (CLIENT/Client.py:89-116): decode the header, read the
        chunk, and write it at its offset only when its MD5 digest matches. */
    method ReceiveFileChunk(md5: seq<byte> -> Digest16, header: seq<byte>) returns (outcome: ChunkOutcome)
      modifies this`incoming, this`outgoing, this`chunkTarget
      ensures DecodeChunkHeader(header).None? ==>
                outcome == BadChunkHeader && incoming == old(incoming) &&
                outgoing == old(outgoing) && chunkTarget == old(chunkTarget)
      ensures DecodeChunkHeader(header).Some? ==>
                var info := DecodeChunkHeader(header).value;
                var data := old(incoming)[..Min(info.chunkSize, |old(incoming)|)];
                outcome == ChunkVerdict(md5, info, data) &&
                incoming == old(incoming)[|data|..] &&
                chunkTarget == (if outcome == Written then WriteAt(old(chunkTarget), info.offset, data) else old(chunkTarget)) &&
                outgoing == old(outgoing) + (if outcome == Mismatch then MessageHeader(|CHECKSUM_ERROR|).value + CHECKSUM_ERROR else [])
    {
      var decoded := DecodeChunkHeader(header);
      if decoded.None? {
        return BadChunkHeader;
      }
      var info := decoded.value;
      var data := Recv(info.chunkSize);
      if data == [] {
        return NoData;
      }
      if md5(data) != info.checksum {
        var _ := SendMessage(CHECKSUM_ERROR);
        return Mismatch;
      }
      chunkTarget := WriteAt(chunkTarget, info.offset, data);
      outcome := Written;
    }

    /** handle_server (CLIENT/Client.py:118-138): read a 64-byte header and route it
        on its first byte. */
    method HandleServer(md5: seq<byte> -> Digest16) returns (event: Event)
      modifies this
      ensures old(incoming) == [] ==> event == ConnectionClosed && closed && incoming == []
      ensures old(incoming) != [] ==> !event.ConnectionClosed? && closed == old(closed)
      ensures old(incoming) != [] ==>
                var t := old(incoming)[0];
                (t == FILE_TYPE <==> event.FileReceived?) &&
                (t == MESSAGE_TYPE <==> event.MessageReceived?) &&
                (t == CHUNK_TYPE <==> event.ChunkReceived?) &&
                (event.UnknownType? <==> t !in {FILE_TYPE, MESSAGE_TYPE, CHUNK_TYPE})
      ensures event.UnknownType? ==>
                incoming == old(incoming)[|FirstHeaderBytes(old(incoming))|..] &&
                outgoing == old(outgoing) + MessageHeader(|UNKNOWN_TYPE_ERROR|).value + UNKNOWN_TYPE_ERROR
      ensures !event.ChunkReceived? ==> chunkTarget == old(chunkTarget)
      ensures event.ConnectionClosed? || event.FileReceived? || event.MessageReceived? ==> outgoing == old(outgoing)
      ensures event.FileReceived? ==>
                var h := FirstHeaderBytes(old(incoming));
                var inc := old(incoming)[|h|..];
                event.file == DecodeFileHeader(h) &&
                event.data == (if event.file.Some? then inc[..Min(event.file.value.dataLength, |inc|)] else []) &&
                incoming == inc[|event.data|..]
      ensures event.MessageReceived? ==>
                var h := FirstHeaderBytes(old(incoming));
                var inc := old(incoming)[|h|..];
                match DecodeMessageLength(h)
                case None => event.message.None? && incoming == inc
                case Some(n) => event.message == Some(inc[..Min(n, |inc|)]) && incoming == inc[Min(n, |inc|)..]
      ensures event.ChunkReceived? ==>
                var h := FirstHeaderBytes(old(incoming));
                var inc := old(incoming)[|h|..];
                match DecodeChunkHeader(h)
                case None =>
                  event.outcome == BadChunkHeader && incoming == inc &&
                  outgoing == old(outgoing) && chunkTarget == old(chunkTarget)
                case Some(info) =>
                  var data := inc[..Min(info.chunkSize, |inc|)];
                  event.outcome == ChunkVerdict(md5, info, data) &&
                  incoming == inc[|data|..] &&
                  chunkTarget == (if event.outcome == Written then WriteAt(old(chunkTarget), info.offset, data) else old(chunkTarget)) &&
                  outgoing == old(outgoing) + (if event.outcome == Mismatch then MessageHeader(|CHECKSUM_ERROR|).value + CHECKSUM_ERROR else [])
    {
      ghost var before := incoming;
      var header := Recv(HEADER_SIZE);
      assert header != [] ==> header[0] == before[0];
      if header == [] {
        closed := true;
        return ConnectionClosed;
      }
      var headerType := header[0];
      if headerType == FILE_TYPE {
        var file, data := ReceiveFile(header);
        event := FileReceived(file, data);
      } else if headerType == MESSAGE_TYPE {
        var message := ReceiveMessage(header);
        event := MessageReceived(message);
      } else if headerType == CHUNK_TYPE {
        var outcome := ReceiveFileChunk(md5, header);
        event := ChunkReceived(outcome);
      } else {
        var _ := SendMessage(UNKNOWN_TYPE_ERROR);
        event := UnknownType(headerType);
      }
    }
  }
}
