# SOCKET-PROJECT file transfer, modelled in Dafny

SOCKET-PROJECT is a small TCP file-transfer system made of three Python programs.
Each speaks its own wire format:

- `SERVER/Server.py` is a threaded file server. Its control messages carry a 64-byte
  ASCII header: the payload length in decimal, left-aligned and space-padded.
  - `!CONNECT` is answered with a catalog of the files next to the server (one line
    `name size_str size_bytes md5` per file).
  - `!DISCONNECT` ends the session.
  - `GET <name> <start> <end>` is answered with the bytes `[start, end)` of a file. They go
    out in packets of at most 4096 bytes, each `uint32 BE length ‖ first 16 hex
    characters of the MD5 ‖ payload`.
- `CLIENT/Client.py` is a client whose transfers start with a 64-byte binary header. The
  first byte is the type:
  - 0x01 is a file: `!B H I`, then the name, zero-padded.
  - 0x02 is a message: `!B I`, zero-padded.
  - 0x03 is a file chunk: `!B H I I`, then the path and the raw 16-byte MD5. It is
    written at its offset only when the checksum matches.
- `CLIENT/Client2.py` is a parallel downloader:
  - `main` cuts `[0, file_size)` into one range per thread.
  - Each thread sends `GET name start end\n` and writes the data it receives to a part
    file, one 1024-byte block at a time. A block is written only after the 64-character
    SHA-256 hex digest that follows it matches.
  - `merge_files` concatenates the parts in index order.

The three formats are incompatible with each other. Each is modelled on its own terms,
in one module per program, over a shared module of byte-level building blocks:

- `Bytes`: bytes, big-endian `!H`/`!I`, decimal numerals, hex digests.
- `Server`: `SERVER/Server.py`.
- `Client`: `CLIENT/Client.py`. The module-level socket and the local file the chunks
  go into are the fields of the class `Client.Connection`.
- `ParallelDownload`: `CLIENT/Client2.py`.

Modelling choices:

- Text is modelled as its UTF-8 bytes.
- Hash functions are parameters that return raw digests of fixed length: 16 bytes for
  MD5, 32 for SHA-256. `hexdigest()` is modelled concretely as two lower-case hex
  characters per byte.
- A socket's input is the sequence of bytes still to arrive. `recv(n)` takes
  `min(n, available)` of them.
- The directory and the files are given values: a list of entries, and a map from
  name to contents.

## Model

| member | source | states |
|---|---|---|
| `Bytes.U32RoundTrip` | SERVER/Server.py:99 | unpacking `!I` gives back the value `!I` packed, for every value below 2^32 |
| `Bytes.DecimalRoundTrip` | SERVER/Server.py:72 | reading back the decimal numeral of a length gives that length |
| `Bytes.DecimalLength` | SERVER/Server.py:72 | a numeral fits in k characters exactly when the number is below 10^k (so a length fits the 64-byte header iff it is below 10^64) |
| `Bytes.Hex` | SERVER/Server.py:38 | a hex digest has two characters per digest byte, all of them lower-case hex digits |
| `Server.ConvertSize` | SERVER/Server.py:26-35 | the division loop returns "0B" for sizes <= 0 and otherwise `size // 1024^k` and unit k, where k is the unique magnitude of the size (largest power of 1024 not above it, capped at PB) |
| `Server.SizeLabelScaled` | SERVER/Server.py:30-35 | for a positive size the number shown is at least 1 and below 1024 unless the unit is PB, followed by one space and the unit |
| `Server.SizeLabelSpaces` | SERVER/Server.py:28-29 | "0B" contains no space, every positive size label exactly one |
| `Server.MagnitudeUnique` | SERVER/Server.py:32-34 | a size has exactly one unit index at which the loop can stop |
| `Server.Strip` | SERVER/Server.py:77 | the stripped header neither starts nor ends with whitespace |
| `Server.StripTrims` | SERVER/Server.py:77 | the stripped header is a slice `s[i..j]` of the raw header with only whitespace before i and after j |
| `Server.ParseInt` | SERVER/Server.py:81 | `int()` succeeds iff the text is an optional sign followed by digits with single underscores between them; the value is that of the digits with the underscores removed, negated after `-` and unchanged after `+` |
| `Server.DropUnderscores` | SERVER/Server.py:81 | the result is all digits, and a string that is already all digits is left as it is |
| `Server.DropUnderscoresAppend` | SERVER/Server.py:81 | underscores are removed piece by piece: the digits of a concatenation are the digits of each part, and a lone underscore contributes none |
| `Server.ReceiveMessage` | SERVER/Server.py:75-83 | no message (`None`) iff the stripped header is empty; a message is received iff the stripped header parses as an integer in `[0, 2^63)`; it is the first `min(length, available)` bytes after the header, and those bytes followed by what is left are exactly the stream after the header |
| `Server.RecvMaxFitsHeader` | SERVER/Server.py:81-82 | every length `recv` accepts, and the first one it refuses, has a numeral that fits the 64-byte header |
| `Server.EncodeMessage` | SERVER/Server.py:69-73 | the encoding starts with the decimal length of the payload, ends with the payload, and is 64 bytes longer than the payload unless the numeral is longer than 64 characters |
| `Server.PaddedHeader` | SERVER/Server.py:72-77 | a numeral of at most 64 characters padded with spaces to 64 bytes strips back to that numeral, and the bytes after the 64 are untouched |
| `Server.EncodedHeaderShape` | SERVER/Server.py:69-73 | for a payload shorter than 10^64 bytes the header is exactly 64 bytes: the decimal length, then spaces; the payload follows unchanged |
| `Server.HeaderOf` | SERVER/Server.py:77 | the first 64 bytes of an encoded message strip to the decimal length of the payload, and the payload follows them |
| `Server.FramingRoundTrip` | SERVER/Server.py:69-83 | for every payload shorter than 2^63 bytes, receiving an encoded message yields exactly that payload and leaves exactly the bytes that followed it |
| `Server.BlankHeaderEndsReceive` | SERVER/Server.py:77-79 | an empty or all-whitespace header yields no message (`None`) |
| `Server.BadHeaderEndsSession` | SERVER/Server.py:81-82 | a non-blank header that `int()` rejects, or whose value is negative or at least 2^63 (refused by `recv`), ends the session with a read error and no reply |
| `Server.OversizedLengthEndsSession` | SERVER/Server.py:82 | a well-formed header announcing 2^63 bytes ends the session with no reply, even before a `!CONNECT` |
| `Server.SplitGetLine` | SERVER/Server.py:124 | a line that splits is exactly "GET " + name + " " + first + " " + second |
| `Server.ParseGetLine` | SERVER/Server.py:124-128 | a line that parses starts with "GET " and names a non-empty file name without blanks |
| `Server.ParseGet` | SERVER/Server.py:124-128 | a message that parses starts with "GET " and names a non-empty file name without blanks |
| `Server.ParseGetComplete` | SERVER/Server.py:124-128 | every message matching `GET <non-blank name> <digits> <digits>` with an optional final newline parses to that name and those two integers |
| `Server.ParseGetSound` | SERVER/Server.py:124-128 | every parsed message matches that grammar, and the parsed bounds are the values of its digit fields |
| `Server.ParseGetLineSound` | SERVER/Server.py:124 | a line the pattern accepts is the concatenation of its fields, which satisfy `\S+`, `\d+`, `\d+` |
| `Server.Classify` | SERVER/Server.py:117-135 | a message classifies as `!CONNECT` iff it is that exact text, `!DISCONNECT` iff it is that exact text, as a GET command (good or malformed) iff it starts with "GET", and a GET's request is what the pattern parsed |
| `Server.ClassifyGet` | SERVER/Server.py:123-128 | every message matching the GET grammar is dispatched as that GET request |
| `Server.Checksum` | SERVER/Server.py:37-38 | the packet checksum is 16 characters long |
| `Server.ParsePacketOf` | SERVER/Server.py:99 | the packet layout read back from the front of a stream gives the packet and leaves exactly what followed |
| `Server.ParsePacketsRoundTrip` | SERVER/Server.py:98-100 | the declared length of every packet equals its payload length: reading the packet layout back recovers every packet of the stream, in order |
| `Server.ChunkPacketsStep` | SERVER/Server.py:91-102 | while the range is not covered and the file not ended, the loop sends one packet of 1..4096 bytes and carries on from where that read stopped |
| `Server.ChunkPacketsCover` | SERVER/Server.py:91-102 | every packet carries 1..4096 bytes with the checksum of its own payload, all but the last carry exactly 4096, and in order the payloads spell exactly the file bytes `[start, min(end, size))` |
| `Server.NoPacketsOutside` | SERVER/Server.py:91-96 | nothing is sent iff start >= end or start >= file size, i.e. iff the requested window of the file is empty |
| `Server.SendChunkFile` | SERVER/Server.py:87-107 | a missing file sends nothing; otherwise the read loop emits exactly the packets of the range |
| `Server.ListedEntries` | SERVER/Server.py:55-57 | an entry is listed iff it is a regular file not named Server.py; a one-entry directory lists that entry exactly when it qualifies |
| `Server.ListedEntriesAppend` | SERVER/Server.py:57 | the listing of a concatenated directory is the listing of the first part followed by that of the second, so each regular file appears once per occurrence, in directory order |
| `Server.FileChecksum` | SERVER/Server.py:40-50 | the checksum of a file that exists is 32 lower-case hex characters; for a missing file it is the text `Error: File '<name>' not found.`, which is not |
| `Server.CatalogLine` | SERVER/Server.py:64 | a line starts with the file name and a blank, and ends with a blank and the file's checksum |
| `Server.CatalogLines` | SERVER/Server.py:59-64 | one catalog line per listed file: the i-th line is the line of the i-th listed file |
| `Server.FileList` | SERVER/Server.py:52-67 | the catalog loop, calling convert_size for each file, produces the listed files' lines joined by newlines |
| `Server.SplitJoin` | SERVER/Server.py:64-66 | splitting parts joined by a one-byte separator at that separator gives back exactly the parts when no part holds it: the catalog splits into its lines and a line into its fields |
| `Server.CatalogLineWords` | SERVER/Server.py:61-64 | for a file in the directory's contents whose name has no blank, splitting its line at blanks gives the name, the words of `convert_size`'s text, the size in bytes, which reads back as the file's size, and the MD5 hex digest, in that order |
| `Server.CatalogLineFields` | SERVER/Server.py:64 | a line for a file that is in the directory's contents and whose name has no blank has 3 separating blanks when the file is empty and 4 otherwise |
| `Server.ServeMessage` | SERVER/Server.py:111-138 | a pass of the session loop that does not end the session consumes part of the input |
| `Server.Respond` | SERVER/Server.py:117-135 | the reply to a command: the framed catalog for `!CONNECT`, the packets of a GET, nothing otherwise |
| `Server.SessionUnfold` | SERVER/Server.py:111-138 | the session ends at once unless a non-empty message other than `!DISCONNECT` arrives; then its reply comes first and the rest of the input is served after it |
| `Server.ServeOnce` | SERVER/Server.py:111-138 | one pass of the loop either ends the session with nothing sent or sends the reply to the message and leaves a strictly shorter input whose output completes the session |
| `Server.HandleClient` | SERVER/Server.py:109-140 | the loop sends exactly the session output defined message by message |
| `Server.DisconnectEndsSession` | SERVER/Server.py:120-121 | after `!DISCONNECT` nothing more is answered |
| `Server.SessionStep` | SERVER/Server.py:111-135 | a framed non-empty message other than `!DISCONNECT` is answered with the reply to its command, and the session goes on with the bytes after it |
| `Server.ConnectSendsCatalog` | SERVER/Server.py:117-118 | `!CONNECT` is answered with the framed catalog and the session continues |
| `Server.GetSendsPackets` | SERVER/Server.py:123-130 | a well-formed GET is answered with the packets of the requested range (none for a missing file) and the session continues |
| `Server.OtherMessagesIgnored` | SERVER/Server.py:131-135 | any other non-empty message gets no reply and the session continues |
| `Client.FileHeader` | CLIENT/Client.py:33-40 | the header exists iff the name is shorter than 2^16 bytes and the data shorter than 2^32 bytes (else struct.pack raises); it starts with 0x01 and is at least 64 bytes |
| `Client.DecodeFileHeader` | CLIENT/Client.py:49-50 | decoding succeeds iff at least 7 bytes arrived; the data length is the `!I` field of bytes 3..7, and the name is the next `min(declared !H length, available)` bytes after the fixed fields |
| `Client.FileHeaderLayout` | CLIENT/Client.py:33-40 | the file header is 0x01, the `!H` name length, the `!I` data length, the name, then zeros; exactly 64 bytes when the name has at most 57 bytes, unpadded otherwise |
| `Client.FileHeaderRoundTrip` | CLIENT/Client.py:36-50 | decoding the full header recovers the name and data length that were packed |
| `Client.FileHeaderReceived` | CLIENT/Client.py:49-50 | from the 64 bytes handle_server reads, the data length always comes back and the name comes back cut to 57 bytes; the header is recovered exactly iff the name has at most 57 bytes |
| `Client.MessageHeader` | CLIENT/Client.py:73-76 | the header exists iff the length is below 2^32; it is exactly 64 bytes and starts with 0x02 |
| `Client.DecodeMessageLength` | CLIENT/Client.py:85 | the length is read iff at least 5 bytes arrived, and is the `!I` field of bytes 1..5 |
| `Client.MessageHeaderRoundTrip` | CLIENT/Client.py:73-85 | the message header is exactly 64 bytes: 0x02, the `!I` length, then zeros; it decodes to the length it was built from |
| `Client.DecodeChunkHeader` | CLIENT/Client.py:90-93 | decoding succeeds iff at least 11 bytes arrived; offset and size are the two `!I` fields; the path is the next `min(declared length, available)` bytes and the checksum the next `min(16, available)` bytes after it |
| `Client.ChunkVerdict` | CLIENT/Client.py:95-105 | empty data is dropped; a chunk is written iff its data is non-empty and its MD5 digest equals the header's checksum, which then has 16 bytes; otherwise it is a mismatch |
| `Client.ChunkHeaderRoundTrip` | CLIENT/Client.py:90-93 | a chunk header whose path has at most 37 bytes, padded to 64 bytes, is exactly what `recv(64)` returns whatever data follows it, and decodes to its path, offset, size and 16-byte checksum |
| `Client.LongPathShortChecksum` | CLIENT/Client.py:90-93 | with a declared path length above 37 the checksum slice of a 64-byte header is shorter than 16 bytes |
| `Client.LongPathNeverWritten` | CLIENT/Client.py:100-102 | such a chunk never passes the checksum gate, whatever data follows |
| `Client.WriteAt` | CLIENT/Client.py:108-110 | after seek and write, bytes `[offset, offset+len)` are the chunk, all other bytes are unchanged, and a gap past the old end is zero-filled |
| `Client.Connection.SendMessage` | CLIENT/Client.py:69-82 | the 64-byte 0x02 header and the message are appended to what was sent; nothing is sent when the length does not fit `!I` |
| `Client.Connection.SendFile` | CLIENT/Client.py:22-46 | a missing file is reported with an error message; otherwise the file header (of the base name) and the data are sent |
| `Client.Connection.ReceiveFile` | CLIENT/Client.py:48-60 | the header is decoded and then exactly `min(data_length, available)` bytes are taken from the connection, with `len(file_data) + remaining == data_length` kept by the loop |
| `Client.Connection.ReceiveMessage` | CLIENT/Client.py:84-87 | the message is the next `length` bytes (or fewer if the peer stops), and no bytes are consumed when the header is too short |
| `Client.Connection.ReceiveFileChunk` | CLIENT/Client.py:89-116 | the chunk is read, and the local file changes only when the data is non-empty and its MD5 digest equals the header's checksum, and then exactly by a write at the offset; a mismatch sends the checksum error message |
| `Client.Connection.HandleServer` | CLIENT/Client.py:118-138 | an empty read closes the connection; type 0x01/0x02/0x03 goes to the matching receiver, with that receiver's outcome, bytes consumed, bytes sent and file change stated for the 64 header bytes read and the input after them; any other type sends the unknown-type error; nothing is sent except on a checksum mismatch or an unknown type |
| `ParallelDownload.RangeOf` | CLIENT/Client2.py:75-82 | for a non-negative file size, each thread's range lies inside the file and does not run backwards |
| `ParallelDownload.PlanRanges` | CLIENT/Client2.py:75-82 | thread i gets `[i*chunk, i*chunk + chunk)` with `chunk = file_size // n`, the last thread `[(n-1)*chunk, file_size)` |
| `ParallelDownload.RangeAdjacent` | CLIENT/Client2.py:81-82 | every range but the last ends where the next one starts |
| `ParallelDownload.RangesTile` | CLIENT/Client2.py:80-82 | the ranges tile `[0, file_size)`: first start 0, each end is the next start, last end file_size, none negative, lengths sum to file_size |
| `ParallelDownload.SumLengthsTelescopes` | CLIENT/Client2.py:80-82 | the first k ranges together are as long as the k-th range's end |
| `ParallelDownload.RangeFacts` | CLIENT/Client2.py:81-82 | each range lies inside the file, the first starts at 0 and every other starts where the previous one ends |
| `ParallelDownload.RemainderGoesLast` | CLIENT/Client2.py:75-82 | every range but the last has length `file_size // n` (0 when the file is smaller than n); the last has that plus `file_size % n` |
| `ParallelDownload.MergeFiles` | CLIENT/Client2.py:50-56 | the output is the parts concatenated in index order, up to the first missing part, and the merge completes iff every part exists |
| `ParallelDownload.SplitThenMerge` | CLIENT/Client2.py:52-56 | when each part holds the file bytes of its range, all parts exist and merging them gives back the whole file |
| `ParallelDownload.PartsSpellPrefix` | CLIENT/Client2.py:80-82 | the parts of the first k ranges concatenate to the file up to the k-th range's end |
| `ParallelDownload.ChecksumText` | CLIENT/Client2.py:8-12 | the SHA-256 hex digest is 64 characters long |
| `ParallelDownload.RequestLine` | CLIENT/Client2.py:22 | the line is "GET ", the name, a blank, the start's numeral, a blank, the end's numeral and a newline, each field at its stated position, of exactly that total length |
| `ParallelDownload.RequestLineRoundTrip` | CLIENT/Client2.py:22 | the request line for a range reads back, under the GET grammar, as exactly that name and range |
| `ParallelDownload.AcceptBlock` | CLIENT/Client2.py:39-42 | writing a non-empty block that passed its checksum extends the part by exactly its data and keeps every written block verified |
| `ParallelDownload.DownloadChunk` | CLIENT/Client2.py:14-48 | the part holds exactly the accepted blocks in order; every accepted block was non-empty and verified before being written; the first mismatch stops the download with nothing after it written; the loop ends once `end - start` bytes arrived or the peer sends nothing |

## Left out

- Sockets are left out: creation, bind/listen/accept/connect, `sendall` failures and
  partial reads. `recv(n)` always returns `min(n, available)` bytes of the remaining
  input, so a short read that a real peer could produce is not modelled.
- The module-level client script is left out: the connect/send/handle sequence at import
  time in `CLIENT/Client.py` and `main`'s `SIZE` request and `int()` of its reply in
  `CLIENT/Client2.py`. Both are I/O. The ranges start from a given file size.
- Concurrency is left out: the server's thread per connection and the downloader's
  threads and joins. Each per-thread body is modelled sequentially.
- MD5 and SHA-256 are function parameters; their internals are foreign code. `hexdigest`
  is modelled concretely from the raw digest.
- UTF-8 decoding and its errors are left out: messages are their bytes.
- `Client.Connection.ReceiveFile`: the loop decodes the bytes received so far as UTF-8 on
  every pass (CLIENT/Client.py:62-65). The model keeps them as bytes, so a chunk boundary
  inside a multi-byte character, which raises there, is not modelled.
- `\S` and `\d` and Python's whitespace are restricted to ASCII. Unicode digits and
  separators are not modelled.
- The file system is left out. The directory listing is a given list of entries
  (name, is-file, size) and the files are a map from name to contents. The catalog's
  checksum looks the bare name up in that same map. The source opens it relative to
  the working directory, not the server's directory; this model does not tell the two
  apart.
- `send_chunk_file`, `generate_file_checksum` and `send_file` errors other than a missing
  file (`except Exception`) are left out. For `send_file` (CLIENT/Client.py:29-31) that is
  the framed `ERROR: <text>` message sent for a path that exists but cannot be read, such
  as a directory: `Client.Connection.SendFile` only knows files that are present or missing. So are the write errors of `receive_file_chunk`.
- `print`, logging and `tqdm` progress bars are left out as UI.
- `Server.ReceiveMessage`: `recv` refuses a length of 2^63 or more (OverflowError) and
  this is modelled. A smaller length that the host cannot allocate (MemoryError) is
  not: any length below 2^63 is read as `min(length, available)` bytes.
- `Server.ParseGet`: Python's limit on converting a string of more than 4300 digits
  to `int` is not modelled. Where the interpreter enforces it, such a GET bound raises
  ValueError and ends the session; here the bounds are read whatever their length.
  The source does not fix the interpreter version.
- `Server.FramingRoundTrip`: stated for payloads shorter than 2^63 bytes only, because
  the receiver refuses to read any longer one.
- `Client.Connection.ReceiveFileChunk`: the chunk is always written into the one file
  `test.txt`, whatever path the header names, as the source does. That file is taken
  to exist, because `open(..., "r+b")` would otherwise raise.
- `ParallelDownload.DownloadChunk`: the connection, the part file's creation and the
  `ValueError` catch are left out. The received stream is a given sequence of
  (data, checksum) blocks.
- `ParallelDownload.MergeFiles`: the exception raised by a missing part is modelled as
  `complete == false`. The output then keeps the parts before it.
