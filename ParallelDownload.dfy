/** The parallel downloader (CLIENT/Client2.py): the file is cut into one byte range
    per thread, each range is fetched with a `GET name start end` line and written
    to a part file block by block after a SHA-256 check, and the parts are then
    concatenated in index order. Threads are modelled one at a time. */
module ParallelDownload {
  import opened Bytes
  import Server

  /** The most data one `recv` asks for. */
  const CHUNK_SIZE := 1024
  /** The checksum after each block: a SHA-256 hex digest. */
  const CHECKSUM_TEXT_SIZE := 64

  // ===========================================================================
  // Range partition (main, CLIENT/Client2.py:75-82)

  datatype Range = Range(start: int, end: int)

  /** The range main gives thread i: `chunk_size = file_size // num_threads`,
      `start = i * chunk_size`, and `end = start + chunk_size` except for the last
      thread, whose range ends at the file size. Python's `//` rounds toward minus
      infinity, which is what Dafny's `/` does for a positive divisor. */
  function RangeOf(fileSize: int, numThreads: nat, i: nat): (r: Range)
    requires numThreads >= 1
    ensures fileSize >= 0 && i < numThreads ==> 0 <= r.start <= r.end <= fileSize
  {
    var chunkSize := fileSize / numThreads;
    var start := i * chunkSize;
    var r := Range(start, if i < numThreads - 1 then start + chunkSize else fileSize);
    assert fileSize >= 0 && i < numThreads ==> 0 <= r.start <= r.end <= fileSize by {
      if fileSize >= 0 && i < numThreads {
        StartsWithinFile(fileSize, numThreads, i);
      }
    }
    r
  }

  /** The loop of main that starts one download thread per range. */
  method PlanRanges(fileSize: int, numThreads: nat) returns (ranges: seq<Range>)
    requires numThreads >= 1
    ensures |ranges| == numThreads
    ensures forall i | 0 <= i < numThreads :: ranges[i] == RangeOf(fileSize, numThreads, i)
  {
    var chunkSize := fileSize / numThreads;
    ranges := [];
    for i := 0 to numThreads
      invariant |ranges| == i
      invariant forall k | 0 <= k < i :: ranges[k] == RangeOf(fileSize, numThreads, k)
    {
      var start := i * chunkSize;
      var end := if i < numThreads - 1 then start + chunkSize else fileSize;
      ranges := ranges + [Range(start, end)];
    }
  }

  function Length(r: Range): int { r.end - r.start }

  /** The total length of the first k ranges. */
  function SumLengths(fileSize: int, numThreads: nat, k: nat): int
    requires numThreads >= 1
  {
    if k == 0 then 0 else SumLengths(fileSize, numThreads, k - 1) + Length(RangeOf(fileSize, numThreads, k - 1))
  }

  lemma {:induction false} SumLengthsTelescopes(fileSize: int, numThreads: nat, k: nat)
    requires 1 <= k <= numThreads
    ensures SumLengths(fileSize, numThreads, k) == RangeOf(fileSize, numThreads, k - 1).end
  {
    if k > 1 {
      SumLengthsTelescopes(fileSize, numThreads, k - 1);
      assert RangeOf(fileSize, numThreads, k - 2).end == RangeOf(fileSize, numThreads, k - 1).start by {
        var c := fileSize / numThreads;
        assert (k - 2) * c + c == (k - 1) * c;
      }
    }
  }

  /** The ranges tile [0, file_size): the first starts at 0, each ends where the next
      starts, the last ends at the file size, none is negative, and the lengths add
      up to the file size. */
  lemma RangesTile(fileSize: nat, numThreads: nat)
    requires numThreads >= 1
    ensures RangeOf(fileSize, numThreads, 0).start == 0
    ensures forall i | 0 <= i < numThreads - 1 :: RangeOf(fileSize, numThreads, i).end == RangeOf(fileSize, numThreads, i + 1).start
    ensures RangeOf(fileSize, numThreads, numThreads - 1).end == fileSize
    ensures forall i | 0 <= i < numThreads :: 0 <= RangeOf(fileSize, numThreads, i).start <= RangeOf(fileSize, numThreads, i).end <= fileSize
    ensures SumLengths(fileSize, numThreads, numThreads) == fileSize
  {
    forall i | 0 <= i < numThreads - 1
      ensures RangeOf(fileSize, numThreads, i).end == RangeOf(fileSize, numThreads, i + 1).start
    {
      RangeAdjacent(fileSize, numThreads, i);
    }
    forall i | 0 <= i < numThreads
      ensures 0 <= RangeOf(fileSize, numThreads, i).start <= RangeOf(fileSize, numThreads, i).end <= fileSize
    {
      StartsWithinFile(fileSize, numThreads, i);
    }
    SumLengthsTelescopes(fileSize, numThreads, numThreads);
  }

  lemma RangeAdjacent(fileSize: nat, numThreads: nat, i: nat)
    requires i + 1 < numThreads
    ensures RangeOf(fileSize, numThreads, i).end == RangeOf(fileSize, numThreads, i + 1).start
  {
    var c := fileSize / numThreads;
    MulDistributes(c, i, 1);
    assert i * c + c == (i + 1) * c;
  }

  lemma StartsWithinFile(fileSize: nat, numThreads: nat, i: nat)
    requires i < numThreads
    ensures var c := fileSize / numThreads;
            0 <= i * c && (i + 1) * c <= fileSize && (numThreads - 1) * c <= fileSize
  {
    var c := fileSize / numThreads;
    assert numThreads * c <= fileSize by {
      assert fileSize == numThreads * c + fileSize % numThreads;
    }
    MulMonotone(c, i + 1, numThreads);
    MulMonotone(c, numThreads - 1, numThreads);
    assert (i + 1) * c == c * (i + 1) && (numThreads - 1) * c == c * (numThreads - 1) && numThreads * c == c * numThreads;
  }

  /** Every range but the last is `file_size // num_threads` long, which is 0 when the
      file is smaller than the thread count; the last also takes the remainder. */
  lemma RemainderGoesLast(fileSize: nat, numThreads: nat)
    requires numThreads >= 1
    ensures forall i | 0 <= i < numThreads - 1 :: Length(RangeOf(fileSize, numThreads, i)) == fileSize / numThreads
    ensures Length(RangeOf(fileSize, numThreads, numThreads - 1)) == fileSize / numThreads + fileSize % numThreads
    ensures fileSize < numThreads ==> fileSize / numThreads == 0
  {
    var c := fileSize / numThreads;
    assert fileSize == numThreads * c + fileSize % numThreads;
    assert numThreads * c == (numThreads - 1) * c + c;
  }

  // ===========================================================================
  // Merging the parts (merge_files, CLIENT/Client2.py:50-56)

  /** How many parts, counted from the first, exist. */
  function Available(parts: seq<Option<seq<byte>>>): (k: nat)
    ensures k <= |parts|
    ensures forall i | 0 <= i < k :: parts[i].Some?
    ensures k < |parts| ==> parts[k].None?
  {
    if parts == [] || parts[0].None? then 0 else 1 + Available(parts[1..])
  }

  /** When every part exists, all of them are available. */
  lemma {:induction false} AllAvailable(parts: seq<Option<seq<byte>>>)
    requires forall i | 0 <= i < |parts| :: parts[i].Some?
    ensures Available(parts) == |parts|
  {
    if parts != [] {
      AllAvailable(parts[1..]);
    }
  }

  function Contents(parts: seq<Option<seq<byte>>>, k: nat): seq<seq<byte>>
    requires k <= |parts| && forall i | 0 <= i < k :: parts[i].Some?
  {
    seq(k, i requires 0 <= i < k => parts[i].value)
  }

  /** merge_files: part_0, part_1, ... copied into the output in index order. Opening a
      missing part raises, which leaves the output holding the parts before it;
      `complete` tells whether every part was there. */
  method MergeFiles(parts: seq<Option<seq<byte>>>) returns (output: seq<byte>, complete: bool)
    ensures complete <==> forall i | 0 <= i < |parts| :: parts[i].Some?
    ensures output == Concat(Contents(parts, Available(parts)))
  {
    output := [];
    for i := 0 to |parts|
      invariant forall k | 0 <= k < i :: parts[k].Some?
      invariant output == Concat(Contents(parts, i))
    {
      if parts[i].None? {
        assert Available(parts) == i;
        return output, false;
      }
      assert Contents(parts, i + 1) == Contents(parts, i) + [parts[i].value];
      ConcatAppend(Contents(parts, i), parts[i].value);
      output := output + parts[i].value;
    }
    complete := true;
  }

  /** The facts about one range that the merge needs: it lies inside the file and
      starts where the previous one ends. */
  lemma RangeFacts(fileSize: nat, numThreads: nat, i: nat)
    requires i < numThreads
    ensures var r := RangeOf(fileSize, numThreads, i);
            0 <= r.start <= r.end <= fileSize &&
            (i == 0 ==> r.start == 0) &&
            (i > 0 ==> RangeOf(fileSize, numThreads, i - 1).end == r.start)
  {
    StartsWithinFile(fileSize, numThreads, i);
    if i > 0 {
      var c := fileSize / numThreads;
      assert (i - 1) * c + c == i * c;
    }
  }

  /** The part a thread's range is meant to hold. */
  function PartOf(file: seq<byte>, numThreads: nat, i: nat): seq<byte>
    requires i < numThreads
  {
    RangeFacts(|file|, numThreads, i);
    var r := RangeOf(|file|, numThreads, i);
    file[r.start..r.end]
  }

  /** The parts of the first k ranges. */
  function Parts(file: seq<byte>, numThreads: nat, k: nat): (ps: seq<seq<byte>>)
    requires k <= numThreads
    ensures |ps| == k && forall i | 0 <= i < k :: ps[i] == PartOf(file, numThreads, i)
  {
    if k == 0 then [] else Parts(file, numThreads, k - 1) + [PartOf(file, numThreads, k - 1)]
  }

  lemma {:induction false} PartsSpellPrefix(file: seq<byte>, numThreads: nat, k: nat)
    requires 1 <= k <= numThreads
    ensures RangeOf(|file|, numThreads, k - 1).end <= |file|
    ensures Concat(Parts(file, numThreads, k)) == file[..RangeOf(|file|, numThreads, k - 1).end]
  {
    RangeFacts(|file|, numThreads, k - 1);
    var r := RangeOf(|file|, numThreads, k - 1);
    var front := Parts(file, numThreads, k - 1);
    ConcatAppend(front, PartOf(file, numThreads, k - 1));
    if k == 1 {
      assert front == [];
    } else {
      PartsSpellPrefix(file, numThreads, k - 1);
      assert file[..r.start] + file[r.start..r.end] == file[..r.end];
    }
  }

  /** Split then merge: when part i holds the bytes of range i, merging the parts
      gives back the whole file. */
  lemma SplitThenMerge(file: seq<byte>, numThreads: nat, parts: seq<Option<seq<byte>>>)
    requires numThreads >= 1 && |parts| == numThreads
    requires forall i | 0 <= i < numThreads :: parts[i] == Some(PartOf(file, numThreads, i))
    ensures Available(parts) == numThreads
    ensures Concat(Contents(parts, numThreads)) == file
  {
    AllAvailable(parts);
    PartsPresent(file, numThreads, parts);
    PartsSpellPrefix(file, numThreads, numThreads);
    assert file[..|file|] == file;
  }

  lemma PartsPresent(file: seq<byte>, numThreads: nat, parts: seq<Option<seq<byte>>>)
    requires |parts| == numThreads
    requires forall i | 0 <= i < numThreads :: parts[i] == Some(PartOf(file, numThreads, i))
    ensures Contents(parts, numThreads) == Parts(file, numThreads, numThreads)
  {
    var ps := Parts(file, numThreads, numThreads);
    forall i | 0 <= i < numThreads
      ensures Contents(parts, numThreads)[i] == ps[i]
    {
    }
  }

  // ===========================================================================
  // Downloading one range (download_chunk, CLIENT/Client2.py:14-48)

  /** What two successive `recv` calls return: up to 1024 bytes of data and the
      64-character checksum text sent after them. */
  datatype Block = Block(data: seq<byte>, checksum: seq<byte>)

  datatype DownloadOutcome = Completed | PeerClosed | ChecksumError(index: nat)

  /** calculate_checksum (CLIENT/Client2.py:8-12): the SHA-256 hex digest. */
  function ChecksumText(sha256: seq<byte> -> Digest32, data: seq<byte>): (text: seq<byte>)
    ensures |text| == CHECKSUM_TEXT_SIZE
  {
    Hex(sha256(data))
  }

  /** The block's received checksum equals the SHA-256 hex digest of its data. */
  predicate Verified(sha256: seq<byte> -> Digest32, b: Block)
  {
    ChecksumText(sha256, b.data) == b.checksum
  }

  /** The request line `f"GET {file_name} {start} {end}\n"` (CLIENT/Client2.py:22). */
  function RequestLine(fileName: seq<byte>, start: int, end: int): (r: seq<byte>)
    ensures |r| == |fileName| + |IntText(start)| + |IntText(end)| + 7
    ensures r[..4] == Server.GET_PREFIX && r[4..4 + |fileName|] == fileName && r[4 + |fileName|] == SPACE
    ensures r[|r| - |IntText(end)| - 2] == SPACE && r[|r| - 1] == NEWLINE
    ensures r[5 + |fileName|..|r| - |IntText(end)| - 2] == IntText(start)
    ensures r[|r| - |IntText(end)| - 1..|r| - 1] == IntText(end)
  {
    RequestLineLayout(fileName, IntText(start), IntText(end));
    Server.GET_PREFIX + fileName + [SPACE] + IntText(start) + [SPACE] + IntText(end) + [NEWLINE]
  }

  /** Where each field of `GET name x y\n` sits. */
  lemma RequestLineLayout(name: seq<byte>, x: seq<byte>, y: seq<byte>)
    ensures var r := Server.GET_PREFIX + name + [SPACE] + x + [SPACE] + y + [NEWLINE];
            |r| == |name| + |x| + |y| + 7 &&
            r[..4] == Server.GET_PREFIX && r[4..4 + |name|] == name && r[4 + |name|] == SPACE &&
            r[|r| - |y| - 2] == SPACE && r[|r| - 1] == NEWLINE &&
            r[5 + |name|..|r| - |y| - 2] == x && r[|r| - |y| - 1..|r| - 1] == y
  {
    var head := Server.GET_PREFIX + name + [SPACE];
    var tail := [SPACE] + y + [NEWLINE];
    assert Server.GET_PREFIX + name + [SPACE] + x + [SPACE] + y + [NEWLINE] == head + x + tail;
    ThreeParts(head, x, tail);
    ThreeParts(Server.GET_PREFIX, name, [SPACE]);
    ThreeParts([SPACE], y, [NEWLINE]);
  }

  /** The three parts of a concatenation are its slices at the parts' lengths. */
  lemma ThreeParts(u: seq<byte>, v: seq<byte>, w: seq<byte>)
    ensures var r := u + v + w;
            r[..|u|] == u && r[|u|..|u| + |v|] == v && r[|u| + |v|..] == w
  {
  }

  /** The request line is `GET`, the name and the two bounds in decimal, separated by
      single spaces and ended by a newline: for a non-empty name without blanks and
      non-negative bounds, the `GET` grammar reads back exactly that name and range. */
  lemma RequestLineRoundTrip(fileName: seq<byte>, start: nat, end: nat)
    requires |fileName| > 0 && Server.NoSpace(fileName)
    ensures Server.ParseGet(RequestLine(fileName, start, end)) == Some(Server.GetRequest(fileName, start, end))
  {
    var d1, d2 := Decimal(start), Decimal(end);
    assert RequestLine(fileName, start, end) == Server.GET_PREFIX + fileName + [SPACE] + d1 + [SPACE] + d2 + [NEWLINE];
    Server.ParseGetComplete(RequestLine(fileName, start, end), fileName, d1, d2);
    DecimalRoundTrip(start);
    DecimalRoundTrip(end);
  }

  /** The bytes of the first k blocks, in order. */
  function Received(blocks: seq<Block>, k: nat): seq<byte>
    requires k <= |blocks|
  {
    if k == 0 then [] else Received(blocks, k - 1) + blocks[k - 1].data
  }

  /** The first k blocks were all written: each was non-empty and passed its checksum. */
  predicate AllVerified(sha256: seq<byte> -> Digest32, blocks: seq<Block>, k: nat)
    requires k <= |blocks|
  {
    forall j | 0 <= j < k :: blocks[j].data != [] && Verified(sha256, blocks[j])
  }

  /** Writing one more verified block extends what was received by its data. */
  lemma AcceptBlock(sha256: seq<byte> -> Digest32, blocks: seq<Block>, k: nat)
    requires k < |blocks| && AllVerified(sha256, blocks, k)
    requires blocks[k].data != [] && Verified(sha256, blocks[k])
    ensures AllVerified(sha256, blocks, k + 1)
    ensures Received(blocks, k + 1) == Received(blocks, k) + blocks[k].data
  {
  }

  /** download_chunk over the blocks the server sends for one range: every block is
      checked before it is written; the first mismatch stops the thread (the raised
      ValueError), the loop ends once `end - start` bytes have been received or the
      peer sends nothing more. `accepted` counts the blocks written to the part file;
      the last of them arrived while fewer than `end - start` bytes had been received. */
  method DownloadChunk(sha256: seq<byte> -> Digest32, fileName: seq<byte>, start: int, end: int, blocks: seq<Block>)
      returns (request: seq<byte>, part: seq<byte>, accepted: nat, outcome: DownloadOutcome)
    ensures request == RequestLine(fileName, start, end)
    ensures accepted <= |blocks| && part == Received(blocks, accepted)
    ensures AllVerified(sha256, blocks, accepted)
    ensures accepted > 0 ==> |Received(blocks, accepted - 1)| < end - start
    ensures outcome == Completed ==> |part| >= end - start
    ensures outcome == PeerClosed ==> |part| < end - start && (accepted == |blocks| || blocks[accepted].data == [])
    ensures outcome.ChecksumError? ==>
              |part| < end - start && outcome.index == accepted < |blocks| &&
              blocks[accepted].data != [] && !Verified(sha256, blocks[accepted])
  {
    request := RequestLine(fileName, start, end);
    part := [];
    accepted := 0;
    var totalBytesReceived := 0;
    while totalBytesReceived < end - start
      invariant accepted <= |blocks| && part == Received(blocks, accepted)
      invariant totalBytesReceived == |part|
      invariant AllVerified(sha256, blocks, accepted)
      invariant accepted > 0 ==> |Received(blocks, accepted - 1)| < end - start
      decreases |blocks| - accepted
    {
      if accepted == |blocks| || blocks[accepted].data == [] {
        return request, part, accepted, PeerClosed;
      }
      var block := blocks[accepted];
      totalBytesReceived := totalBytesReceived + |block.data|;
      if !Verified(sha256, block) {
        return request, part, accepted, ChecksumError(accepted);
      }
      AcceptBlock(sha256, blocks, accepted);
      part := part + block.data;
      accepted := accepted + 1;
    }
    outcome := Completed;
  }
}
