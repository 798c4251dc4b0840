/** The TCP file server (SERVER/Server.py): a text control channel whose messages
    carry a 64-byte ASCII length header, the `!CONNECT` / `!DISCONNECT` / `GET`
    commands, the file catalog it sends on `!CONNECT`, and the chunk packets it
    streams for a `GET <name> <start> <end>` request. */
module Server {
  import opened Bytes

  const HEADER_SIZE := 64
  const CHECKSUM_SIZE := 16
  const BUFFER_SIZE := 4096

  const CONNECT_MESSAGE := Ascii("!CONNECT")
  const DISCONNECT_MESSAGE := Ascii("!DISCONNECT")
  const GET_WORD: seq<byte> := [71, 69, 84]  // "GET"
  const GET_PREFIX: seq<byte> := [71, 69, 84, 32]  // "GET "
  const SERVER_SCRIPT := Ascii("Server.py")

  // ===========================================================================
  // convert_size: human-readable sizes with integer values

  const ZERO_SIZE := Ascii("0B")
  const UNITS := [Ascii("B"), Ascii("KB"), Ascii("MB"), Ascii("GB"), Ascii("TB"), Ascii("PB")]

  /** k is the unit index convert_size settles on for a positive size: the largest
      power of 1024 not above the size, capped at PB (index 5). */
  ghost predicate IsMagnitude(size: int, k: nat)
  {
    k <= 5 && Pow(1024, k) <= size && (k < 5 ==> size < Pow(1024, k + 1))
  }

  function MagnitudeFrom(size: nat, k: nat): (m: nat)
    requires k <= 5 && Pow(1024, k) <= size
    ensures IsMagnitude(size, m)
    decreases 5 - k
  {
    if k == 5 || size < Pow(1024, k + 1) then k else MagnitudeFrom(size, k + 1)
  }

  function Magnitude(size: nat): (k: nat)
    requires size >= 1
    ensures IsMagnitude(size, k)
  {
    MagnitudeFrom(size, 0)
  }

  /** The text convert_size returns: "0B" for sizes <= 0, otherwise
      "<size // 1024^k> <unit k>". */
  function SizeLabel(size: int): seq<byte>
  {
    if size <= 0 then ZERO_SIZE
    else
      var k := Magnitude(size);
      Decimal(size / Pow(1024, k)) + [SPACE] + UNITS[k]
  }

  lemma PowMonotone(i: nat, j: nat)
    requires i <= j
    ensures Pow(1024, i) <= Pow(1024, j)
    decreases j - i
  {
    if i < j {
      PowMonotone(i, j - 1);
    }
  }

  /** A size has only one magnitude. */
  lemma MagnitudeUnique(size: int, k1: nat, k2: nat)
    requires IsMagnitude(size, k1) && IsMagnitude(size, k2)
    ensures k1 == k2
  {
    if k1 < k2 {
      PowMonotone(k1 + 1, k2);
    } else if k2 < k1 {
      PowMonotone(k2 + 1, k1);
    }
  }

  lemma DivUnique(x: int, d: int, q: int, r: int)
    requires d > 0 && 0 <= r < d && x == d * q + r
    ensures x / d == q
  {
    var q0, r0 := x / d, x % d;
    assert x == d * q0 + r0;
    if q0 < q {
      MulMonotone(d, q0 + 1, q);
      assert false;
    } else if q < q0 {
      MulMonotone(d, q + 1, q0);
      assert false;
    }
  }

  /** Dividing by a and then by b is dividing by a * b. */
  lemma DivDiv(x: nat, a: nat, b: nat)
    requires a > 0 && b > 0
    ensures x / a / b == x / (a * b)
  {
    var q, r := x / a, x % a;
    var q2, r2 := q / b, q % b;
    assert x == a * q + r;
    assert q == b * q2 + r2;
    MulDistributes(a, b * q2, r2);
    MulAssociates(a, b, q2);
    assert x == (a * b) * q2 + (a * r2 + r);
    MulMonotone(a, r2, b - 1);
    MulDistributes(a, b, -1);
    assert a * r2 + r < a * b;
    DivUnique(x, a * b, q2, a * r2 + r);
  }

  lemma DivBelow(x: nat, a: nat, c: nat)
    requires a > 0
    ensures x / a < c <==> x < a * c
  {
    var q, r := x / a, x % a;
    assert x == a * q + r;
    if q < c {
      assert a * q <= a * (c - 1);
    } else {
      assert a * q >= a * c;
    }
  }

  /** convert_size (SERVER/Server.py:26-35): the loop divides by 1024 until the
      value drops below 1024 or the unit list is exhausted. */
  method ConvertSize(sizeInBytes: int) returns (text: seq<byte>)
    ensures text == SizeLabel(sizeInBytes)
  {
    if sizeInBytes <= 0 {
      return ZERO_SIZE;
    }
    var size := sizeInBytes;
    var i := 0;
    while size >= 1024 && i < |UNITS| - 1
      invariant 0 <= i <= 5
      invariant Pow(1024, i) <= sizeInBytes
      invariant size == sizeInBytes / Pow(1024, i)
    {
      DivDiv(sizeInBytes, Pow(1024, i), 1024);
      DivBelow(sizeInBytes, Pow(1024, i), 1024);
      size := size / 1024;
      i := i + 1;
    }
    DivBelow(sizeInBytes, Pow(1024, i), 1024);
    MagnitudeUnique(sizeInBytes, i, Magnitude(sizeInBytes));
    text := Decimal(size) + [SPACE] + UNITS[i];
  }

  /** A positive size is shown as a quotient of at least 1, which stays below
      1024 unless the unit is PB, followed by one space and the unit. */
  lemma SizeLabelScaled(size: int)
    requires size > 0
    ensures var k := Magnitude(size);
            var q := size / Pow(1024, k);
            1 <= q && (k < 5 ==> q < 1024) &&
            SizeLabel(size) == Decimal(q) + [SPACE] + UNITS[k]
  {
    var k := Magnitude(size);
    DivBelow(size, Pow(1024, k), 1);
    if k < 5 {
      DivBelow(size, Pow(1024, k), 1024);
    }
  }

  function Count(s: seq<byte>, b: byte): nat
  {
    multiset(s)[b]
  }

  lemma CountAbsent(s: seq<byte>, b: byte)
    requires forall i | 0 <= i < |s| :: s[i] != b
    ensures Count(s, b) == 0
  {
    assert b !in multiset(s);
  }

  /** "0B" has no space while every positive size label has exactly one, so a
      catalog line for an empty file has one field fewer. */
  lemma {:induction false} SizeLabelSpaces(size: int)
    ensures Count(SizeLabel(size), SPACE) == if size <= 0 then 0 else 1
  {
    if size <= 0 {
      CountAbsent(ZERO_SIZE, SPACE);
    } else {
      var k := Magnitude(size);
      var d := Decimal(size / Pow(1024, k));
      CountAbsent(d, SPACE);
      CountAbsent(UNITS[k], SPACE);
      assert multiset(d + [SPACE] + UNITS[k]) == multiset(d) + multiset{SPACE} + multiset(UNITS[k]);
    }
  }

  // ===========================================================================
  // The length-prefixed control channel

  /** send_message_to_client (SERVER/Server.py:69-73): the payload length, written
      in decimal and left-aligned in a space-padded 64-byte field, then the payload.
      A numeral longer than 64 digits is not padded (f-string `<64` semantics). */
  function EncodeMessage(payload: seq<byte>): (r: seq<byte>)
    ensures var digits := Decimal(|payload|);
            |r| == (if |digits| < HEADER_SIZE then HEADER_SIZE else |digits|) + |payload| &&
            r[..|digits|] == digits && r[|r| - |payload|..] == payload
  {
    var digits := Decimal(|payload|);
    digits + Repeat(SPACE, HEADER_SIZE - |digits|) + payload
  }

  function LeadingSpaces(s: seq<byte>): (k: nat)
    ensures k <= |s| && AllSpace(s[..k]) && (k < |s| ==> !IsSpace(s[k]))
  {
    if s == [] || !IsSpace(s[0]) then 0 else 1 + LeadingSpaces(s[1..])
  }

  function TrailingSpaces(s: seq<byte>): (k: nat)
    ensures k <= |s| && AllSpace(s[|s| - k..]) && (k < |s| ==> !IsSpace(s[|s| - 1 - k]))
  {
    if s == [] || !IsSpace(s[|s| - 1]) then 0
    else
      var init := s[..|s| - 1];
      var k := TrailingSpaces(init);
      assert AllSpace(s[|s| - (k + 1)..]) by {
        forall i | |s| - (k + 1) <= i < |s| ensures IsSpace(s[i]) {
          if i < |s| - 1 { assert s[i] == init[|init| - k..][i - (|init| - k)]; }
        }
      }
      k + 1
  }

  /** Python's `str.strip()` restricted to ASCII whitespace. */
  function Strip(s: seq<byte>): (r: seq<byte>)
    ensures r == [] || (!IsSpace(r[0]) && !IsSpace(r[|r| - 1]))
  {
    var t := s[LeadingSpaces(s)..];
    t[..|t| - TrailingSpaces(t)]
  }

  /** `strip()` removes whitespace at both ends and nothing else: the result is a
      slice of the input with only whitespace before and after it. */
  lemma StripTrims(s: seq<byte>)
    ensures exists i, j | 0 <= i <= j <= |s| :: Strip(s) == s[i..j] && AllSpace(s[..i]) && AllSpace(s[j..])
  {
    var i := LeadingSpaces(s);
    var t := s[i..];
    var k := TrailingSpaces(t);
    var j := |s| - k;
    assert t[..|t| - k] == s[i..j] && t[|t| - k..] == s[j..];
    assert Strip(s) == s[i..j] && AllSpace(s[..i]) && AllSpace(s[j..]);
  }

  predicate NoSpace(s: seq<byte>) { forall i | 0 <= i < |s| :: !IsSpace(s[i]) }

  /** The body of a Python integer literal as `int()` accepts it: digits, with
      single underscores allowed between digits. */
  predicate IsIntBody(s: seq<byte>)
  {
    |s| >= 1 && IsDigit(s[0]) && IsDigit(s[|s| - 1]) &&
    (forall i | 0 <= i < |s| :: IsDigit(s[i]) || s[i] == 95) &&
    (forall i | 0 <= i < |s| - 1 :: !(s[i] == 95 && s[i + 1] == 95))
  }

  function DropUnderscores(s: seq<byte>): (r: seq<byte>)
    requires forall i | 0 <= i < |s| :: IsDigit(s[i]) || s[i] == 95
    ensures AllDigits(r)
    ensures AllDigits(s) ==> r == s
    decreases |s|
  {
    if s == [] then []
    else if s[|s| - 1] == 95 then DropUnderscores(s[..|s| - 1])
    else DropUnderscores(s[..|s| - 1]) + [s[|s| - 1]]
  }

  /** Removing underscores works piece by piece: the digits of a body are its
      digits on either side of any cut, so "1_000" reads as "1000". */
  lemma {:induction false} DropUnderscoresAppend(a: seq<byte>, b: seq<byte>)
    requires forall i | 0 <= i < |a| :: IsDigit(a[i]) || a[i] == 95
    requires forall i | 0 <= i < |b| :: IsDigit(b[i]) || b[i] == 95
    ensures DropUnderscores(a + b) == DropUnderscores(a) + DropUnderscores(b)
    ensures DropUnderscores([95]) == []
    decreases |b|
  {
    assert [95][..0] == [];
    if b != [] {
      var init := b[..|b| - 1];
      assert (a + b)[..|a + b| - 1] == a + init;
      DropUnderscoresAppend(a, init);
    } else {
      assert a + b == a;
    }
  }

  /** The texts `int()` accepts once stripped: an integer body, or a sign followed
      by one. */
  predicate IsIntLiteral(text: seq<byte>)
  {
    IsIntBody(text) || (|text| >= 1 && (text[0] == 43 || text[0] == 45) && IsIntBody(text[1..]))
  }

  /** Python's `int(text)` on an already stripped header: an optional sign, then
      an integer body; anything else raises ValueError (None here). */
  function ParseInt(text: seq<byte>): (r: Option<int>)
    ensures r.Some? <==> IsIntLiteral(text)
    ensures AllDigits(text) && text != [] ==> r == Some(DigitsValue(text))
    ensures |text| >= 2 && text[0] == 45 && AllDigits(text[1..]) ==> r == Some(-(DigitsValue(text[1..]) as int))
    ensures IsIntBody(text) ==> r == Some(DigitsValue(DropUnderscores(text)) as int)
    ensures |text| >= 1 && text[0] == 43 && IsIntBody(text[1..]) ==> r == Some(DigitsValue(DropUnderscores(text[1..])) as int)
    ensures |text| >= 1 && text[0] == 45 && IsIntBody(text[1..]) ==> r == Some(-(DigitsValue(DropUnderscores(text[1..])) as int))
  {
    var signed := |text| > 0 && (text[0] == 43 || text[0] == 45);
    var body := if signed then text[1..] else text;
    if IsIntBody(body) then
      var v: int := DigitsValue(DropUnderscores(body));
      Some(if signed && text[0] == 45 then -v else v)
    else None
  }

  /** The largest size `recv` accepts: a C `ssize_t` on a 64-bit host. A larger
      argument makes `recv` raise OverflowError. */
  const RECV_MAX := 0x7FFF_FFFF_FFFF_FFFF

  /** What receive_message_from_client produces. NoHeader is its `None` (empty or
      all-blank header); BadHeader is an exception raised while reading (unparsable,
      negative or oversized length), which handle_client turns into the end of the
      session. */
  datatype Received = NoHeader | BadHeader | Message(payload: seq<byte>, rest: seq<byte>)

  /** receive_message_from_client (SERVER/Server.py:75-83) over the bytes still to
      arrive on the connection: recv(64), strip, int, recv(length). */
  function ReceiveMessage(stream: seq<byte>): (r: Received)
    ensures r == NoHeader <==> Strip(stream[..Min(HEADER_SIZE, |stream|)]) == []
    ensures var text := Strip(stream[..Min(HEADER_SIZE, |stream|)]);
            r.Message? <==> text != [] && ParseInt(text).Some? && 0 <= ParseInt(text).value <= RECV_MAX
    ensures r.Message? ==>
              var h := Min(HEADER_SIZE, |stream|);
              var length := ParseInt(Strip(stream[..h]));
              length.Some? && 0 <= length.value <= RECV_MAX &&
              |r.payload| == Min(length.value, |stream| - h) && r.payload + r.rest == stream[h..]
    ensures r.Message? ==> |r.payload| + |r.rest| < |stream| && r.rest == stream[|stream| - |r.rest|..]
  {
    var h := Min(HEADER_SIZE, |stream|);
    var text := Strip(stream[..h]);
    if text == [] then NoHeader
    else
      match ParseInt(text)
      case None => BadHeader
      case Some(n) =>
        if n < 0 || n > RECV_MAX then BadHeader
        else
          var rest := stream[h..];
          var k := Min(n, |rest|);
          Message(rest[..k], rest[k..])
  }

  lemma StripPadded(d: seq<byte>, pad: nat)
    requires |d| >= 1 && NoSpace(d)
    ensures Strip(d + Repeat(SPACE, pad)) == d
  {
    var s := d + Repeat(SPACE, pad);
    assert LeadingSpaces(s) == 0;
    assert s[0..] == s;
    TrailingCount(d, pad);
  }

  lemma {:induction false} TrailingCount(d: seq<byte>, pad: nat)
    requires |d| >= 1 && !IsSpace(d[|d| - 1])
    ensures TrailingSpaces(d + Repeat(SPACE, pad)) == pad
    decreases pad
  {
    var s := d + Repeat(SPACE, pad);
    if pad > 0 {
      var t := d + Repeat(SPACE, pad - 1);
      RepeatSnoc(SPACE, pad);
      assert s == t + [SPACE];
      assert s[..|s| - 1] == t;
      TrailingCount(d, pad - 1);
    } else {
      assert s == d;
    }
  }

  /** The encoded header is exactly 64 bytes: the decimal byte length of the
      payload, then spaces; the payload follows it unchanged. */
  lemma EncodedHeaderShape(payload: seq<byte>)
    requires |payload| < Pow(10, HEADER_SIZE)
    ensures var e := EncodeMessage(payload);
            var digits := Decimal(|payload|);
            |e| == HEADER_SIZE + |payload| && |digits| <= HEADER_SIZE &&
            e[..|digits|] == digits && AllSpace(e[|digits|..HEADER_SIZE]) &&
            e[HEADER_SIZE..] == payload
  {
    DecimalLength(|payload|, HEADER_SIZE);
  }

  /** The first 64 bytes of an encoded message strip to the decimal length; the
      payload and whatever followed come after them. */
  lemma HeaderOf(payload: seq<byte>, rest: seq<byte>)
    requires |payload| < Pow(10, HEADER_SIZE)
    ensures var stream := EncodeMessage(payload) + rest;
            |stream| >= HEADER_SIZE && Strip(stream[..HEADER_SIZE]) == Decimal(|payload|) &&
            stream[HEADER_SIZE..] == payload + rest
  {
    var digits := Decimal(|payload|);
    DecimalLength(|payload|, HEADER_SIZE);
    var pad := Repeat(SPACE, HEADER_SIZE - |digits|);
    assert EncodeMessage(payload) + rest == digits + pad + (payload + rest);
    PaddedHeader(|payload|, payload + rest);
  }

  /** A numeral left-aligned in a space-padded 64-byte field strips back to itself,
      and the bytes after the field follow it. */
  lemma PaddedHeader(n: nat, rest: seq<byte>)
    requires |Decimal(n)| <= HEADER_SIZE
    ensures var digits := Decimal(n);
            var stream := digits + Repeat(SPACE, HEADER_SIZE - |digits|) + rest;
            |stream| >= HEADER_SIZE && Strip(stream[..HEADER_SIZE]) == digits && stream[HEADER_SIZE..] == rest
  {
    var digits := Decimal(n);
    var pad := Repeat(SPACE, HEADER_SIZE - |digits|);
    var stream := digits + pad + rest;
    assert stream[..HEADER_SIZE] == digits + pad;
    assert stream[HEADER_SIZE..] == rest;
    assert NoSpace(digits);
    StripPadded(digits, HEADER_SIZE - |digits|);
  }

  /** Every length `recv` accepts has a numeral that fits the header. */
  lemma RecvMaxFitsHeader()
    ensures RECV_MAX < Pow(10, HEADER_SIZE) && |Decimal(RECV_MAX + 1)| <= HEADER_SIZE
  {
    assert Pow(10, 8) == 100_000_000 && Pow(10, 3) == 1000;
    PowAdd(10, 8, 8);
    PowAdd(10, 16, 3);
    DecimalLength(RECV_MAX + 1, 19);
    DecimalLength(RECV_MAX + 1, HEADER_SIZE);
    DecimalLength(RECV_MAX, 19);
    DecimalLength(RECV_MAX, HEADER_SIZE);
  }

  /** Framing round trip: receiving an encoded message yields that message and
      leaves whatever followed it on the connection. */
  lemma FramingRoundTrip(payload: seq<byte>, rest: seq<byte>)
    requires |payload| <= RECV_MAX
    ensures ReceiveMessage(EncodeMessage(payload) + rest) == Message(payload, rest)
  {
    var stream := EncodeMessage(payload) + rest;
    RecvMaxFitsHeader();
    HeaderOf(payload, rest);
    DecimalRoundTrip(|payload|);
    assert Min(HEADER_SIZE, |stream|) == HEADER_SIZE;
    var text := Strip(stream[..HEADER_SIZE]);
    assert text == Decimal(|payload|) && text != [];
    assert ParseInt(text) == Some(|payload|);
    var after := stream[HEADER_SIZE..];
    assert after[..|payload|] == payload && after[|payload|..] == rest;
  }

  /** An empty or all-blank header ends the session loop without a message. */
  lemma BlankHeaderEndsReceive(stream: seq<byte>)
    requires AllSpace(stream[..Min(HEADER_SIZE, |stream|)])
    ensures ReceiveMessage(stream) == NoHeader
  {
    var h := stream[..Min(HEADER_SIZE, |stream|)];
    assert LeadingSpaces(h) == |h|;
  }

  /** A header that `int` rejects, or whose length is negative or too large for
      `recv`, makes the read raise; handle_client catches it and closes the
      connection without a reply. */
  lemma BadHeaderEndsSession(md5: seq<byte> -> Digest16, files: map<seq<byte>, seq<byte>>, dir: seq<DirEntry>,
                             stream: seq<byte>)
    requires var text := Strip(stream[..Min(HEADER_SIZE, |stream|)]);
             text != [] && (!IsIntLiteral(text) || ParseInt(text).value < 0 || ParseInt(text).value > RECV_MAX)
    ensures ReceiveMessage(stream) == BadHeader
    ensures ServeMessage(md5, files, dir, stream) == End(ReadError)
    ensures SessionOutput(md5, files, dir, stream) == []
  {
  }

  /** A 64-byte header holding 2^63, the smallest length `recv` refuses, followed by
      `!CONNECT`: the session ends with no reply. */
  lemma OversizedLengthEndsSession(md5: seq<byte> -> Digest16, files: map<seq<byte>, seq<byte>>, dir: seq<DirEntry>)
    ensures var digits := Decimal(RECV_MAX + 1);
            var stream := digits + Repeat(SPACE, HEADER_SIZE - |digits|) + CONNECT_MESSAGE;
            SessionOutput(md5, files, dir, stream) == []
  {
    var digits := Decimal(RECV_MAX + 1);
    RecvMaxFitsHeader();
    PaddedHeader(RECV_MAX + 1, CONNECT_MESSAGE);
    DecimalRoundTrip(RECV_MAX + 1);
    BadHeaderEndsSession(md5, files, dir, digits + Repeat(SPACE, HEADER_SIZE - |digits|) + CONNECT_MESSAGE);
  }

  // ===========================================================================
  // Commands

  datatype GetRequest = GetRequest(fileName: seq<byte>, start: nat, end: nat)

  datatype Command = Connect | Disconnect | Get(request: GetRequest) | MalformedGet | Unknown

  function IndexOf(s: seq<byte>, b: byte): (k: nat)
    ensures k <= |s| && (k < |s| ==> s[k] == b)
    ensures forall i | 0 <= i < k :: s[i] != b
  {
    if s == [] then 0 else if s[0] == b then 0 else 1 + IndexOf(s[1..], b)
  }

  /** The three space-separated fields after "GET ". */
  datatype GetFields = GetFields(name: seq<byte>, first: seq<byte>, second: seq<byte>)

  /** Cuts a line at "GET ", then at the next two spaces. */
  function SplitGetLine(line: seq<byte>): (r: Option<GetFields>)
    ensures r.Some? ==> line == GET_PREFIX + r.value.name + [SPACE] + r.value.first + [SPACE] + r.value.second
  {
    if |line| < 4 || line[..4] != GET_PREFIX then None
    else
      var p := 4 + IndexOf(line[4..], SPACE);
      if p == |line| then None
      else
        var q := p + 1 + IndexOf(line[p + 1..], SPACE);
        if q == |line| then None
        else
          CutTwice(line, p, q);
          Some(GetFields(line[4..p], line[p + 1..q], line[q + 1..]))
  }

  /** A line cut after its first four bytes and at two positions p < q. */
  lemma CutTwice(line: seq<byte>, p: nat, q: nat)
    requires 4 <= p < q < |line| && line[p] == SPACE && line[q] == SPACE
    ensures line == line[..4] + line[4..p] + [SPACE] + line[p + 1..q] + [SPACE] + line[q + 1..]
  {
    assert line[..q] == line[..4] + line[4..p] + [SPACE] + line[p + 1..q];
    assert line == line[..q] + [SPACE] + line[q + 1..];
  }

  /** `\S+`, `\d+` and `\d+`. */
  predicate ValidGetFields(f: GetFields)
  {
    |f.name| > 0 && NoSpace(f.name) && |f.first| > 0 && AllDigits(f.first) && |f.second| > 0 && AllDigits(f.second)
  }

  /** The regular expression `^GET (\S+) (\d+) (\d+)$` on a line without a
      trailing newline. */
  function ParseGetLine(line: seq<byte>): (r: Option<GetRequest>)
    ensures r.Some? ==> |line| >= 4 && line[..4] == GET_PREFIX && |r.value.fileName| > 0 && NoSpace(r.value.fileName)
  {
    match SplitGetLine(line)
    case None => None
    case Some(f) =>
      if ValidGetFields(f) then Some(GetRequest(f.name, DigitsValue(f.first), DigitsValue(f.second))) else None
  }

  /** The `GET` parser of handle_client (SERVER/Server.py:124-128); Python's `$`
      also matches just before one final newline. */
  function ParseGet(m: seq<byte>): (r: Option<GetRequest>)
    ensures r.Some? ==> |m| >= 4 && m[..4] == GET_PREFIX && |r.value.fileName| > 0 && NoSpace(r.value.fileName)
  {
    if |m| > 0 && m[|m| - 1] == NEWLINE then
      var line := m[..|m| - 1];
      assert |line| >= 4 ==> line[..4] == m[..4];
      ParseGetLine(line)
    else ParseGetLine(m)
  }

  /** The messages the regular expression accepts, written out as a grammar. */
  ghost predicate MatchesGet(m: seq<byte>, name: seq<byte>, d1: seq<byte>, d2: seq<byte>)
  {
    var line := GET_PREFIX + name + [SPACE] + d1 + [SPACE] + d2;
    (m == line || m == line + [NEWLINE]) &&
    |name| > 0 && NoSpace(name) && |d1| > 0 && AllDigits(d1) && |d2| > 0 && AllDigits(d2)
  }

  lemma {:induction false} IndexOfAfter(a: seq<byte>, b: byte, rest: seq<byte>)
    requires forall i | 0 <= i < |a| :: a[i] != b
    ensures IndexOf(a + [b] + rest, b) == |a|
  {
    if a != [] {
      assert (a + [b] + rest)[1..] == a[1..] + [b] + rest;
      IndexOfAfter(a[1..], b, rest);
    }
  }

  lemma SplitGetLineOf(name: seq<byte>, d1: seq<byte>, d2: seq<byte>)
    requires forall k | 0 <= k < |name| :: name[k] != SPACE
    requires forall k | 0 <= k < |d1| :: d1[k] != SPACE
    ensures SplitGetLine(GET_PREFIX + name + [SPACE] + d1 + [SPACE] + d2) == Some(GetFields(name, d1, d2))
  {
    var line := GET_PREFIX + name + [SPACE] + d1 + [SPACE] + d2;
    var p, q := 4 + |name|, 5 + |name| + |d1|;
    GetLineTail(name, d1, d2);
    GetLineNumbers(name, d1, d2);
    GetLineFields(name, d1, d2);
    IndexOfAfter(name, SPACE, d1 + [SPACE] + d2);
    IndexOfAfter(d1, SPACE, d2);
    assert IndexOf(line[4..], SPACE) == p - 4 && IndexOf(line[p + 1..], SPACE) == q - p - 1;
    SplitGetLineAt(line, p, q);
    assert GetFields(line[4..p], line[p + 1..q], line[q + 1..]) == GetFields(name, d1, d2);
  }

  /** A GET line after its prefix. */
  lemma GetLineTail(name: seq<byte>, d1: seq<byte>, d2: seq<byte>)
    ensures var line := GET_PREFIX + name + [SPACE] + d1 + [SPACE] + d2;
            line[..4] == GET_PREFIX && line[4..] == name + [SPACE] + (d1 + [SPACE] + d2)
  {
    var line := GET_PREFIX + name + [SPACE] + d1 + [SPACE] + d2;
    assert line == GET_PREFIX + (name + [SPACE] + (d1 + [SPACE] + d2));
  }

  /** A GET line after its first field and separator. */
  lemma GetLineNumbers(name: seq<byte>, d1: seq<byte>, d2: seq<byte>)
    ensures var line := GET_PREFIX + name + [SPACE] + d1 + [SPACE] + d2;
            line[5 + |name|..] == d1 + [SPACE] + d2
  {
    var line := GET_PREFIX + name + [SPACE] + d1 + [SPACE] + d2;
    assert line == (GET_PREFIX + name + [SPACE]) + (d1 + [SPACE] + d2);
  }

  /** The three fields of a GET line, by position. */
  lemma GetLineFields(name: seq<byte>, d1: seq<byte>, d2: seq<byte>)
    ensures var line := GET_PREFIX + name + [SPACE] + d1 + [SPACE] + d2;
            var p, q := 4 + |name|, 5 + |name| + |d1|;
            line[4..p] == name && line[p + 1..q] == d1 && line[q + 1..] == d2
  {
    var line := GET_PREFIX + name + [SPACE] + d1 + [SPACE] + d2;
    var p, q := 4 + |name|, 5 + |name| + |d1|;
    assert forall i | 0 <= i < |name| :: line[4 + i] == name[i];
    assert forall i | 0 <= i < |d1| :: line[p + 1 + i] == d1[i];
    assert forall i | 0 <= i < |d2| :: line[q + 1 + i] == d2[i];
  }

  /** The cut positions determine the fields. */
  lemma SplitGetLineAt(line: seq<byte>, p: nat, q: nat)
    requires 4 <= p < q < |line| && line[..4] == GET_PREFIX
    requires IndexOf(line[4..], SPACE) == p - 4 && IndexOf(line[p + 1..], SPACE) == q - p - 1
    ensures SplitGetLine(line) == Some(GetFields(line[4..p], line[p + 1..q], line[q + 1..]))
  {
    assert |line| >= 4 && line[..4] == GET_PREFIX;
    assert 4 + IndexOf(line[4..], SPACE) == p != |line|;
    assert p + 1 + IndexOf(line[p + 1..], SPACE) == q != |line|;
  }

  lemma ParseGetLineOf(name: seq<byte>, d1: seq<byte>, d2: seq<byte>)
    requires ValidGetFields(GetFields(name, d1, d2))
    ensures ParseGetLine(GET_PREFIX + name + [SPACE] + d1 + [SPACE] + d2)
            == Some(GetRequest(name, DigitsValue(d1), DigitsValue(d2)))
  {
    assert forall k | 0 <= k < |name| :: name[k] != SPACE by {
      forall k | 0 <= k < |name| ensures name[k] != SPACE {
        assert !IsSpace(name[k]);
      }
    }
    assert forall k | 0 <= k < |d1| :: d1[k] != SPACE by {
      forall k | 0 <= k < |d1| ensures d1[k] != SPACE {
        assert IsDigit(d1[k]);
      }
    }
    SplitGetLineOf(name, d1, d2);
  }

  /** Every message of the grammar is accepted, with the integers it spells. */
  lemma ParseGetComplete(m: seq<byte>, name: seq<byte>, d1: seq<byte>, d2: seq<byte>)
    requires MatchesGet(m, name, d1, d2)
    ensures ParseGet(m) == Some(GetRequest(name, DigitsValue(d1), DigitsValue(d2)))
  {
    var line := GET_PREFIX + name + [SPACE] + d1 + [SPACE] + d2;
    ParseGetLineOf(name, d1, d2);
    if m == line + [NEWLINE] {
      assert m[..|m| - 1] == line;
    } else {
      assert m[|m| - 1] == d2[|d2| - 1];
      assert IsDigit(d2[|d2| - 1]);
    }
  }

  lemma ParseGetLineSound(line: seq<byte>) returns (d1: seq<byte>, d2: seq<byte>)
    requires ParseGetLine(line).Some?
    ensures var g := ParseGetLine(line).value;
            line == GET_PREFIX + g.fileName + [SPACE] + d1 + [SPACE] + d2 &&
            |g.fileName| > 0 && NoSpace(g.fileName) && |d1| > 0 && AllDigits(d1) && |d2| > 0 && AllDigits(d2) &&
            g.start == DigitsValue(d1) && g.end == DigitsValue(d2)
  {
    var f := SplitGetLine(line).value;
    d1, d2 := f.first, f.second;
  }

  /** Only messages of the grammar are accepted. */
  lemma ParseGetSound(m: seq<byte>)
    requires ParseGet(m).Some?
    ensures var g := ParseGet(m).value;
            exists d1, d2 :: MatchesGet(m, g.fileName, d1, d2) && g.start == DigitsValue(d1) && g.end == DigitsValue(d2)
  {
    var g := ParseGet(m).value;
    var line := m;
    if |m| > 0 && m[|m| - 1] == NEWLINE {
      line := m[..|m| - 1];
      assert m == line + [NEWLINE];
    }
    assert ParseGetLine(line) == ParseGet(m);
    var d1, d2 := ParseGetLineSound(line);
    MatchesGetLine(m, line, g.fileName, d1, d2);
  }

  lemma MatchesGetLine(m: seq<byte>, line: seq<byte>, name: seq<byte>, d1: seq<byte>, d2: seq<byte>)
    requires m == line || m == line + [NEWLINE]
    requires line == GET_PREFIX + name + [SPACE] + d1 + [SPACE] + d2
    requires |name| > 0 && NoSpace(name) && |d1| > 0 && AllDigits(d1) && |d2| > 0 && AllDigits(d2)
    ensures MatchesGet(m, name, d1, d2)
  {
  }

  predicate StartsWith(s: seq<byte>, prefix: seq<byte>)
  {
    |prefix| <= |s| && s[..|prefix|] == prefix
  }

  /** The dispatch order of handle_client (SERVER/Server.py:117-135). */
  function Classify(m: seq<byte>): (c: Command)
    ensures c == Connect <==> m == CONNECT_MESSAGE
    ensures c == Disconnect <==> m == DISCONNECT_MESSAGE
    ensures c.Get? ==> ParseGet(m) == Some(c.request)
    ensures c.Get? || c == MalformedGet <==> StartsWith(m, GET_WORD)
  {
    assert CONNECT_MESSAGE[0] == 33 && DISCONNECT_MESSAGE[0] == 33 && GET_WORD[0] == 71;
    if m == CONNECT_MESSAGE then Connect
    else if m == DISCONNECT_MESSAGE then Disconnect
    else if StartsWith(m, GET_WORD) then
      match ParseGet(m)
      case Some(g) => Get(g)
      case None => MalformedGet
    else Unknown
  }

  // ===========================================================================
  // Chunk packets

  /** generate_checksum (SERVER/Server.py:37-38): the first 16 characters of the
      MD5 hex digest. */
  function Checksum(md5: seq<byte> -> Digest16, data: seq<byte>): (c: seq<byte>)
    ensures |c| == CHECKSUM_SIZE
  {
    Hex(md5(data))[..CHECKSUM_SIZE]
  }

  datatype Packet = Packet(checksum: seq<byte>, payload: seq<byte>)

  predicate WellFormed(p: Packet)
  {
    |p.checksum| == CHECKSUM_SIZE && 1 <= |p.payload| <= BUFFER_SIZE
  }

  /** struct.pack("!I 16s <n>s", ...) of SERVER/Server.py:99. */
  function PacketBytes(p: Packet): seq<byte>
    requires WellFormed(p)
  {
    U32(|p.payload|) + p.checksum + p.payload
  }

  function Wire(ps: seq<Packet>): seq<byte>
    requires forall i | 0 <= i < |ps| :: WellFormed(ps[i])
  {
    if ps == [] then [] else PacketBytes(ps[0]) + Wire(ps[1..])
  }

  /** A reader of the packet layout: length, checksum, payload. */
  function ParsePacket(s: seq<byte>): (r: Option<(Packet, seq<byte>)>)
    ensures r.Some? ==> |r.value.1| < |s|
  {
    if |s| < 4 + CHECKSUM_SIZE then None
    else
      var n := ReadU32(s[..4]);
      if |s| < 4 + CHECKSUM_SIZE + n then None
      else Some((Packet(s[4..4 + CHECKSUM_SIZE], s[4 + CHECKSUM_SIZE..4 + CHECKSUM_SIZE + n]),
                 s[4 + CHECKSUM_SIZE + n..]))
  }

  function ParsePackets(s: seq<byte>): Option<seq<Packet>>
    decreases |s|
  {
    if s == [] then Some([])
    else
      match ParsePacket(s)
      case None => None
      case Some((p, rest)) =>
        match ParsePackets(rest)
        case None => None
        case Some(ps) => Some([p] + ps)
  }

  /** The reader takes exactly one well-formed packet off the front of a stream. */
  lemma ParsePacketOf(p: Packet, rest: seq<byte>)
    requires WellFormed(p)
    ensures ParsePacket(PacketBytes(p) + rest) == Some((p, rest))
  {
    var s := PacketBytes(p) + rest;
    var n := |p.payload|;
    assert s == U32(n) + p.checksum + p.payload + rest;
    assert s[..4] == U32(n);
    U32RoundTrip(n);
    assert s[4..4 + CHECKSUM_SIZE] == p.checksum;
    assert s[4 + CHECKSUM_SIZE..4 + CHECKSUM_SIZE + n] == p.payload;
    assert s[4 + CHECKSUM_SIZE + n..] == rest;
  }

  /** The declared length of every packet is its payload's length: a reader of the
      layout recovers each packet, and the packet stream, exactly. */
  lemma {:induction false} ParsePacketsRoundTrip(ps: seq<Packet>)
    requires forall i | 0 <= i < |ps| :: WellFormed(ps[i])
    ensures ParsePackets(Wire(ps)) == Some(ps)
  {
    if ps != [] {
      ParsePacketOf(ps[0], Wire(ps[1..]));
      ParsePacketsRoundTrip(ps[1..]);
      assert [ps[0]] + ps[1..] == ps;
    }
  }

  /** The bytes of a file that send_chunk_file covers for the range [start, end). */
  function Window(data: seq<byte>, start: nat, end: nat): seq<byte>
  {
    if start < end && start < |data| then data[start..Min(end, |data|)] else []
  }

  /** Where the read that starts at `start` stops: after min(4096, end - start)
      bytes, or at the end of the file. */
  function ReadEnd(data: seq<byte>, start: nat, end: nat): nat
  {
    Min(start + Min(BUFFER_SIZE, end - start), |data|)
  }

  /** The packets send_chunk_file emits for a file's contents (SERVER/Server.py:91-102):
      reads of min(4096, end - start) bytes, each sent with its checksum, until the
      range is covered or the file ends. */
  function ChunkPackets(md5: seq<byte> -> Digest16, data: seq<byte>, start: nat, end: nat): seq<Packet>
    decreases end - start
  {
    if start < end && start < |data| then
      var chunk := data[start..ReadEnd(data, start, end)];
      [Packet(Checksum(md5, chunk), chunk)] + ChunkPackets(md5, data, start + |chunk|, end)
    else []
  }

  /** One read of the loop: its chunk, then the packets of the rest of the range. */
  lemma ChunkPacketsStep(md5: seq<byte> -> Digest16, data: seq<byte>, start: nat, end: nat)
    requires start < end && start < |data|
    ensures var stop := ReadEnd(data, start, end);
            start < stop <= start + BUFFER_SIZE &&
            ChunkPackets(md5, data, start, end)
            == [Packet(Checksum(md5, data[start..stop]), data[start..stop])] + ChunkPackets(md5, data, stop, end)
  {
  }

  lemma WindowStep(data: seq<byte>, start: nat, end: nat)
    requires start < end && start < |data|
    ensures var stop := ReadEnd(data, start, end);
            Window(data, start, end) == data[start..stop] + Window(data, stop, end)
  {
    var stop := ReadEnd(data, start, end);
    var m := Min(end, |data|);
    assert stop <= m;
    assert data[start..m] == data[start..stop] + data[stop..m];
  }

  function Payloads(ps: seq<Packet>): seq<seq<byte>>
  {
    seq(|ps|, i requires 0 <= i < |ps| => ps[i].payload)
  }

  lemma PayloadsCons(p: Packet, ps: seq<Packet>)
    ensures Concat(Payloads([p] + ps)) == p.payload + Concat(Payloads(ps))
  {
    assert Payloads([p] + ps) == [p.payload] + Payloads(ps);
    ConcatCons(p.payload, Payloads(ps));
  }

  /** Packetiser coverage: every packet is well formed and carries the checksum of
      its own payload; all but the last carry exactly 4096 bytes; in order, the
      payloads spell exactly the bytes [start, min(end, size)) of the file. */
  lemma {:induction false} ChunkPacketsCover(md5: seq<byte> -> Digest16, data: seq<byte>, start: nat, end: nat)
    ensures var ps := ChunkPackets(md5, data, start, end);
            (forall i | 0 <= i < |ps| :: WellFormed(ps[i]) && ps[i].checksum == Checksum(md5, ps[i].payload)) &&
            (forall i | 0 <= i < |ps| - 1 :: |ps[i].payload| == BUFFER_SIZE) &&
            Concat(Payloads(ps)) == Window(data, start, end)
    decreases end - start
  {
    if start < end && start < |data| {
      var stop := ReadEnd(data, start, end);
      var chunk := data[start..stop];
      var p := Packet(Checksum(md5, chunk), chunk);
      var tail := ChunkPackets(md5, data, stop, end);
      ChunkPacketsStep(md5, data, start, end);
      ChunkPacketsCover(md5, data, stop, end);
      PayloadsCons(p, tail);
      WindowStep(data, start, end);
      var ps := [p] + tail;
      assert WellFormed(p);
      if tail != [] {
        assert |chunk| == BUFFER_SIZE;
      }
      assert forall i | 1 <= i < |ps| :: ps[i] == tail[i - 1];
    }
  }

  /** Nothing is sent exactly when the range is empty or starts at or past the end
      of the file, that is, when there are no bytes to cover. */
  lemma NoPacketsOutside(md5: seq<byte> -> Digest16, data: seq<byte>, start: nat, end: nat)
    ensures ChunkPackets(md5, data, start, end) == [] <==> (start >= end || start >= |data|)
    ensures ChunkPackets(md5, data, start, end) == [] <==> Window(data, start, end) == []
  {
  }

  /** One pass of the read loop keeps "packets sent so far, then the packets of the
      rest of the range" equal to the packets of the whole range. */
  lemma ChunkLoopStep(md5: seq<byte> -> Digest16, data: seq<byte>, start: nat, end: nat,
                      position: nat, packets: seq<Packet>, chunk: seq<byte>)
    requires position < end && position < |data| && chunk == data[position..ReadEnd(data, position, end)]
    requires packets + ChunkPackets(md5, data, position, end) == ChunkPackets(md5, data, start, end)
    ensures (packets + [Packet(Checksum(md5, chunk), chunk)]) + ChunkPackets(md5, data, position + |chunk|, end)
            == ChunkPackets(md5, data, start, end)
  {
    var stop := ReadEnd(data, position, end);
    ChunkPacketsStep(md5, data, position, end);
    assert position + |chunk| == stop;
    var packet := Packet(Checksum(md5, chunk), chunk);
    var rest := ChunkPackets(md5, data, stop, end);
    assert ChunkPackets(md5, data, position, end) == [packet] + rest;
    assert packets + ([packet] + rest) == (packets + [packet]) + rest;
  }

  /** The read loop stops when the range or the file is used up: the packets sent so
      far are then all the packets of the range. */
  lemma ChunkLoopEnd(md5: seq<byte> -> Digest16, data: seq<byte>, start: nat, end: nat,
                     position: nat, packets: seq<Packet>)
    requires position >= end || position >= |data| || data[position..ReadEnd(data, position, end)] == []
    requires packets + ChunkPackets(md5, data, position, end) == ChunkPackets(md5, data, start, end)
    ensures packets == ChunkPackets(md5, data, start, end)
  {
    assert ChunkPackets(md5, data, position, end) == [];
    assert packets + [] == packets;
  }

  /** send_chunk_file (SERVER/Server.py:87-107) against the files it can open: a
      missing file sends nothing; otherwise the read loop emits its packets. */
  method SendChunkFile(md5: seq<byte> -> Digest16, files: map<seq<byte>, seq<byte>>, fileName: seq<byte>,
                       start: nat, end: nat) returns (packets: seq<Packet>)
    ensures fileName !in files ==> packets == []
    ensures fileName in files ==> packets == ChunkPackets(md5, files[fileName], start, end)
  {
    packets := [];
    if fileName !in files {
      return;
    }
    var data := files[fileName];
    var position := start;
    while position < end
      invariant start <= position
      invariant packets + ChunkPackets(md5, data, position, end) == ChunkPackets(md5, data, start, end)
      decreases end - position
    {
      // file.read(min(4096, end - start)) returns b"" at the end of the file
      var chunk := if position < |data| then data[position..ReadEnd(data, position, end)] else [];
      if chunk == [] {
        ChunkLoopEnd(md5, data, start, end, position, packets);
        break;
      }
      ChunkLoopStep(md5, data, start, end, position, packets, chunk);
      var checksum := Checksum(md5, chunk);
      packets := packets + [Packet(checksum, chunk)];
      position := position + |chunk|;
    }
    ChunkLoopEnd(md5, data, start, end, position, packets);
  }

  // ===========================================================================
  // The catalog sent on !CONNECT

  /** One entry of the server directory listing; `size` is what getsize reports. */
  datatype DirEntry = DirEntry(name: seq<byte>, isFile: bool, size: nat)

  predicate Listed(e: DirEntry)
  {
    e.isFile && e.name != SERVER_SCRIPT
  }

  /** The entries the for-loop of send_downloaded_file_list formats, in listing order. */
  function ListedEntries(dir: seq<DirEntry>): (r: seq<DirEntry>)
    ensures forall e :: e in r <==> e in dir && Listed(e)
    ensures |r| <= |dir|
    ensures |dir| == 1 ==> r == if Listed(dir[0]) then dir else []
  {
    if dir == [] then []
    else
      var rest := ListedEntries(dir[..|dir| - 1]);
      assert dir == dir[..|dir| - 1] + [dir[|dir| - 1]];
      if Listed(dir[|dir| - 1]) then rest + [dir[|dir| - 1]] else rest
  }

  /** Listing distributes over concatenation: with the one-entry case this says every
      listed entry appears exactly where, and as often as, it appears in the directory. */
  lemma {:induction false} ListedEntriesAppend(a: seq<DirEntry>, b: seq<DirEntry>)
    ensures ListedEntries(a + b) == ListedEntries(a) + ListedEntries(b)
    decreases |b|
  {
    if b == [] {
      assert a + b == a;
    } else {
      var front := b[..|b| - 1];
      var last := b[|b| - 1];
      assert (a + b)[..|a + b| - 1] == a + front;
      assert (a + b)[|a + b| - 1] == last;
      assert b[..|b| - 1] == front;
      ListedEntriesAppend(a, front);
    }
  }

  /** generate_file_checksum (SERVER/Server.py:40-50), which opens the bare name
      relative to the working directory: the full MD5 hex digest, or the error text
      for a missing file. */
  function FileChecksum(md5: seq<byte> -> Digest16, files: map<seq<byte>, seq<byte>>, name: seq<byte>): (r: seq<byte>)
    ensures name in files <==> |r| == 32 && forall i | 0 <= i < |r| :: IsLowerHex(r[i])
    ensures name !in files ==> r == Ascii("Error: File '") + name + Ascii("' not found.")
  {
    if name in files then Hex(md5(files[name]))
    else
      var error := Ascii("Error: File '") + name + Ascii("' not found.");
      assert error[0] == 69;
      error
  }

  /** One catalog line: "name size_str size_bytes checksum" (SERVER/Server.py:64). */
  function CatalogLine(md5: seq<byte> -> Digest16, files: map<seq<byte>, seq<byte>>, e: DirEntry): (r: seq<byte>)
    ensures var sum := FileChecksum(md5, files, e.name);
            |r| > |e.name| + |sum| + 2 &&
            r[..|e.name| + 1] == e.name + [SPACE] && r[|r| - |sum| - 1..] == [SPACE] + sum
  {
    SpaceJoinedEnds(e.name, SizeLabel(e.size), Decimal(e.size), FileChecksum(md5, files, e.name));
    e.name + [SPACE] + SizeLabel(e.size) + [SPACE] + Decimal(e.size) + [SPACE] + FileChecksum(md5, files, e.name)
  }

  /** Python's `sep.join(parts)` for a one-byte separator. */
  function Join(parts: seq<seq<byte>>, sep: byte): seq<byte>
  {
    if |parts| == 0 then []
    else if |parts| == 1 then parts[0]
    else Join(parts[..|parts| - 1], sep) + [sep] + parts[|parts| - 1]
  }

  /** The lines of the catalog: the i-th line describes the i-th listed file. */
  function CatalogLines(md5: seq<byte> -> Digest16, files: map<seq<byte>, seq<byte>>, entries: seq<DirEntry>)
      : (lines: seq<seq<byte>>)
    ensures |lines| == |entries|
    ensures forall i | 0 <= i < |entries| :: lines[i] == CatalogLine(md5, files, entries[i])
  {
    seq(|entries|, i requires 0 <= i < |entries| => CatalogLine(md5, files, entries[i]))
  }

  lemma CatalogLinesSnoc(md5: seq<byte> -> Digest16, files: map<seq<byte>, seq<byte>>, entries: seq<DirEntry>, i: nat)
    requires i < |entries|
    ensures CatalogLines(md5, files, entries[..i + 1])
            == CatalogLines(md5, files, entries[..i]) + [CatalogLine(md5, files, entries[i])]
  {
    var longer, shorter := CatalogLines(md5, files, entries[..i + 1]), CatalogLines(md5, files, entries[..i]);
    forall k | 0 <= k < i + 1
      ensures longer[k] == (shorter + [CatalogLine(md5, files, entries[i])])[k]
    {
      if k < i { assert entries[..i + 1][k] == entries[..i][k]; }
    }
  }

  /** The catalog message of send_downloaded_file_list (SERVER/Server.py:52-67). */
  function Catalog(md5: seq<byte> -> Digest16, files: map<seq<byte>, seq<byte>>, dir: seq<DirEntry>): seq<byte>
  {
    Join(CatalogLines(md5, files, ListedEntries(dir)), NEWLINE)
  }

  /** send_downloaded_file_list: the for-loop over the listed files, formatting
      one line each with convert_size. */
  method FileList(md5: seq<byte> -> Digest16, files: map<seq<byte>, seq<byte>>, dir: seq<DirEntry>)
      returns (message: seq<byte>)
    ensures message == Catalog(md5, files, dir)
  {
    var entries := ListedEntries(dir);
    var lines: seq<seq<byte>> := [];
    for i := 0 to |entries|
      invariant lines == CatalogLines(md5, files, entries[..i])
    {
      var e := entries[i];
      var sizeText := ConvertSize(e.size);
      var line := e.name + [SPACE] + sizeText + [SPACE] + Decimal(e.size) + [SPACE] + FileChecksum(md5, files, e.name);
      assert line == CatalogLine(md5, files, e);
      CatalogLinesSnoc(md5, files, entries, i);
      lines := lines + [line];
    }
    assert entries[..|entries|] == entries;
    message := Join(lines, NEWLINE);
  }

  /** Python's `text.split(sep)` for a one-byte separator. */
  function Split(s: seq<byte>, sep: byte): (r: seq<seq<byte>>)
    decreases |s|
  {
    var k := LastIndexOf(s, sep);
    if k < 0 then [s] else Split(s[..k], sep) + [s[k + 1..]]
  }

  predicate Lacks(s: seq<byte>, b: byte) { forall i | 0 <= i < |s| :: s[i] != b }

  lemma {:induction false} LastIndexOfBefore(a: seq<byte>, b: byte, tail: seq<byte>)
    requires forall i | 0 <= i < |tail| :: tail[i] != b
    ensures LastIndexOf(a + [b] + tail, b) == |a|
  {
    if tail != [] {
      var s := a + [b] + tail;
      assert s[..|s| - 1] == a + [b] + tail[..|tail| - 1];
      LastIndexOfBefore(a, b, tail[..|tail| - 1]);
    }
  }

  /** Joining parts that do not hold the separator and splitting the result again
      gives the same parts back: the catalog splits at newlines into one line per
      listed file, and a catalog line splits at blanks into its fields. */
  lemma {:induction false} SplitJoin(parts: seq<seq<byte>>, sep: byte)
    requires |parts| >= 1
    requires forall i | 0 <= i < |parts| :: Lacks(parts[i], sep)
    ensures Split(Join(parts, sep), sep) == parts
  {
    var last := parts[|parts| - 1];
    if |parts| == 1 {
      assert LastIndexOf(last, sep) == -1;
    } else {
      var front := parts[..|parts| - 1];
      var j := Join(front, sep);
      var s := j + [sep] + last;
      LastIndexOfBefore(j, sep, last);
      assert s[..|j|] == j && s[|j| + 1..] == last;
      SplitJoin(front, sep);
      assert front + [last] == parts;
    }
  }

  lemma JoinSnoc(parts: seq<seq<byte>>, w: seq<byte>, sep: byte)
    requires |parts| >= 1
    ensures Join(parts + [w], sep) == Join(parts, sep) + [sep] + w
  {
    assert (parts + [w])[..|parts|] == parts;
  }

  /** The blank-separated words of a size label: "0B" alone, or the number and the unit. */
  function SizeWords(size: int): (r: seq<seq<byte>>)
    ensures |r| == if size <= 0 then 1 else 2
    ensures forall i | 0 <= i < |r| :: Lacks(r[i], SPACE)
  {
    if size <= 0 then [ZERO_SIZE]
    else
      var k := Magnitude(size);
      assert forall j | 0 <= j < |UNITS| :: Lacks(UNITS[j], SPACE);
      [Decimal(size / Pow(1024, k)), UNITS[k]]
  }

  lemma {:induction false} JoinCons(w: seq<byte>, parts: seq<seq<byte>>, sep: byte)
    requires |parts| >= 1
    ensures Join([w] + parts, sep) == w + [sep] + Join(parts, sep)
    decreases |parts|
  {
    if |parts| > 1 {
      var front, last := parts[..|parts| - 1], parts[|parts| - 1];
      assert ([w] + parts)[..|parts|] == [w] + front;
      JoinCons(w, front, sep);
    } else {
      assert [w] + parts == [w, parts[0]];
    }
  }

  /** Joining the words of a size label with blanks gives the label back. */
  lemma SizeWordsJoin(size: int)
    ensures Join(SizeWords(size), SPACE) == SizeLabel(size)
  {
    if size > 0 {
      var w := SizeWords(size);
      assert w == [w[0]] + [w[1]];
      JoinSnoc([w[0]], w[1], SPACE);
    }
  }

  /** The fields of a catalog line, in the order the line holds them. */
  function CatalogWords(md5: seq<byte> -> Digest16, files: map<seq<byte>, seq<byte>>, e: DirEntry)
      : seq<seq<byte>>
  {
    [e.name] + SizeWords(e.size) + [Decimal(e.size), FileChecksum(md5, files, e.name)]
  }

  lemma CatalogWordsJoin(md5: seq<byte> -> Digest16, files: map<seq<byte>, seq<byte>>, e: DirEntry)
    ensures Join(CatalogWords(md5, files, e), SPACE) == CatalogLine(md5, files, e)
  {
    var sizeWords, digits, sum := SizeWords(e.size), Decimal(e.size), FileChecksum(md5, files, e.name);
    var front := [e.name] + sizeWords;
    SizeWordsJoin(e.size);
    JoinCons(e.name, sizeWords, SPACE);
    JoinSnoc(front, digits, SPACE);
    assert CatalogWords(md5, files, e) == (front + [digits]) + [sum];
    JoinSnoc(front + [digits], sum, SPACE);
  }

  lemma CatalogWordsLackSpace(md5: seq<byte> -> Digest16, files: map<seq<byte>, seq<byte>>, e: DirEntry)
    requires NoSpace(e.name) && e.name in files
    ensures forall i | 0 <= i < |CatalogWords(md5, files, e)| :: Lacks(CatalogWords(md5, files, e)[i], SPACE)
  {
    var sizeWords := SizeWords(e.size);
    var words := CatalogWords(md5, files, e);
    forall i | 0 <= i < |words|
      ensures Lacks(words[i], SPACE)
    {
      if 1 <= i <= |sizeWords| {
        assert words[i] == sizeWords[i - 1];
      }
    }
  }

  /** Reading a catalog line back: for a file in the directory whose name has no
      blank, `line.split(" ")` gives the name, the words of its size label, the size in
      bytes, which reads back as the file's size, and the file's MD5 hex digest. */
  lemma CatalogLineWords(md5: seq<byte> -> Digest16, files: map<seq<byte>, seq<byte>>, e: DirEntry)
    requires NoSpace(e.name) && e.name in files
    ensures var words := Split(CatalogLine(md5, files, e), SPACE);
            words == [e.name] + SizeWords(e.size) + [Decimal(e.size), Hex(md5(files[e.name]))] &&
            AllDigits(words[|words| - 2]) && DigitsValue(words[|words| - 2]) == e.size
  {
    CatalogWordsJoin(md5, files, e);
    CatalogWordsLackSpace(md5, files, e);
    SplitJoin(CatalogWords(md5, files, e), SPACE);
    DecimalRoundTrip(e.size);
  }

  /** A catalog line for a file whose name has no blank has four fields when the file
      is non-empty and three when it is empty ("0B" has no blank). */
  lemma CatalogLineFields(md5: seq<byte> -> Digest16, files: map<seq<byte>, seq<byte>>, e: DirEntry)
    requires NoSpace(e.name) && e.name in files
    ensures Count(CatalogLine(md5, files, e), SPACE) == if e.size == 0 then 3 else 4
  {
    var digits := Decimal(e.size);
    var sum := Hex(md5(files[e.name]));
    SizeLabelSpaces(e.size);
    CountAbsent(digits, SPACE);
    CountAbsent(sum, SPACE);
    SpaceJoinedCount(e.name, SizeLabel(e.size), digits, sum);
  }

  /** Four fields joined by single spaces begin with the first field and a space, and
      end with a space and the last field. */
  lemma SpaceJoinedEnds(w: seq<byte>, x: seq<byte>, y: seq<byte>, z: seq<byte>)
    ensures var r := w + [SPACE] + x + [SPACE] + y + [SPACE] + z;
            |r| == |w| + |x| + |y| + |z| + 3 &&
            r[..|w| + 1] == w + [SPACE] && r[|r| - |z| - 1..] == [SPACE] + z
  {
    var r := w + [SPACE] + x + [SPACE] + y + [SPACE] + z;
    assert r == (w + [SPACE]) + (x + [SPACE] + y) + ([SPACE] + z);
  }

  /** Four fields joined by single spaces: the spaces of the second field plus the
      three separators, when the others have none. */
  lemma SpaceJoinedCount(w: seq<byte>, x: seq<byte>, y: seq<byte>, z: seq<byte>)
    requires Count(w, SPACE) == 0 && Count(y, SPACE) == 0 && Count(z, SPACE) == 0
    ensures Count(w + [SPACE] + x + [SPACE] + y + [SPACE] + z, SPACE) == Count(x, SPACE) + 3
  {
    var a := w + [SPACE];
    var b := a + x + [SPACE];
    var c := b + y + [SPACE];
    CountAppend(w, [SPACE], SPACE);
    CountAppend(a, x, SPACE);
    CountAppend(a + x, [SPACE], SPACE);
    CountAppend(b, y, SPACE);
    CountAppend(b + y, [SPACE], SPACE);
    CountAppend(c, z, SPACE);
  }

  lemma CountAppend(s: seq<byte>, t: seq<byte>, b: byte)
    ensures Count(s + t, b) == Count(s, b) + Count(t, b)
  {
    assert multiset(s + t) == multiset(s) + multiset(t);
  }

  // ===========================================================================
  // The session loop of handle_client

  /** Why a session ended. */
  datatype EndReason = NoMoreInput | ReadError | EmptyMessage | Disconnected

  /** The result of serving one message: the session ends, or a reply (possibly
      empty) is sent and the loop carries on with the remaining input. */
  datatype Step = End(reason: EndReason) | Reply(output: seq<byte>, rest: seq<byte>)

  /** ChunkPackets with its well-formedness attached, for use inside Wire. */
  function ChunkPacketsWellFormed(md5: seq<byte> -> Digest16, data: seq<byte>, start: nat, end: nat): (ps: seq<Packet>)
    ensures ps == ChunkPackets(md5, data, start, end)
    ensures forall i | 0 <= i < |ps| :: WellFormed(ps[i])
  {
    ChunkPacketsCover(md5, data, start, end);
    ChunkPackets(md5, data, start, end)
  }

  /** What handle_client sends in answer to a command that does not end the
      session: the framed catalog, the packets of a GET, or nothing. */
  function ReplyTo(md5: seq<byte> -> Digest16, files: map<seq<byte>, seq<byte>>, dir: seq<DirEntry>,
                   c: Command): seq<byte>
  {
    match c
    case Connect => EncodeMessage(Catalog(md5, files, dir))
    case Get(g) =>
      if g.fileName in files then Wire(ChunkPacketsWellFormed(md5, files[g.fileName], g.start, g.end)) else []
    case _ => []
  }

  /** One pass of the loop in handle_client (SERVER/Server.py:111-138). */
  function ServeMessage(md5: seq<byte> -> Digest16, files: map<seq<byte>, seq<byte>>, dir: seq<DirEntry>,
                        stream: seq<byte>): (r: Step)
    ensures r.Reply? ==> |r.rest| < |stream|
  {
    match ReceiveMessage(stream)
    case NoHeader => End(NoMoreInput)
    case BadHeader => End(ReadError)
    case Message(m, rest) =>
      if m == [] then End(EmptyMessage)
      else if Classify(m) == Disconnect then End(Disconnected)
      else Reply(ReplyTo(md5, files, dir, Classify(m)), rest)
  }

  /** Everything the server sends back over one connection, given all the bytes the
      client sends on it. */
  function SessionOutput(md5: seq<byte> -> Digest16, files: map<seq<byte>, seq<byte>>, dir: seq<DirEntry>,
                         stream: seq<byte>): seq<byte>
    decreases |stream|
  {
    match ServeMessage(md5, files, dir, stream)
    case End(_) => []
    case Reply(out, rest) => out + SessionOutput(md5, files, dir, rest)
  }

  /** One pass of the loop: the session ends unless a non-empty message other than
      `!DISCONNECT` arrives, which is answered before the rest of the input is served. */
  lemma SessionUnfold(md5: seq<byte> -> Digest16, files: map<seq<byte>, seq<byte>>, dir: seq<DirEntry>,
                      stream: seq<byte>)
    ensures var r := ReceiveMessage(stream);
            if r.Message? && r.payload != [] && Classify(r.payload) != Disconnect then
              SessionOutput(md5, files, dir, stream)
              == ReplyTo(md5, files, dir, Classify(r.payload)) + SessionOutput(md5, files, dir, r.rest)
            else SessionOutput(md5, files, dir, stream) == []
  {
  }

  /** The branches of handle_client that answer a command (SERVER/Server.py:117-135). */
  method Respond(md5: seq<byte> -> Digest16, files: map<seq<byte>, seq<byte>>, dir: seq<DirEntry>,
                 command: Command) returns (reply: seq<byte>)
    ensures reply == ReplyTo(md5, files, dir, command)
  {
    match command {
      case Connect =>
        var list := FileList(md5, files, dir);
        reply := EncodeMessage(list);
      case Get(g) =>
        var packets := SendChunkFile(md5, files, g.fileName, g.start, g.end);
        ChunkPacketsCover(md5, if g.fileName in files then files[g.fileName] else [], g.start, g.end);
        reply := Wire(packets);
      case _ =>
        reply := [];
    }
  }

  /** One pass of handle_client's loop (SERVER/Server.py:111-138): receive a message
      and answer it. `connected` is false when the session ends here: no header, a
      header that raised, an empty message, or `!DISCONNECT`. */
  method ServeOnce(md5: seq<byte> -> Digest16, files: map<seq<byte>, seq<byte>>, dir: seq<DirEntry>,
                   stream: seq<byte>) returns (reply: seq<byte>, rest: seq<byte>, connected: bool)
    ensures connected ==>
              |rest| < |stream| &&
              SessionOutput(md5, files, dir, stream) == reply + SessionOutput(md5, files, dir, rest)
    ensures !connected ==> reply == [] && SessionOutput(md5, files, dir, stream) == []
  {
    var received := ReceiveMessage(stream);
    SessionUnfold(md5, files, dir, stream);
    reply, rest, connected := [], stream, false;
    if !received.Message? || received.payload == [] {
      return;
    }
    var command := Classify(received.payload);
    if command != Disconnect {
      reply := Respond(md5, files, dir, command);
      rest := received.rest;
      connected := true;
    }
  }

  /** handle_client (SERVER/Server.py:109-140) as a loop over the incoming bytes. */
  method HandleClient(md5: seq<byte> -> Digest16, files: map<seq<byte>, seq<byte>>, dir: seq<DirEntry>,
                      input: seq<byte>) returns (sent: seq<byte>)
    ensures sent == SessionOutput(md5, files, dir, input)
  {
    sent := [];
    var stream := input;
    ghost var pending := SessionOutput(md5, files, dir, input);
    while true
      invariant pending == SessionOutput(md5, files, dir, stream)
      invariant sent + pending == SessionOutput(md5, files, dir, input)
      decreases |stream|
    {
      var reply, rest, connected := ServeOnce(md5, files, dir, stream);
      if !connected {
        assert pending == [];
        break;
      }
      sent, stream, pending := sent + reply, rest, SessionOutput(md5, files, dir, rest);
    }
  }

  // ---------------------------------------------------------------------------
  // Properties of whole sessions

  /** `!DISCONNECT` ends the session: nothing after it is answered. */
  lemma DisconnectEndsSession(md5: seq<byte> -> Digest16, files: map<seq<byte>, seq<byte>>, dir: seq<DirEntry>,
                              rest: seq<byte>)
    ensures SessionOutput(md5, files, dir, EncodeMessage(DISCONNECT_MESSAGE) + rest) == []
  {
    var stream := EncodeMessage(DISCONNECT_MESSAGE) + rest;
    assert |DISCONNECT_MESSAGE| == 11;
    FramingRoundTrip(DISCONNECT_MESSAGE, rest);
    assert ReceiveMessage(stream) == Message(DISCONNECT_MESSAGE, rest);
    assert Classify(DISCONNECT_MESSAGE) == Disconnect;
    SessionUnfold(md5, files, dir, stream);
  }

  /** `!CONNECT` is answered with the framed catalog, then the session goes on. */
  lemma ConnectSendsCatalog(md5: seq<byte> -> Digest16, files: map<seq<byte>, seq<byte>>, dir: seq<DirEntry>,
                            rest: seq<byte>)
    ensures SessionOutput(md5, files, dir, EncodeMessage(CONNECT_MESSAGE) + rest)
            == EncodeMessage(Catalog(md5, files, dir)) + SessionOutput(md5, files, dir, rest)
  {
    assert |CONNECT_MESSAGE| == 8;
    SessionStep(md5, files, dir, CONNECT_MESSAGE, rest);
    assert Classify(CONNECT_MESSAGE) == Connect;
  }

  /** A framed message other than `!DISCONNECT` is answered, then the session goes
      on with the bytes after it. */
  lemma SessionStep(md5: seq<byte> -> Digest16, files: map<seq<byte>, seq<byte>>, dir: seq<DirEntry>,
                    m: seq<byte>, rest: seq<byte>)
    requires m != [] && m != DISCONNECT_MESSAGE && |m| <= RECV_MAX
    ensures SessionOutput(md5, files, dir, EncodeMessage(m) + rest)
            == ReplyTo(md5, files, dir, Classify(m)) + SessionOutput(md5, files, dir, rest)
  {
    var stream := EncodeMessage(m) + rest;
    FramingRoundTrip(m, rest);
    assert ServeMessage(md5, files, dir, stream) == Reply(ReplyTo(md5, files, dir, Classify(m)), rest);
  }

  /** A message that starts with "GET " is neither `!CONNECT` nor `!DISCONNECT`. */
  lemma GetPrefixed(m: seq<byte>)
    requires |m| >= 4 && m[..4] == GET_PREFIX
    ensures StartsWith(m, GET_WORD) && m != CONNECT_MESSAGE && m != DISCONNECT_MESSAGE
  {
    assert m[0] == 71;
    assert CONNECT_MESSAGE[0] == 33 && DISCONNECT_MESSAGE[0] == 33;
    assert m[..3] == m[..4][..3];
  }

  lemma ClassifyGet(m: seq<byte>, name: seq<byte>, d1: seq<byte>, d2: seq<byte>)
    requires MatchesGet(m, name, d1, d2)
    ensures Classify(m) == Get(GetRequest(name, DigitsValue(d1), DigitsValue(d2)))
  {
    ParseGetComplete(m, name, d1, d2);
    var line := GET_PREFIX + name + [SPACE] + d1 + [SPACE] + d2;
    assert line[..4] == GET_PREFIX;
    if m != line {
      assert m[..4] == line[..4];
    }
    GetPrefixed(m);
  }

  /** A well-formed GET is answered with the packets of the requested range of the
      named file (none for a missing file), then the session goes on. */
  lemma GetSendsPackets(md5: seq<byte> -> Digest16, files: map<seq<byte>, seq<byte>>, dir: seq<DirEntry>,
                        m: seq<byte>, name: seq<byte>, d1: seq<byte>, d2: seq<byte>, rest: seq<byte>)
    requires MatchesGet(m, name, d1, d2) && |m| <= RECV_MAX
    ensures var start, end := DigitsValue(d1), DigitsValue(d2);
            SessionOutput(md5, files, dir, EncodeMessage(m) + rest)
            == (if name in files then Wire(ChunkPacketsWellFormed(md5, files[name], start, end)) else [])
               + SessionOutput(md5, files, dir, rest)
  {
    var start, end := DigitsValue(d1), DigitsValue(d2);
    ClassifyGet(m, name, d1, d2);
    assert m != [] && Classify(m) != Disconnect;
    SessionStep(md5, files, dir, m, rest);
    assert ReplyTo(md5, files, dir, Get(GetRequest(name, start, end)))
           == if name in files then Wire(ChunkPacketsWellFormed(md5, files[name], start, end)) else [];
  }

  /** Any other non-empty message is ignored: no reply, and the session goes on. */
  lemma OtherMessagesIgnored(md5: seq<byte> -> Digest16, files: map<seq<byte>, seq<byte>>, dir: seq<DirEntry>,
                             m: seq<byte>, rest: seq<byte>)
    requires m != [] && m != CONNECT_MESSAGE && m != DISCONNECT_MESSAGE && ParseGet(m).None?
    requires |m| <= RECV_MAX
    ensures SessionOutput(md5, files, dir, EncodeMessage(m) + rest) == SessionOutput(md5, files, dir, rest)
  {
    SessionStep(md5, files, dir, m, rest);
    assert Classify(m) == Unknown || Classify(m) == MalformedGet;
  }
}
