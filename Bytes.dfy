/** Byte sequences, big-endian integers, ASCII decimal numerals and hex digests:
    the building blocks shared by the three wire codecs of the file-transfer programs. */
module Bytes {

  /** One octet on the wire. */
  type byte = b: int | 0 <= b < 256

  /** A raw MD5 digest (16 bytes). */
  type Digest16 = d: seq<byte> | |d| == 16 witness seq(16, _ => 0)

  /** A raw SHA-256 digest (32 bytes). */
  type Digest32 = d: seq<byte> | |d| == 32 witness seq(32, _ => 0)

  datatype Option<T> = None | Some(value: T)

  const SPACE: byte := 32
  const NEWLINE: byte := 10

  /** The bytes of an ASCII string literal. */
  function Ascii(s: string): (r: seq<byte>)
    requires forall i | 0 <= i < |s| :: s[i] < 128 as char
    ensures |r| == |s|
    ensures forall i | 0 <= i < |s| :: r[i] == s[i] as int
  {
    seq(|s|, i requires 0 <= i < |s| => s[i] as int)
  }

  /** `bytes([b]) * n` in Python: empty when n is zero or negative. */
  function Repeat(b: byte, n: int): (r: seq<byte>)
    ensures |r| == if n > 0 then n else 0
    ensures forall i | 0 <= i < |r| :: r[i] == b
  {
    if n <= 0 then [] else seq(n, _ => b)
  }

  /** One more copy of b at the end. */
  lemma RepeatSnoc(b: byte, n: nat)
    requires n >= 1
    ensures Repeat(b, n) == Repeat(b, n - 1) + [b]
  {
  }

  function Min(a: int, b: int): int { if a <= b then a else b }

  lemma MulDistributes(a: int, y: int, z: int)
    ensures a * (y + z) == a * y + a * z
  {
  }

  lemma MulAssociates(a: int, b: int, c: int)
    ensures a * (b * c) == (a * b) * c
  {
  }

  lemma MulMonotone(d: nat, a: int, b: int)
    requires a <= b
    ensures d * a <= d * b
  {
    assert d * b - d * a == d * (b - a);
  }

  function Pow(base: nat, k: nat): (r: nat)
    ensures base >= 1 ==> r >= 1
  {
    if k == 0 then 1 else base * Pow(base, k - 1)
  }

  lemma {:induction false} PowAdd(base: nat, i: nat, j: nat)
    ensures Pow(base, i + j) == Pow(base, i) * Pow(base, j)
    decreases i
  {
    if i > 0 {
      PowAdd(base, i - 1, j);
      assert Pow(base, i + j) == base * Pow(base, i - 1 + j);
      MulAssociates(base, Pow(base, i - 1), Pow(base, j));
    }
  }

  /** Concatenation of a list of byte strings (`b"".join(parts)`). */
  function Concat(parts: seq<seq<byte>>): (r: seq<byte>)
  {
    if parts == [] then [] else Concat(parts[..|parts| - 1]) + parts[|parts| - 1]
  }

  lemma ConcatAppend(parts: seq<seq<byte>>, p: seq<byte>)
    ensures Concat(parts + [p]) == Concat(parts) + p
  {
    assert (parts + [p])[..|parts|] == parts;
  }

  /** The first part, then the concatenation of the others. */
  lemma {:induction false} ConcatCons(p: seq<byte>, parts: seq<seq<byte>>)
    ensures Concat([p] + parts) == p + Concat(parts)
    decreases |parts|
  {
    if parts == [] {
      assert [p] == [] + [p];
      ConcatAppend([], p);
    } else {
      var init, last := parts[..|parts| - 1], parts[|parts| - 1];
      assert [p] + parts == ([p] + init) + [last];
      assert parts == init + [last];
      ConcatAppend([p] + init, last);
      ConcatAppend(init, last);
      ConcatCons(p, init);
    }
  }

  /** The position of the last occurrence of b in s, or -1. */
  function LastIndexOf(s: seq<byte>, b: byte): (k: int)
    ensures -1 <= k < |s| && (k >= 0 ==> s[k] == b)
    ensures forall i | k < i < |s| :: s[i] != b
  {
    if s == [] then -1 else if s[|s| - 1] == b then |s| - 1 else LastIndexOf(s[..|s| - 1], b)
  }

  // ---------------------------------------------------------------------------
  // Big-endian unsigned integers (struct formats "!H" and "!I")

  function U16(n: nat): (r: seq<byte>)
    requires n < 0x1_0000
    ensures |r| == 2
  {
    [n / 256, n % 256]
  }

  function ReadU16(s: seq<byte>): (n: nat)
    requires |s| == 2
    ensures n < 0x1_0000
  {
    (s[0] as int) * 256 + s[1]
  }

  function U32(n: nat): (r: seq<byte>)
    requires n < 0x1_0000_0000
    ensures |r| == 4
  {
    U16(n / 0x1_0000) + U16(n % 0x1_0000)
  }

  function ReadU32(s: seq<byte>): (n: nat)
    requires |s| == 4
    ensures n < 0x1_0000_0000
  {
    ReadU16(s[..2]) * 0x1_0000 + ReadU16(s[2..])
  }

  lemma U16RoundTrip(n: nat)
    requires n < 0x1_0000
    ensures ReadU16(U16(n)) == n
  {
  }

  /** Unpacking "!I" recovers exactly what packing "!I" wrote. */
  lemma U32RoundTrip(n: nat)
    requires n < 0x1_0000_0000
    ensures ReadU32(U32(n)) == n
  {
    var r := U32(n);
    assert r[..2] == U16(n / 0x1_0000);
    assert r[2..] == U16(n % 0x1_0000);
    U16RoundTrip(n / 0x1_0000);
    U16RoundTrip(n % 0x1_0000);
  }

  // ---------------------------------------------------------------------------
  // ASCII decimal numerals (Python's `str(n)` for n >= 0, and the digits `int` reads)

  predicate IsDigit(b: byte) { 48 <= b <= 57 }

  predicate AllDigits(s: seq<byte>) { forall i | 0 <= i < |s| :: IsDigit(s[i]) }

  /** Python's whitespace among ASCII characters (`str.isspace`, `\s`, `str.strip`). */
  predicate IsSpace(b: byte) { b == 32 || 9 <= b <= 13 || 28 <= b <= 31 }

  predicate AllSpace(s: seq<byte>) { forall i | 0 <= i < |s| :: IsSpace(s[i]) }

  /** The decimal numeral of n, most significant digit first, no leading zeros. */
  function Decimal(n: nat): (r: seq<byte>)
    ensures |r| >= 1 && AllDigits(r)
    ensures n >= 10 ==> r[0] != 48
    decreases n
  {
    if n < 10 then [48 + n] else Decimal(n / 10) + [48 + n % 10]
  }

  /** Python's `f"{i}"` for any integer. */
  function IntText(i: int): (r: seq<byte>)
  {
    if i < 0 then [45] + Decimal(-i) else Decimal(i)
  }

  /** The value of a string of decimal digits (leading zeros allowed). */
  function DigitsValue(s: seq<byte>): nat
    requires AllDigits(s)
  {
    if s == [] then 0 else DigitsValue(s[..|s| - 1]) * 10 + (s[|s| - 1] - 48)
  }

  /** Reading back a numeral gives the number it was written from. */
  lemma {:induction false} DecimalRoundTrip(n: nat)
    ensures DigitsValue(Decimal(n)) == n
    decreases n
  {
    if n >= 10 {
      var d := Decimal(n);
      assert d[..|d| - 1] == Decimal(n / 10);
      DecimalRoundTrip(n / 10);
    }
  }

  /** A numeral fits in k characters exactly when the number is below 10^k. */
  lemma {:induction false} DecimalLength(n: nat, k: nat)
    requires k >= 1
    ensures |Decimal(n)| <= k <==> n < Pow(10, k)
    decreases n
  {
    if n >= 10 {
      if k == 1 {
        assert |Decimal(n)| >= 2;
      } else {
        DecimalLength(n / 10, k - 1);
        assert Pow(10, k) == 10 * Pow(10, k - 1);
      }
    }
  }

  // ---------------------------------------------------------------------------
  // Hex digests (`hexdigest()`: two lower-case hex characters per raw byte)

  predicate IsLowerHex(b: byte) { 48 <= b <= 57 || 97 <= b <= 102 }

  function HexChar(v: nat): (c: byte)
    requires v < 16
    ensures IsLowerHex(c)
  {
    if v < 10 then 48 + v else 87 + v
  }

  function Hex(d: seq<byte>): (r: seq<byte>)
    ensures |r| == 2 * |d|
    ensures forall i | 0 <= i < |r| :: IsLowerHex(r[i])
  {
    if d == [] then [] else [HexChar(d[0] / 16), HexChar(d[0] % 16)] + Hex(d[1..])
  }
}
