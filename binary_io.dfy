/**
 * The byte formats of `System.IO.BinaryWriter` / `BinaryReader` that the manifest uses:
 * 7-bit encoded lengths, little-endian 32-bit integers, and length-prefixed UTF-8 strings.
 * The `...At` functions say what a read at a position yields; the two classes are the streams.
 */
module BinaryIO {
  import opened Wrappers

  newtype byte = x: int | 0 <= x < 256

  const MaxInt32: int := 0x7FFF_FFFF
  const MinInt32: int := -0x8000_0000
  const TwoTo32: int := 0x1_0000_0000

  // ---------------------------------------------------------------------------
  // 7-bit encoded integers

  /** `Write7BitEncodedInt`: seven bits per byte, low group first, high bit set on all but the last. */
  function Encode7Bit(n: nat): (r: seq<byte>)
    ensures |r| >= 1
    decreases n
  {
    if n < 128 then [n as byte] else [(n % 128 + 128) as byte] + Encode7Bit(n / 128)
  }

  /** Values that fit in the groups still allowed once `k` bytes have been read. */
  function Bound7(k: nat): nat
    requires k <= 4
  {
    if k == 0 then 0x1_0000_0000 else if k == 1 then 0x200_0000 else if k == 2 then 0x4_0000
    else if k == 3 then 0x800 else 16
  }

  /** `Read7BitEncodedInt` from byte `k` on: at most five bytes, and the fifth must not exceed 15. */
  function Read7BitFrom(data: seq<byte>, pos: nat, k: nat): (r: Result<(nat, nat), Exception>)
    requires k <= 4
    ensures r.Ok? ==> pos < r.value.1 <= |data| && r.value.0 < Bound7(k)
    decreases 4 - k
  {
    if pos >= |data| then Err(EndOfStream)
    else
      var b := data[pos] as nat;
      if k == 4 then (if b > 15 then Err(FormatError) else Ok((b, pos + 1)))
      else if b < 128 then Ok((b, pos + 1))
      else match Read7BitFrom(data, pos + 1, k + 1)
        case Err(e) => Err(e)
        case Ok((v, next)) => Ok((b - 128 + 128 * v, next))
  }

  /** The value read at `pos` as a signed 32-bit integer, and the position after it. */
  function Int7BitAt(data: seq<byte>, pos: nat): (r: Result<(int, nat), Exception>)
    ensures r.Ok? ==> pos < r.value.1 <= |data| && MinInt32 <= r.value.0 <= MaxInt32
  {
    match Read7BitFrom(data, pos, 0)
    case Err(e) => Err(e)
    case Ok((v, next)) => Ok((if v > MaxInt32 then v - TwoTo32 else v, next))
  }

  lemma {:induction false} Read7BitOfEncoded(data: seq<byte>, pos: nat, n: nat, k: nat)
    requires k <= 4 && n < Bound7(k)
    requires pos + |Encode7Bit(n)| <= |data| && data[pos..pos + |Encode7Bit(n)|] == Encode7Bit(n)
    ensures Read7BitFrom(data, pos, k) == Ok((n, pos + |Encode7Bit(n)|))
    decreases n
  {
    var e := Encode7Bit(n);
    assert data[pos] == e[0];
    if n >= 128 {
      assert k < 4;
      var tail := Encode7Bit(n / 128);
      assert data[pos + 1..pos + 1 + |tail|] == e[1..] == tail;
      Read7BitOfEncoded(data, pos + 1, n / 128, k + 1);
    }
  }

  // ---------------------------------------------------------------------------
  // 32-bit integers

  /** `Write(int)`: four bytes, least significant first, two's complement. */
  function EncodeInt32(n: int): (r: seq<byte>)
    ensures |r| == 4
  {
    var u := n % TwoTo32;
    [(u % 256) as byte, (u / 256 % 256) as byte, (u / 256 / 256 % 256) as byte, (u / 256 / 256 / 256) as byte]
  }

  /** `ReadInt32`. */
  function Int32At(data: seq<byte>, pos: nat): (r: Result<(int, nat), Exception>)
    ensures r.Ok? ==> r.value.1 == pos + 4 <= |data| && MinInt32 <= r.value.0 <= MaxInt32
  {
    if pos + 4 > |data| then Err(EndOfStream)
    else
      var u := LittleEndian32(data[pos], data[pos + 1], data[pos + 2], data[pos + 3]);
      Ok((if u > MaxInt32 then u - TwoTo32 else u, pos + 4))
  }

  function LittleEndian32(b0: byte, b1: byte, b2: byte, b3: byte): (u: nat)
    ensures u < TwoTo32
  {
    b0 as int + 256 * (b1 as int + 256 * (b2 as int + 256 * b3 as int))
  }

  lemma LittleEndianOfEncoded(n: int)
    ensures var e := EncodeInt32(n); LittleEndian32(e[0], e[1], e[2], e[3]) == n % TwoTo32
  {
    var u := n % TwoTo32;
    var q1 := u / 256;
    var q2 := q1 / 256;
    assert u == 256 * q1 + u % 256;
    assert q1 == 256 * q2 + q1 % 256;
    assert q2 == 256 * (q2 / 256) + q2 % 256;
    assert q2 / 256 < 256;
  }

  lemma Int32OfEncoded(data: seq<byte>, pos: nat, n: int)
    requires MinInt32 <= n <= MaxInt32
    requires pos + 4 <= |data| && data[pos..pos + 4] == EncodeInt32(n)
    ensures Int32At(data, pos) == Ok((n, pos + 4))
  {
    var e := EncodeInt32(n);
    assert data[pos] == e[0] && data[pos + 1] == e[1] && data[pos + 2] == e[2] && data[pos + 3] == e[3];
    LittleEndianOfEncoded(n);
  }

  // ---------------------------------------------------------------------------
  // UTF-8

  predicate IsContinuation(b: byte) {
    0x80 <= b < 0xC0
  }

  /** The UTF-8 bytes of one scalar value. */
  function Utf8EncodeChar(c: char): (r: seq<byte>)
    ensures 1 <= |r| <= 4
  {
    var cp := c as int;
    if cp < 0x80 then [cp as byte]
    else if cp < 0x800 then [(0xC0 + cp / 64) as byte, (0x80 + cp % 64) as byte]
    else if cp < 0x10000 then
      [(0xE0 + cp / 4096) as byte, (0x80 + cp / 64 % 64) as byte, (0x80 + cp % 64) as byte]
    else
      [(0xF0 + cp / 262144) as byte, (0x80 + cp / 4096 % 64) as byte,
       (0x80 + cp / 64 % 64) as byte, (0x80 + cp % 64) as byte]
  }

  /** The UTF-8 bytes of a string, one scalar value after another. */
  function Utf8Encode(s: string): (r: seq<byte>)
    ensures |s| <= |r| <= 4 * |s|
  {
    Utf8EncodePrefix(s, |s|)
  }

  /** The UTF-8 bytes of the first `n` characters of `s`. */
  function Utf8EncodePrefix(s: string, n: nat): (r: seq<byte>)
    requires n <= |s|
    ensures n <= |r| <= 4 * n
  {
    if n == 0 then [] else Utf8EncodePrefix(s, n - 1) + Utf8EncodeChar(s[n - 1])
  }

  /** Encoding a prefix starts with the first character's bytes. */
  lemma {:induction false} Utf8EncodePrefixHead(s: string, n: nat)
    requires 1 <= n <= |s|
    ensures Utf8EncodePrefix(s, n) == Utf8EncodeChar(s[0]) + Utf8EncodePrefix(s[1..], n - 1)
  {
    if n > 1 {
      Utf8EncodePrefixHead(s, n - 1);
      assert s[1..][n - 2] == s[n - 1];
      Associative(Utf8EncodeChar(s[0]), Utf8EncodePrefix(s[1..], n - 2), Utf8EncodeChar(s[n - 1]));
    }
  }

  lemma Associative<T>(a: seq<T>, b: seq<T>, c: seq<T>)
    ensures a + b + c == a + (b + c)
  {
  }

  /** The scalar value the bytes start with and its width; `None` for an ill-formed sequence. */
  function Utf8DecodeFirst(b: seq<byte>): (r: Option<(char, nat)>)
    requires |b| > 0
    ensures r.Some? ==> 1 <= r.value.1 <= |b|
  {
    var b0 := b[0] as int;
    if b0 < 0x80 then Some((b0 as char, 1))
    else if 0xC2 <= b0 < 0xE0 && |b| >= 2 && IsContinuation(b[1]) then
      Some((((b0 - 0xC0) * 64 + (b[1] as int - 0x80)) as char, 2))
    else if 0xE0 <= b0 < 0xF0 && |b| >= 3 && IsContinuation(b[1]) && IsContinuation(b[2]) then
      var cp := (b0 - 0xE0) * 4096 + (b[1] as int - 0x80) * 64 + (b[2] as int - 0x80);
      if cp < 0x800 || (0xD800 <= cp < 0xE000) then None else Some((cp as char, 3))
    else if 0xF0 <= b0 < 0xF5 && |b| >= 4 && IsContinuation(b[1]) && IsContinuation(b[2]) && IsContinuation(b[3]) then
      var cp := (b0 - 0xF0) * 262144 + (b[1] as int - 0x80) * 4096 + (b[2] as int - 0x80) * 64 + (b[3] as int - 0x80);
      if cp < 0x10000 || cp > 0x10FFFF then None else Some((cp as char, 4))
    else None
  }

  function Utf8Decode(b: seq<byte>): Option<string>
    decreases |b|
  {
    if b == [] then Some([])
    else match Utf8DecodeFirst(b)
      case None => None
      case Some((c, w)) =>
        match Utf8Decode(b[w..])
        case None => None
        case Some(rest) => Some([c] + rest)
  }

  lemma Utf8DecodeFirstOfEncoded(c: char, rest: seq<byte>)
    ensures Utf8DecodeFirst(Utf8EncodeChar(c) + rest) == Some((c, |Utf8EncodeChar(c)|))
  {
    var cp := c as int;
    if cp < 0x80 {
      assert (Utf8EncodeChar(c) + rest)[0] as int == cp;
    } else if cp < 0x800 {
      DecodeFirstOfTwo(c, rest);
    } else if cp < 0x10000 {
      DecodeFirstOfThree(c, rest);
    } else {
      DecodeFirstOfFour(c, rest);
    }
  }

  lemma DecodeFirstOfTwo(c: char, rest: seq<byte>)
    requires 0x80 <= c as int < 0x800
    ensures Utf8DecodeFirst(Utf8EncodeChar(c) + rest) == Some((c, 2))
  {
    var cp := c as int;
    var b := Utf8EncodeChar(c) + rest;
    var x, y := cp / 64, cp % 64;
    assert b[0] as int == 0xC0 + x && b[1] as int == 0x80 + y;
    assert cp == x * 64 + y;
  }

  lemma DecodeFirstOfThree(c: char, rest: seq<byte>)
    requires 0x800 <= c as int < 0x10000
    ensures Utf8DecodeFirst(Utf8EncodeChar(c) + rest) == Some((c, 3))
  {
    var cp := c as int;
    var b := Utf8EncodeChar(c) + rest;
    var x, y, z := cp / 4096, cp / 64 % 64, cp % 64;
    assert b[0] as int == 0xE0 + x && b[1] as int == 0x80 + y && b[2] as int == 0x80 + z;
    assert cp == x * 4096 + y * 64 + z;
  }

  lemma DecodeFirstOfFour(c: char, rest: seq<byte>)
    requires 0x10000 <= c as int
    ensures Utf8DecodeFirst(Utf8EncodeChar(c) + rest) == Some((c, 4))
  {
    var cp := c as int;
    var b := Utf8EncodeChar(c) + rest;
    var q1 := cp / 64;
    var q2 := q1 / 64;
    var q3 := q2 / 64;
    assert cp == 64 * q1 + cp % 64;
    assert q1 == 64 * q2 + q1 % 64;
    assert q2 == 64 * q3 + q2 % 64;
    assert cp / 4096 == q2 && cp / 262144 == q3;
    assert b[0] as int == 0xF0 + q3 && b[1] as int == 0x80 + q2 % 64;
    assert b[2] as int == 0x80 + q1 % 64 && b[3] as int == 0x80 + cp % 64;
  }

  lemma {:induction false} Utf8RoundTrip(s: string)
    ensures Utf8Decode(Utf8Encode(s)) == Some(s)
  {
    if s != [] {
      var e := Utf8EncodeChar(s[0]);
      var tail := Utf8Encode(s[1..]);
      var b := Utf8Encode(s);
      Utf8EncodePrefixHead(s, |s|);
      assert b == e + tail;
      Utf8DecodeFirstOfEncoded(s[0], tail);
      assert b[|e|..] == tail;
      Utf8RoundTrip(s[1..]);
      assert Utf8Decode(b) == Some([s[0]] + s[1..]);
      assert [s[0]] + s[1..] == s;
    }
  }

  // ---------------------------------------------------------------------------
  // Strings

  /** `Write(string)`: the UTF-8 byte count, 7-bit encoded, then the bytes. */
  function EncodeString(s: string): (r: seq<byte>)
    ensures |r| >= 1
  {
    Encode7Bit(|Utf8Encode(s)|) + Utf8Encode(s)
  }

  /**
   * Strings short enough that their encoded byte count, at most four bytes per
   * character, fits in the `int` the reader takes back.
   */
  predicate Writable(s: string) {
    4 * |s| <= MaxInt32
  }

  /** `ReadString`: a negative length is an I/O error, a short stream an end-of-stream error. */
  function StringAt(data: seq<byte>, pos: nat): (r: Result<(string, nat), Exception>)
    ensures r.Ok? ==> pos < r.value.1 <= |data|
  {
    match Int7BitAt(data, pos)
    case Err(e) => Err(e)
    case Ok((len, p)) =>
      if len < 0 then Err(IOError)
      else if p + len > |data| then Err(EndOfStream)
      else match Utf8Decode(data[p..p + len])
        case None => Err(FormatError)
        case Some(s) => Ok((s, p + len))
  }

  /** Reading where a string was written gives the string back, and the position just past it. */
  lemma StringOfEncoded(data: seq<byte>, pos: nat, s: string)
    requires Writable(s)
    requires pos + |EncodeString(s)| <= |data| && data[pos..pos + |EncodeString(s)|] == EncodeString(s)
    ensures StringAt(data, pos) == Ok((s, pos + |EncodeString(s)|))
  {
    var u := Utf8Encode(s);
    var p := pos + |Encode7Bit(|u|)|;
    EncodedPieces(data, pos, s);
    Utf8RoundTrip(s);
    StringAtDecoded(data, pos, p, u, s);
  }

  /** Where a string was written, its length prefix reads back and its UTF-8 bytes follow. */
  lemma EncodedPieces(data: seq<byte>, pos: nat, s: string)
    requires Writable(s)
    requires pos + |EncodeString(s)| <= |data| && data[pos..pos + |EncodeString(s)|] == EncodeString(s)
    ensures var u := Utf8Encode(s); var p := pos + |Encode7Bit(|u|)|;
            Int7BitAt(data, pos) == Ok((|u|, p)) && p + |u| <= |data| && data[p..p + |u|] == u
  {
    var e := EncodeString(s);
    LengthPrefixOfEncoded(data, pos, s);
    SliceOfSlice(data, pos, |e|, |Encode7Bit(|Utf8Encode(s)|)|);
  }

  /** A length prefix followed by that many bytes that decode to `s` reads back as `s`. */
  lemma StringAtDecoded(data: seq<byte>, pos: nat, p: nat, u: seq<byte>, s: string)
    requires Int7BitAt(data, pos) == Ok((|u|, p)) && p + |u| <= |data|
    requires data[p..p + |u|] == u && Utf8Decode(u) == Some(s)
    ensures StringAt(data, pos) == Ok((s, p + |u|))
  {
  }

  /** The tail of a slice is the slice starting further on. */
  lemma SliceOfSlice(data: seq<byte>, pos: nat, len: nat, k: nat)
    requires k <= len && pos + len <= |data|
    ensures data[pos..pos + len][k..] == data[pos + k..pos + len]
  {
  }

  lemma LengthPrefixOfEncoded(data: seq<byte>, pos: nat, s: string)
    requires Writable(s)
    requires pos + |EncodeString(s)| <= |data| && data[pos..pos + |EncodeString(s)|] == EncodeString(s)
    ensures Int7BitAt(data, pos) == Ok((|Utf8Encode(s)|, pos + |Encode7Bit(|Utf8Encode(s)|)|))
  {
    var u := Utf8Encode(s);
    assert |u| <= 4 * |s| <= MaxInt32;
    var h := Encode7Bit(|u|);
    assert data[pos..pos + |h|] == h by {
      assert data[pos..pos + |h|] == data[pos..pos + |EncodeString(s)|][..|h|];
    }
    Read7BitOfEncoded(data, pos, |u|, 0);
  }

  // ---------------------------------------------------------------------------
  // The streams

  /** A `BinaryWriter` over a growing byte stream. */
  class BinaryWriter {
    var written: seq<byte>

    constructor ()
      ensures written == []
    {
      written := [];
    }

    method Write(s: string)
      modifies this
      ensures written == old(written) + EncodeString(s)
    {
      written := written + EncodeString(s);
    }

    method WriteInt32(n: int)
      requires MinInt32 <= n <= MaxInt32
      modifies this
      ensures written == old(written) + EncodeInt32(n)
    {
      written := written + EncodeInt32(n);
    }
  }

  /** A `BinaryReader` over a fixed byte stream; a failed read leaves the position unspecified. */
  class BinaryReader {
    const data: seq<byte>
    var position: nat

    constructor (data: seq<byte>)
      ensures this.data == data && position == 0
    {
      this.data := data;
      position := 0;
    }

    method ReadString() returns (r: Result<string, Exception>)
      modifies this
      ensures StringAt(data, old(position)).Ok? ==>
                r == Ok(StringAt(data, old(position)).value.0) && position == StringAt(data, old(position)).value.1
      ensures StringAt(data, old(position)).Err? ==> r == Err(StringAt(data, old(position)).error)
    {
      match StringAt(data, position)
      case Ok((s, next)) =>
        r := Ok(s);
        position := next;
      case Err(e) =>
        r := Err(e);
    }

    method ReadInt32() returns (r: Result<int, Exception>)
      modifies this
      ensures Int32At(data, old(position)).Ok? ==>
                r == Ok(Int32At(data, old(position)).value.0) && position == old(position) + 4
      ensures Int32At(data, old(position)).Err? ==> r == Err(Int32At(data, old(position)).error)
    {
      match Int32At(data, position)
      case Ok((n, next)) =>
        r := Ok(n);
        position := next;
      case Err(e) =>
        r := Err(e);
    }
  }
}
