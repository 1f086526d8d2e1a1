/** Bytes, little-endian integers and the guarded readers every persisted format uses.
    A writer takes the bytes that follow it, so that a reader run on its output gives
    back the value and exactly those bytes. */
module Bytes {
  import opened Wrappers
  import Digits

  type Byte = x: int | 0 <= x < 256
  type U32 = x: int | 0 <= x < 0x1_0000_0000
  type U64 = x: int | 0 <= x < 0x1_0000_0000_0000_0000

  datatype IoError = UnexpectedEof | InvalidData

  type Input = seq<Byte>
  type Read<T> = Result<(T, Input), IoError>

  // -- fixed-width integers --------------------------------------------------------

  function LittleEndian(n: nat, width: nat): (b: seq<Byte>)
    ensures |b| == width
  {
    if width == 0 then [] else [n % 256] + LittleEndian(n / 256, width - 1)
  }

  function FromLittleEndian(b: seq<Byte>): nat {
    if b == [] then 0 else b[0] + 256 * FromLittleEndian(b[1..])
  }

  function Pow256(k: nat): nat {
    if k == 0 then 1 else 256 * Pow256(k - 1)
  }

  lemma {:induction false} LittleEndianRoundTrip(n: nat, width: nat)
    requires n < Pow256(width)
    ensures FromLittleEndian(LittleEndian(n, width)) == n
  {
    if width == 0 {
    } else {
      LittleEndianRoundTrip(n / 256, width - 1);
      assert LittleEndian(n, width)[1..] == LittleEndian(n / 256, width - 1);
    }
  }

  lemma {:induction false} FromLittleEndianRoundTrip(b: seq<Byte>)
    ensures FromLittleEndian(b) < Pow256(|b|)
    ensures LittleEndian(FromLittleEndian(b), |b|) == b
  {
    if b == [] {
    } else {
      FromLittleEndianRoundTrip(b[1..]);
      LowByte(b[0], FromLittleEndian(b[1..]));
      assert b == [b[0]] + b[1..];
    }
  }

  /** Byte `i` holds the `i`-th digit to base 256, least significant first. */
  lemma {:induction false} LittleEndianAt(n: nat, width: nat, i: nat)
    requires i < width
    ensures Pow256(i) > 0 && LittleEndian(n, width)[i] == n / Pow256(i) % 256
  {
    if i > 0 {
      LittleEndianAt(n / 256, width - 1, i - 1);
      Digits.DivideTwice(n, 256, Pow256(i - 1));
    }
  }

  lemma LowByte(x: Byte, n: nat)
    ensures (x + 256 * n) % 256 == x && (x + 256 * n) / 256 == n
  {
  }

  lemma Widths()
    ensures Pow256(4) == 0x1_0000_0000 && Pow256(8) == 0x1_0000_0000_0000_0000
  {
    assert Pow256(4) == 0x1_0000_0000;
    assert Pow256(8) == 256 * 256 * 256 * 256 * Pow256(4);
  }

  function WriteU8(n: Byte, rest: Input): Input {
    [n] + rest
  }

  function WriteU32(n: U32, rest: Input): Input {
    LittleEndian(n, 4) + rest
  }

  function WriteU64(n: U64, rest: Input): Input {
    LittleEndian(n, 8) + rest
  }

  /** One byte; a missing one is a guarded format error, not an end of file. */
  function ReadU8(r: Input): Read<Byte> {
    if |r| < 1 then Err(InvalidData) else Ok((r[0], r[1..]))
  }

  function ReadU32(r: Input): Read<U32> {
    if |r| < 4 then Err(UnexpectedEof)
    else
      FromLittleEndianRoundTrip(r[..4]);
      Widths();
      Ok((FromLittleEndian(r[..4]), r[4..]))
  }

  function ReadU64(r: Input): Read<U64> {
    if |r| < 8 then Err(UnexpectedEof)
    else
      FromLittleEndianRoundTrip(r[..8]);
      Widths();
      Ok((FromLittleEndian(r[..8]), r[8..]))
  }

  lemma U8RoundTrip(n: Byte, rest: Input)
    ensures ReadU8(WriteU8(n, rest)) == Ok((n, rest))
  {
    assert ([n] + rest)[1..] == rest;
  }

  lemma U8Exact(r: Input)
    ensures ReadU8(r).Ok? ==> r == WriteU8(ReadU8(r).value.0, ReadU8(r).value.1)
  {
  }

  lemma U32RoundTrip(n: U32, rest: Input)
    ensures ReadU32(WriteU32(n, rest)) == Ok((n, rest))
  {
    Widths();
    LittleEndianRoundTrip(n, 4);
    var b := LittleEndian(n, 4);
    assert (b + rest)[..4] == b && (b + rest)[4..] == rest;
  }

  lemma U32Exact(r: Input)
    ensures ReadU32(r).Ok? ==> r == WriteU32(ReadU32(r).value.0, ReadU32(r).value.1)
  {
    if |r| >= 4 {
      FromLittleEndianRoundTrip(r[..4]);
      assert r == r[..4] + r[4..];
    }
  }

  lemma U64RoundTrip(n: U64, rest: Input)
    ensures ReadU64(WriteU64(n, rest)) == Ok((n, rest))
  {
    Widths();
    LittleEndianRoundTrip(n, 8);
    var b := LittleEndian(n, 8);
    assert (b + rest)[..8] == b && (b + rest)[8..] == rest;
  }

  lemma U64Exact(r: Input)
    ensures ReadU64(r).Ok? ==> r == WriteU64(ReadU64(r).value.0, ReadU64(r).value.1)
  {
    if |r| >= 8 {
      FromLittleEndianRoundTrip(r[..8]);
      assert r == r[..8] + r[8..];
    }
  }

  // -- guards ------------------------------------------------------------------------

  /** A declared count is refused when its smallest encoding cannot fit what is left. */
  predicate CountFits(count: nat, minRecordBytes: nat, remaining: nat) {
    count * minRecordBytes <= remaining
  }

  // -- length-prefixed bytes -----------------------------------------------------------

  /** The length is cast to 32 bits, silently losing anything above. */
  function WriteLpBytes(b: seq<Byte>, rest: Input): Input {
    WriteU32(|b| % 0x1_0000_0000, b + rest)
  }

  function ReadLpBytes(r: Input): Read<seq<Byte>> {
    var (n, r) :- ReadU32(r);
    if !CountFits(n, 1, |r|) then Err(InvalidData) else Ok((r[..n], r[n..]))
  }

  lemma LpBytesRoundTrip(b: seq<Byte>, rest: Input)
    requires |b| < 0x1_0000_0000
    ensures ReadLpBytes(WriteLpBytes(b, rest)) == Ok((b, rest))
  {
    U32RoundTrip(|b|, b + rest);
    assert (b + rest)[..|b|] == b && (b + rest)[|b|..] == rest;
  }

  lemma LpBytesExact(r: Input)
    ensures ReadLpBytes(r).Ok? ==>
      |ReadLpBytes(r).value.0| < 0x1_0000_0000 && r == WriteLpBytes(ReadLpBytes(r).value.0, ReadLpBytes(r).value.1)
  {
    U32Exact(r);
    if ReadLpBytes(r).Ok? {
      var (n, tail) := ReadU32(r).value;
      assert tail == tail[..n] + tail[n..];
    }
  }

  // -- UTF-8 (section 4 of RFC 3629) ------------------------------------------------

  predicate Tail(b: Byte) {
    0x80 <= b <= 0xBF
  }

  /** Length of the well-formed character `s` starts with, 0 if there is none. */
  function CharLength(s: seq<Byte>): (n: nat)
    ensures n <= |s|
  {
    if s == [] then 0
    else if s[0] <= 0x7F then 1
    else if |s| >= 2 && 0xC2 <= s[0] <= 0xDF && Tail(s[1]) then 2
    else if |s| >= 3 && ThreeBytes(s[0], s[1]) && Tail(s[2]) then 3
    else if |s| >= 4 && FourBytes(s[0], s[1]) && Tail(s[2]) && Tail(s[3]) then 4
    else 0
  }

  predicate ThreeBytes(a: Byte, b: Byte) {
    || (a == 0xE0 && 0xA0 <= b <= 0xBF)
    || (0xE1 <= a <= 0xEC && Tail(b))
    || (a == 0xED && 0x80 <= b <= 0x9F)
    || (0xEE <= a <= 0xEF && Tail(b))
  }

  predicate FourBytes(a: Byte, b: Byte) {
    || (a == 0xF0 && 0x90 <= b <= 0xBF)
    || (0xF1 <= a <= 0xF3 && Tail(b))
    || (a == 0xF4 && 0x80 <= b <= 0x8F)
  }

  predicate ValidUtf8(s: seq<Byte>) {
    s == [] || (CharLength(s) > 0 && ValidUtf8(s[CharLength(s)..]))
  }

  /** Length of the white-space character `s` starts with, 0 if it starts with another. */
  function SpaceLength(s: seq<Byte>): (n: nat)
    ensures n <= |s|
  {
    if |s| >= 1 && (0x09 <= s[0] <= 0x0D || s[0] == 0x20) then 1
    else if |s| >= 2 && s[0] == 0xC2 && (s[1] == 0x85 || s[1] == 0xA0) then 2
    else if |s| >= 3 && s[0] == 0xE1 && s[1] == 0x9A && s[2] == 0x80 then 3
    else if |s| >= 3 && s[0] == 0xE2 && s[1] == 0x80 && (0x80 <= s[2] <= 0x8A || s[2] == 0xA8 || s[2] == 0xA9 || s[2] == 0xAF) then 3
    else if |s| >= 3 && s[0] == 0xE2 && s[1] == 0x81 && s[2] == 0x9F then 3
    else if |s| >= 3 && s[0] == 0xE3 && s[1] == 0x80 && s[2] == 0x80 then 3
    else 0
  }

  /** `trim().is_empty()`: nothing but Unicode white space. */
  predicate Blank(s: seq<Byte>) {
    s == [] || (SpaceLength(s) > 0 && Blank(s[SpaceLength(s)..]))
  }

  /** The bytes of a Rust string. */
  type Text = s: seq<Byte> | ValidUtf8(s)

  function ReadLpString(r: Input): Read<Text> {
    var (b, r) :- ReadLpBytes(r);
    if ValidUtf8(b) then Ok((b, r)) else Err(InvalidData)
  }

  lemma LpStringRoundTrip(s: Text, rest: Input)
    requires |s| < 0x1_0000_0000
    ensures ReadLpString(WriteLpBytes(s, rest)) == Ok((s, rest))
  {
    LpBytesRoundTrip(s, rest);
  }

  lemma LpStringExact(r: Input)
    ensures ReadLpString(r).Ok? ==>
      |ReadLpString(r).value.0| < 0x1_0000_0000 && r == WriteLpBytes(ReadLpString(r).value.0, ReadLpString(r).value.1)
  {
    LpBytesExact(r);
  }

  // -- flags and optional values -------------------------------------------------------

  function ReadFlag(r: Input): Read<bool> {
    var (b, r) :- ReadU8(r);
    if b == 0 then Ok((false, r)) else if b == 1 then Ok((true, r)) else Err(InvalidData)
  }

  function WriteOptU64(v: Option<U64>, rest: Input): Input {
    match v
    case Some(n) => WriteU8(1, WriteU64(n, rest))
    case None => WriteU8(0, rest)
  }

  function ReadOptU64(r: Input): Read<Option<U64>> {
    var (present, r) :- ReadFlag(r);
    if !present then Ok((None, r))
    else
      var (n, r) :- ReadU64(r);
      Ok((Some(n), r))
  }

  lemma OptU64RoundTrip(v: Option<U64>, rest: Input)
    ensures ReadOptU64(WriteOptU64(v, rest)) == Ok((v, rest))
  {
    match v
    case Some(n) =>
      U8RoundTrip(1, WriteU64(n, rest));
      U64RoundTrip(n, rest);
    case None =>
      U8RoundTrip(0, rest);
  }

  lemma OptU64Exact(r: Input)
    ensures ReadOptU64(r).Ok? ==> r == WriteOptU64(ReadOptU64(r).value.0, ReadOptU64(r).value.1)
  {
    U8Exact(r);
    if ReadU8(r).Ok? {
      U64Exact(ReadU8(r).value.1);
    }
  }

  function WriteOptText(v: Option<Text>, rest: Input): Input {
    match v
    case Some(s) => WriteU8(1, WriteLpBytes(s, rest))
    case None => WriteU8(0, rest)
  }

  function ReadOptText(r: Input): Read<Option<Text>> {
    var (present, r) :- ReadFlag(r);
    if !present then Ok((None, r))
    else
      var (s, r) :- ReadLpString(r);
      Ok((Some(s), r))
  }

  lemma OptTextRoundTrip(v: Option<Text>, rest: Input)
    requires v.Some? ==> |v.value| < 0x1_0000_0000
    ensures ReadOptText(WriteOptText(v, rest)) == Ok((v, rest))
  {
    match v
    case Some(s) =>
      U8RoundTrip(1, WriteLpBytes(s, rest));
      LpStringRoundTrip(s, rest);
    case None =>
      U8RoundTrip(0, rest);
  }

  lemma OptTextExact(r: Input)
    ensures ReadOptText(r).Ok? ==>
      && r == WriteOptText(ReadOptText(r).value.0, ReadOptText(r).value.1)
      && (ReadOptText(r).value.0.Some? ==> |ReadOptText(r).value.0.value| < 0x1_0000_0000)
  {
    U8Exact(r);
    if ReadU8(r).Ok? {
      LpStringExact(ReadU8(r).value.1);
    }
  }
}
