/** UTF-8 by code points (section 3 of RFC 3629): the byte tests of `Bytes` accept exactly
    the encodings of sequences of Unicode scalar values, and call blank exactly the
    encodings of white space. */
module Utf8 {
  import opened Bytes

  ghost predicate Scalar(c: nat) {
    c <= 0x10FFFF && !(0xD800 <= c <= 0xDFFF)
  }

  /** The code points with the Unicode property White_Space. */
  ghost predicate White(c: nat) {
    || 0x09 <= c <= 0x0D || c == 0x20 || c == 0x85 || c == 0xA0 || c == 0x1680 || 0x2000 <= c <= 0x200A
    || c == 0x2028 || c == 0x2029 || c == 0x202F || c == 0x205F || c == 0x3000
  }

  /** The low six bits of `n` in a continuation byte. */
  ghost function Low(n: nat): (b: Byte)
    ensures b == 0x80 + n % 64 && Tail(b)
  {
    0x80 + n % 64
  }

  ghost function EncodeChar(c: nat): (b: seq<Byte>)
    requires Scalar(c)
    ensures b != []
  {
    if c < 0x80 then [c]
    else if c < 0x800 then [0xC0 + c / 64, Low(c)]
    else if c < 0x1_0000 then [0xE0 + c / 64 / 64, Low(c / 64), Low(c)]
    else [0xF0 + c / 64 / 64 / 64, Low(c / 64 / 64), Low(c / 64), Low(c)]
  }

  ghost predicate Scalars(cs: seq<nat>) {
    forall i :: 0 <= i < |cs| ==> Scalar(cs[i])
  }

  ghost predicate AllWhite(cs: seq<nat>) {
    forall i :: 0 <= i < |cs| ==> White(cs[i])
  }

  ghost function Encode(cs: seq<nat>): seq<Byte>
    requires Scalars(cs)
  {
    if cs == [] then [] else EncodeChar(cs[0]) + Encode(cs[1..])
  }

  /** A number continued by the six bits of a continuation byte. */
  ghost function Continued(high: nat, b: Byte): (n: nat)
    requires Tail(b)
    ensures n / 64 == high && Low(n) == b
    ensures 64 * high <= n < 64 * high + 64 && n == 64 * high + b - 0x80
  {
    64 * high + b - 0x80
  }

  /** The code point whose encoding `s` starts with, computed from its bits. */
  ghost function FirstChar(s: seq<Byte>): (c: nat)
    requires CharLength(s) > 0
    ensures Scalar(c) && EncodeChar(c) == s[..CharLength(s)]
  {
    var n := CharLength(s);
    if n == 1 then s[0] as int
    else if n == 2 then Continued(s[0] - 0xC0, s[1])
    else if n == 3 then Continued(Continued(s[0] - 0xE0, s[1]), s[2])
    else Continued(Continued(Continued(s[0] - 0xF0, s[1]), s[2]), s[3])
  }

  lemma CharOfEncoding(c: nat, rest: seq<Byte>)
    requires Scalar(c)
    ensures CharLength(EncodeChar(c) + rest) == |EncodeChar(c)|
    ensures (EncodeChar(c) + rest)[|EncodeChar(c)|..] == rest
  {
    LeadByte(c);
  }

  lemma SpaceOfEncoding(c: nat, rest: seq<Byte>)
    requires Scalar(c)
    ensures SpaceLength(EncodeChar(c) + rest) == if White(c) then |EncodeChar(c)| else 0
  {
    LeadByte(c);
  }

  lemma LeadByte(c: nat)
    requires Scalar(c)
    ensures var b := EncodeChar(c);
      && (c >= 0x80 ==> Tail(b[|b| - 1]))
      && (0x80 <= c < 0x800 ==> 0xC2 <= b[0] <= 0xDF)
      && (0x800 <= c < 0x1_0000 ==> ThreeBytes(b[0], b[1]))
      && (0x1_0000 <= c ==> FourBytes(b[0], b[1]) && Tail(b[2]))
  {
  }

  lemma {:induction false} EncodedIsValid(cs: seq<nat>)
    requires Scalars(cs)
    ensures ValidUtf8(Encode(cs)) && (Blank(Encode(cs)) <==> AllWhite(cs))
  {
    if cs != [] {
      CharOfEncoding(cs[0], Encode(cs[1..]));
      SpaceOfEncoding(cs[0], Encode(cs[1..]));
      EncodedIsValid(cs[1..]);
    }
  }

  lemma {:induction false} ValidIsEncoded(s: seq<Byte>) returns (cs: seq<nat>)
    requires ValidUtf8(s)
    ensures Scalars(cs) && Encode(cs) == s
  {
    if s == [] {
      cs := [];
    } else {
      var rest := ValidIsEncoded(s[CharLength(s)..]);
      cs := [FirstChar(s)] + rest;
      assert cs[1..] == rest;
    }
  }

  /** Bytes are text exactly when they encode some sequence of scalar values. */
  lemma ValidMeans(s: seq<Byte>)
    ensures ValidUtf8(s) <==> exists cs :: Scalars(cs) && Encode(cs) == s
  {
    if ValidUtf8(s) {
      var cs := ValidIsEncoded(s);
    }
    if cs :| Scalars(cs) && Encode(cs) == s {
      EncodedIsValid(cs);
    }
  }

  /** A text is blank exactly when all its code points are white space. */
  lemma BlankMeans(cs: seq<nat>)
    requires Scalars(cs)
    ensures Blank(Encode(cs)) <==> AllWhite(cs)
  {
    EncodedIsValid(cs);
  }
}
