/** Bounded framing of newline-delimited requests over a buffered byte stream. */
module Framing {
  import opened Bytes
  import opened Wrappers

  const LF: Byte := 0x0A
  const CR: Byte := 0x0D
  const MAX_REQUEST_BYTES: nat := 0x10_0000

  datatype InputLine = Eof | Line(text: Text) | TooLong | InvalidUtf8

  // -- what a byte stream means --------------------------------------------------------

  /** Length of the first physical line, its line feed included. */
  function LineLength(s: seq<Byte>): (n: nat)
    ensures n <= |s|
    ensures s != [] ==> n > 0
  {
    if s == [] then 0 else if s[0] == LF then 1 else 1 + LineLength(s[1..])
  }

  function PhysicalLines(s: seq<Byte>): seq<seq<Byte>> {
    if s == [] then [] else [s[..LineLength(s)]] + PhysicalLines(s[LineLength(s)..])
  }

  /** Drops one line feed, then one carriage return. */
  function Stripped(line: seq<Byte>): seq<Byte> {
    var noLf := if line != [] && line[|line| - 1] == LF then line[..|line| - 1] else line;
    if noLf != [] && noLf[|noLf| - 1] == CR then noLf[..|noLf| - 1] else noLf
  }

  function Framed(line: seq<Byte>): (r: InputLine)
    ensures r.TooLong? <==> |line| > MAX_REQUEST_BYTES
    ensures r.Eof? <==> line == []
  {
    if line == [] then Eof
    else if |line| > MAX_REQUEST_BYTES then TooLong
    else if ValidUtf8(Stripped(line)) then Line(Stripped(line))
    else InvalidUtf8
  }

  /** A line of more than 1048576 bytes, its line feed included, is too long; any other is
      read as its text without one line feed and then one carriage return. */
  lemma FramedMeans(line: seq<Byte>, text: Text)
    ensures Framed(line).TooLong? <==> |line| > 1048576
    ensures Framed(line) == Line(text) ==>
      line == text || line == text + [0x0A] || line == text + [0x0D] || line == text + [0x0D, 0x0A]
  {
  }

  /** One result per physical line, in order. */
  function Frames(s: seq<Byte>): (results: seq<InputLine>) {
    if s == [] then [] else [Framed(s[..LineLength(s)])] + Frames(s[LineLength(s)..])
  }

  lemma {:induction false} LineLengthSkip(s: seq<Byte>, n: nat)
    requires n <= |s| && LF !in s[..n]
    ensures LineLength(s) == n + LineLength(s[n..])
  {
    if n > 0 {
      assert s[0] == s[..n][0];
      assert s[1..][..n - 1] == s[..n][1..];
      LineLengthSkip(s[1..], n - 1);
      assert s[1..][n - 1..] == s[n..];
    } else {
      assert s[0..] == s;
    }
  }

  lemma LineLengthAt(s: seq<Byte>, i: nat)
    requires i < |s| && s[i] == LF && LF !in s[..i]
    ensures LineLength(s) == i + 1
  {
    LineLengthSkip(s, i);
  }

  /** A physical line is its content followed by at most one line feed, and lacks it only at
      the end of the stream. */
  lemma {:induction false} LineShape(s: seq<Byte>)
    requires s != []
    ensures LF !in s[..LineLength(s) - 1]
    ensures s[LineLength(s) - 1] == LF || LineLength(s) == |s|
  {
    if s[0] != LF && |s| > 1 {
      LineShape(s[1..]);
      assert s[..LineLength(s) - 1] == [s[0]] + s[1..][..LineLength(s[1..]) - 1];
    }
  }

  function Joined(lines: seq<seq<Byte>>): seq<Byte> {
    if lines == [] then [] else lines[0] + Joined(lines[1..])
  }

  /** Framing loses and invents no byte. */
  lemma {:induction false} LinesJoin(s: seq<Byte>)
    ensures Joined(PhysicalLines(s)) == s
  {
    if s == [] {
    } else {
      LinesJoin(s[LineLength(s)..]);
    }
  }

  ghost predicate WholeLine(line: seq<Byte>) {
    line != [] && LF !in line[..|line| - 1] && line[|line| - 1] == LF
  }

  /** Whole lines written one after the other are read back one by one: an over-long or
      malformed line never disturbs its neighbours. */
  lemma {:induction false} FramesOfLines(lines: seq<seq<Byte>>, rest: seq<Byte>)
    requires forall i :: 0 <= i < |lines| ==> WholeLine(lines[i])
    ensures Frames(Joined(lines) + rest) == seq(|lines|, i requires 0 <= i < |lines| => Framed(lines[i])) + Frames(rest)
  {
    if lines == [] {
      assert Joined(lines) + rest == rest;
    } else {
      var line, tail := lines[0], Joined(lines[1..]) + rest;
      assert Joined(lines) + rest == line + tail;
      LineOfAppend(line, tail);
      FramesOfLines(lines[1..], rest);
    }
  }

  lemma LineOfAppend(line: seq<Byte>, tail: seq<Byte>)
    requires WholeLine(line)
    ensures LineLength(line + tail) == |line|
    ensures (line + tail)[..|line|] == line && (line + tail)[|line|..] == tail
  {
    assert (line + tail)[..|line| - 1] == line[..|line| - 1];
    LineLengthAt(line + tail, |line| - 1);
  }

  /** A request of valid text without line breaks, written with either line ending and
      within the limit, is read back as that text. */
  lemma RequestRoundTrip(text: Text, crlf: bool)
    requires LF !in text && (text == [] || text[|text| - 1] != CR)
    requires |text| + (if crlf then 2 else 1) <= MAX_REQUEST_BYTES
    ensures var line := text + (if crlf then [CR, LF] else [LF]); WholeLine(line) && Framed(line) == Line(text)
  {
    var line := text + (if crlf then [CR, LF] else [LF]);
    assert line[..|line| - 1] == text + (if crlf then [CR] else []);
    assert Stripped(line) == text by {
      if crlf {
        assert (text + [CR])[..|text|] == text;
      }
    }
  }

  // -- the reader ------------------------------------------------------------------------------

  function Concat(chunks: seq<seq<Byte>>): seq<Byte> {
    if chunks == [] then [] else chunks[0] + Concat(chunks[1..])
  }

  /** A buffered reader: what is in its buffer, and what the source will deliver, read by
      read. The sizes of those reads are arbitrary. */
  class Reader {
    var buffered: seq<Byte>
    var pending: seq<seq<Byte>>

    ghost predicate Valid()
      reads this
    {
      forall i :: 0 <= i < |pending| ==> pending[i] != []
    }

    ghost function Rest(): seq<Byte>
      reads this
    {
      buffered + Concat(pending)
    }

    constructor (chunks: seq<seq<Byte>>)
      requires forall i :: 0 <= i < |chunks| ==> chunks[i] != []
      ensures Valid() && Rest() == Concat(chunks)
    {
      buffered, pending := [], chunks;
    }

    /** Reads from the source only when the buffer is empty. */
    method FillBuf() returns (buf: seq<Byte>)
      requires Valid()
      modifies this
      ensures Valid() && Rest() == old(Rest())
      ensures buf == buffered && buf <= Rest() && (buf == [] <==> Rest() == [])
    {
      if buffered == [] && pending != [] {
        buffered, pending := pending[0], pending[1..];
      }
      buf := buffered;
    }

    method Consume(n: nat)
      requires Valid() && n <= |buffered|
      modifies this
      ensures Valid() && Rest() == old(Rest())[n..]
    {
      buffered := buffered[n..];
    }

    /** The length through the first line feed of the buffer, if there is one. */
    method FindNewline(buf: seq<Byte>) returns (end: Option<nat>)
      ensures end.None? ==> LF !in buf
      ensures end.Some? ==> 0 < end.value <= |buf| && end.value == LineLength(buf) && LF in buf
    {
      for i := 0 to |buf|
        invariant LF !in buf[..i]
      {
        if buf[i] == LF {
          LineLengthAt(buf, i);
          return Some(i + 1);
        }
      }
      return None;
    }

    /** Skips through the next line feed, or to the end of the stream. */
    method DiscardUntilNewline()
      requires Valid()
      modifies this
      ensures Valid() && Rest() == old(Rest())[LineLength(old(Rest()))..]
    {
      hide LineLength;
      ghost var s: seq<Byte> := Rest();
      ghost var skipped: nat := 0;
      while true
        invariant Valid() && skipped <= |s| && Rest() == s[skipped..] && LF !in s[..skipped]
        decreases |Rest()|
      {
        LineLengthSkip(s, skipped);
        var buf := FillBuf();
        if buf == [] {
          return;
        }
        var end := FindNewline(buf);
        LineLengthOfPart(Rest(), |buf|);
        if end.Some? {
          Consume(end.value);
          return;
        }
        NoNewlineYet(s, skipped, |buf|);
        Consume(|buf|);
        skipped := skipped + |buf|;
      }
    }

    /** `read_until` behind a byte limit. */
    method ReadUntilNewline(limit: nat) returns (bytes: seq<Byte>)
      requires Valid()
      modifies this
      ensures Valid()
      ensures |bytes| == if LineLength(old(Rest())) < limit then LineLength(old(Rest())) else limit
      ensures bytes == old(Rest())[..|bytes|] && Rest() == old(Rest())[|bytes|..]
    {
      hide LineLength, Concat, Reader.Rest, Split;
      ghost var s := Rest();
      bytes := [];
      var left: nat := limit;
      SplitStart(s);
      while left > 0
        invariant Valid() && |bytes| + left == limit && Split(s, bytes, Rest())
        decreases left
      {
        var buf := FillBuf();
        if buf == [] {
          SplitEnd(s, bytes);
          return;
        }
        var available := if |buf| < left then buf else buf[..left];
        ghost var rest := Rest();
        assert available <= rest;
        var end := FindNewline(available);
        var taken := if end.Some? then end.value else |available|;
        SplitStep(s, bytes, rest, available, taken);
        bytes := bytes + available[..taken];
        Consume(taken);
        if end.Some? {
          return;
        }
        left := left - taken;
      }
      SplitFull(s, bytes, Rest());
    }

    /** One physical line, however the source chops the stream up: the result depends only
        on the line, and the reader is left at the start of the next one. */
    method ReadInputLine() returns (line: InputLine)
      requires Valid()
      modifies this
      ensures Valid()
      ensures line == Framed(old(Rest())[..LineLength(old(Rest()))])
      ensures Rest() == old(Rest())[LineLength(old(Rest()))..]
    {
      ghost var s := Rest();
      var bytes := ReadUntilNewline(MAX_REQUEST_BYTES + 1);
      if bytes == [] {
        return Eof;
      }
      LineShape(s);
      if |bytes| > MAX_REQUEST_BYTES {
        if bytes[|bytes| - 1] != LF {
          CutLine(s, |bytes|);
          DiscardUntilNewline();
        }
        return TooLong;
      }
      if bytes[|bytes| - 1] == LF {
        bytes := bytes[..|bytes| - 1];
      }
      if bytes != [] && bytes[|bytes| - 1] == CR {
        bytes := bytes[..|bytes| - 1];
      }
      line := if ValidUtf8(bytes) then Line(bytes) else InvalidUtf8;
    }

    /** The request loop: results until the end of the stream. */
    method ReadAll() returns (results: seq<InputLine>)
      requires Valid()
      modifies this
      ensures Valid() && Rest() == [] && results == Frames(old(Rest()))
    {
      hide LineLength, Frames, Framed, FramesSoFar, Concat, Reader.Rest;
      ghost var s := Rest();
      results := [];
      FramesStart(s);
      while true
        invariant Valid() && FramesSoFar(s, results, Rest())
        decreases |Rest()|
      {
        ghost var rest := Rest();
        FramesStep(s, results, rest);
        var line := ReadInputLine();
        if line.Eof? {
          return;
        }
        results := results + [line];
      }
    }
  }

  /** `results` are the frames of what has been read of `s`; `rest` is still to come. */
  ghost predicate FramesSoFar(s: seq<Byte>, results: seq<InputLine>, rest: seq<Byte>) {
    Frames(s) == results + Frames(rest)
  }

  lemma FramesStart(s: seq<Byte>)
    ensures FramesSoFar(s, [], s)
  {
    assert Frames(s) == [] + Frames(s);
  }

  lemma FramesStep(s: seq<Byte>, results: seq<InputLine>, rest: seq<Byte>)
    requires FramesSoFar(s, results, rest)
    ensures var line := Framed(rest[..LineLength(rest)]);
      && (line.Eof? ==> rest == [] && rest[LineLength(rest)..] == [] && results == Frames(s))
      && (!line.Eof? ==> |rest[LineLength(rest)..]| < |rest| && FramesSoFar(s, results + [line], rest[LineLength(rest)..]))
  {
    if rest == [] {
      assert results + [] == results;
    } else {
      var line, after := Framed(rest[..LineLength(rest)]), rest[LineLength(rest)..];
      assert results + ([line] + Frames(after)) == (results + [line]) + Frames(after);
    }
  }

  /** `bytes` is the part of the first line read so far, `rest` what follows it. */
  ghost predicate Split(s: seq<Byte>, bytes: seq<Byte>, rest: seq<Byte>) {
    s == bytes + rest && LF !in bytes && LineLength(s) == |bytes| + LineLength(rest)
  }

  lemma SplitStart(s: seq<Byte>)
    ensures Split(s, [], s)
  {
    assert s == [] + s;
  }

  lemma SplitEnd(s: seq<Byte>, bytes: seq<Byte>)
    requires Split(s, bytes, [])
    ensures LineLength(s) == |bytes| == |s| && bytes == s && s[|bytes|..] == []
  {
  }

  lemma SplitFull(s: seq<Byte>, bytes: seq<Byte>, rest: seq<Byte>)
    requires Split(s, bytes, rest)
    ensures |bytes| <= LineLength(s) && bytes == s[..|bytes|] && rest == s[|bytes|..]
  {
  }

  /** Reading on to the end of the available bytes, or through a line feed among them. */
  lemma SplitStep(s: seq<Byte>, bytes: seq<Byte>, rest: seq<Byte>, available: seq<Byte>, taken: nat)
    requires Split(s, bytes, rest) && available <= rest
    requires if LF in available then taken == LineLength(available) else taken == |available|
    ensures LF !in available ==> Split(s, bytes + available[..taken], rest[taken..])
    ensures LF in available ==>
      |bytes| + taken == LineLength(s) && bytes + available[..taken] == s[..|bytes| + taken] && rest[taken..] == s[|bytes| + taken..]
  {
    hide LineLength;
    LineLengthOfPart(rest, |available|);
    assert rest[..|available|] == available;
    var chunk, after := available[..taken], rest[taken..];
    assert rest == chunk + after;
    Regroup(bytes, chunk, after);
    if LF !in available {
      assert chunk == available;
    }
  }

  lemma Regroup(a: seq<Byte>, b: seq<Byte>, c: seq<Byte>)
    ensures a + (b + c) == (a + b) + c
    ensures (a + (b + c))[..|a| + |b|] == a + b && (a + (b + c))[|a| + |b|..] == c
  {
  }

  /** A line feed within a prefix ends the line there. */
  lemma {:induction false} LineLengthOfPart(s: seq<Byte>, n: nat)
    requires n <= |s|
    ensures LF in s[..n] ==> LineLength(s) == LineLength(s[..n])
    ensures LF !in s[..n] ==> LineLength(s) == n + LineLength(s[n..])
  {
    if LF !in s[..n] {
      LineLengthSkip(s, n);
    } else {
      assert s[0] == s[..n][0];
      if s[0] != LF {
        assert s[1..][..n - 1] == s[..n][1..];
        LineLengthOfPart(s[1..], n - 1);
      }
    }
  }

  lemma NoNewlineYet(s: seq<Byte>, a: nat, n: nat)
    requires a + n <= |s| && LF !in s[..a] && LF !in s[a..][..n]
    ensures LF !in s[..a + n] && s[a..][n..] == s[a + n..]
  {
    assert s[..a + n] == s[..a] + s[a..][..n];
  }

  /** A line cut at a byte that is not a line feed continues after the cut. */
  lemma CutLine(s: seq<Byte>, n: nat)
    requires 0 < n <= LineLength(s) && s[n - 1] != LF
    ensures LineLength(s) == n + LineLength(s[n..])
    ensures s[n..][LineLength(s[n..])..] == s[LineLength(s)..]
  {
    LineShape(s);
    assert forall i :: 0 <= i < n ==> s[..n][i] != LF by {
      assert forall i :: 0 <= i < LineLength(s) - 1 ==> s[..LineLength(s) - 1][i] == s[i];
    }
    LineLengthSkip(s, n);
  }
}
