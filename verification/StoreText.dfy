/** The text forms of the generation store: directory names, CURRENT and MANIFEST. */
module StoreText {
  import opened Wrappers
  import Digits

  const MAX_U64: nat := 0xFFFF_FFFF_FFFF_FFFF
  const MAX_FINGERPRINT_BYTES: nat := 1024
  const MAX_CURRENT_BYTES: nat := 512
  const GENERATION_PREFIX := "generation-"
  const CURRENT_MAGIC := "OCTASOMA-HYBRID-CURRENT-V1"
  const MANIFEST_MAGIC_V1 := "OCTASOMA-HYBRID-GENERATION-V1"
  const MANIFEST_MAGIC_V2 := "OCTASOMA-HYBRID-GENERATION-V2"

  // -- decimal numbers -----------------------------------------------------------

  predicate IsDigit(c: char) {
    '0' <= c <= '9'
  }

  predicate AllDigits(s: string) {
    forall i :: 0 <= i < |s| ==> IsDigit(s[i])
  }

  function DigitChar(d: nat): (c: char)
    requires d < 10
    ensures IsDigit(c)
  {
    '0' + d as char
  }

  function Value(s: string): nat
    requires AllDigits(s)
  {
    if s == "" then 0 else Value(s[..|s| - 1]) * 10 + (s[|s| - 1] as int - '0' as int)
  }

  /** `n` in exactly `k` digits, zero padded. */
  function Fixed(n: nat, k: nat): (s: string)
    ensures |s| == k && AllDigits(s)
  {
    if k == 0 then "" else Fixed(n / 10, k - 1) + [DigitChar(n % 10)]
  }

  function Decimal(n: nat): (s: string)
    ensures s != "" && AllDigits(s)
  {
    if n < 10 then [DigitChar(n)] else Decimal(n / 10) + [DigitChar(n % 10)]
  }

  function Pow10(k: nat): nat {
    if k == 0 then 1 else 10 * Pow10(k - 1)
  }

  /** Digit `i` of `k`, most significant first. */
  lemma {:induction false} FixedAt(n: nat, k: nat, i: nat)
    requires i < k
    ensures Pow10(k - 1 - i) > 0 && Fixed(n, k)[i] as int == '0' as int + n / Pow10(k - 1 - i) % 10
  {
    if i < k - 1 {
      FixedAt(n / 10, k - 1, i);
      Digits.DivideTwice(n, 10, Pow10(k - 2 - i));
    }
  }

  /** Unpadded decimals have the same digits, without a leading zero. */
  lemma {:induction false} DecimalMeans(n: nat)
    ensures Decimal(n) == Fixed(n, |Decimal(n)|)
    ensures n > 0 ==> Decimal(n)[0] != '0'
  {
    if n >= 10 {
      DecimalMeans(n / 10);
    } else {
      assert Fixed(n, 1) == Fixed(n / 10, 0) + [DigitChar(n % 10)];
    }
  }

  lemma {:induction false} FixedValue(n: nat, k: nat)
    requires n < Pow10(k)
    ensures Value(Fixed(n, k)) == n
  {
    if k == 0 {
    } else {
      FixedValue(n / 10, k - 1);
      assert Fixed(n, k)[..k - 1] == Fixed(n / 10, k - 1);
    }
  }

  lemma {:induction false} ValueFixed(s: string)
    requires AllDigits(s)
    ensures Fixed(Value(s), |s|) == s
  {
    if s == "" {
    } else {
      var front := s[..|s| - 1];
      ValueFixed(front);
      var d := s[|s| - 1] as int - '0' as int;
      assert Value(s) / 10 == Value(front) && Value(s) % 10 == d;
      assert s == front + [s[|s| - 1]];
    }
  }

  lemma {:induction false} DecimalValue(n: nat)
    ensures Value(Decimal(n)) == n
  {
    if n >= 10 {
      DecimalValue(n / 10);
      assert Decimal(n)[..|Decimal(n)| - 1] == Decimal(n / 10);
    } else {
      assert Decimal(n)[..0] == "";
    }
  }

  lemma {:induction false} DecimalLength(n: nat, k: nat)
    requires k > 0 && n < Pow10(k)
    ensures |Decimal(n)| <= k
  {
    if n >= 10 {
      DecimalLength(n / 10, k - 1);
    }
  }

  lemma U64Digits()
    ensures MAX_U64 < Pow10(20)
  {
    assert Pow10(5) == 100000;
    assert Pow10(10) == 10000000000;
    assert Pow10(15) == 1000000000000000;
    assert Pow10(20) == 100000000000000000000;
  }

  /** Rust's unsigned parse: an optional plus sign, then digits, within the type. */
  function ParseNumber(s: string): Option<nat> {
    var digits := if s != "" && s[0] == '+' then s[1..] else s;
    if digits == "" || !AllDigits(digits) || Value(digits) > MAX_U64 then None else Some(Value(digits))
  }

  lemma NumberRoundTrip(n: nat)
    requires n <= MAX_U64
    ensures ParseNumber(Decimal(n)) == Some(n) && 1 <= |Decimal(n)| <= 20
  {
    DecimalValue(n);
    U64Digits();
    DecimalLength(n, 20);
    assert IsDigit(Decimal(n)[0]);
  }

  /** One plus sign is allowed before the digits, and nothing above the largest `u64`. */
  lemma NumberAccepted(digits: string)
    ensures digits != "" && AllDigits(digits) ==>
      ParseNumber(digits) == ParseNumber("+" + digits) == if Value(digits) <= MAX_U64 then Some(Value(digits)) else None
    ensures digits == "" || (digits[0] != '+' && !AllDigits(digits)) ==>
      ParseNumber(digits) == ParseNumber("+" + digits) == None
  {
    assert ("+" + digits)[1..] == digits;
    assert digits != "" && digits[0] == '+' ==> !AllDigits(digits);
  }

  // -- generation names ------------------------------------------------------------

  function StripPrefix(s: string, prefix: string): Option<string> {
    if prefix <= s then Some(s[|prefix|..]) else None
  }

  function GenerationName(g: nat): string {
    GENERATION_PREFIX + Fixed(g, 20)
  }

  function ParseGenerationName(name: string): Option<nat> {
    match StripPrefix(name, GENERATION_PREFIX)
    case None => None
    case Some(digits) =>
      if |digits| != 20 || !AllDigits(digits) || Value(digits) > MAX_U64 then None else Some(Value(digits))
  }

  /** Names and numbers correspond one to one: every number has one name, and every
      accepted name is the name of its number. */
  lemma GenerationNameRoundTrip(g: nat, name: string)
    ensures g <= MAX_U64 ==> ParseGenerationName(GenerationName(g)) == Some(g)
    ensures ParseGenerationName(name) == Some(g) ==> name == GenerationName(g) && g <= MAX_U64
  {
    if g <= MAX_U64 {
      U64Digits();
      FixedValue(g, 20);
      assert GenerationName(g)[|GENERATION_PREFIX|..] == Fixed(g, 20);
    }
    if ParseGenerationName(name) == Some(g) {
      ValueFixed(name[|GENERATION_PREFIX|..]);
      assert name == GENERATION_PREFIX + name[|GENERATION_PREFIX|..];
    }
  }

  // -- lines -------------------------------------------------------------------------

  function IndexOfNewline(s: string): (i: nat)
    ensures i <= |s| && (forall j :: 0 <= j < i ==> s[j] != '\n') && (i < |s| ==> s[i] == '\n')
  {
    if s == "" || s[0] == '\n' then 0 else 1 + IndexOfNewline(s[1..])
  }

  /** `str::lines`: split after each newline, dropping it and one carriage return before it. */
  function Lines(s: string): seq<string>
    decreases |s|
  {
    if s == "" then []
    else
      var i := IndexOfNewline(s);
      if i == |s| then [s]
      else
        var line := s[..i];
        [if line != "" && line[i - 1] == '\r' then line[..i - 1] else line] + Lines(s[i + 1..])
  }

  /** A value that survives as one line. */
  predicate OneLine(s: string) {
    '\n' !in s && (s != "" ==> s[|s| - 1] != '\r')
  }

  lemma LinesCons(line: string, rest: string)
    requires OneLine(line)
    ensures Lines(line + "\n" + rest) == [line] + Lines(rest)
  {
    var s := line + "\n" + rest;
    var i := IndexOfNewline(s);
    assert s[|line|] == '\n';
    assert forall j :: 0 <= j < |line| ==> s[j] == line[j] && line[j] in line;
    assert s[..i] == line && s[i + 1..] == rest;
  }

  /** Either line ending ends a line; the last line may lack it. */
  lemma LinesMean(line: string, rest: string)
    requires '\n' !in line
    ensures Lines(line + "\r\n" + rest) == [line] + Lines(rest)
    ensures line != "" ==> Lines(line) == [line]
  {
    ReturnedLine(line, line + "\r\n" + rest, rest);
    assert forall j :: 0 <= j < |line| ==> line[j] in line;
  }

  lemma ReturnedLine(line: string, s: string, rest: string)
    requires '\n' !in line && s == line + "\r\n" + rest
    ensures Lines(s) == [line] + Lines(rest)
  {
    var i, n := IndexOfNewline(s), |line| + 1;
    assert s[|line|] == '\r' && s[n] == '\n';
    assert forall j :: 0 <= j < |line| ==> s[j] == line[j] && line[j] in line;
    assert i == n;
    assert s[..i][..i - 1] == line && s[i + 1..] == rest;
  }

  function Unlines(lines: seq<string>): string {
    if lines == [] then "" else lines[0] + "\n" + Unlines(lines[1..])
  }

  lemma {:induction false} LinesOfUnlines(lines: seq<string>)
    requires forall i :: 0 <= i < |lines| ==> OneLine(lines[i])
    ensures Lines(Unlines(lines)) == lines
  {
    if lines == [] {
    } else {
      LinesOfUnlines(lines[1..]);
      LinesCons(lines[0], Unlines(lines[1..]));
      assert lines == [lines[0]] + lines[1..];
    }
  }

  function TotalLength(lines: seq<string>): nat {
    if lines == [] then 0 else |lines[0]| + 1 + TotalLength(lines[1..])
  }

  lemma {:induction false} UnlinesLength(lines: seq<string>)
    ensures |Unlines(lines)| == TotalLength(lines)
  {
    if lines == [] {
    } else {
      UnlinesLength(lines[1..]);
    }
  }

  function RequiredValue(line: string, prefix: string): Option<string> {
    match StripPrefix(line, prefix)
    case None => None
    case Some(v) => if v == "" then None else Some(v)
  }

  lemma FieldRoundTrip(prefix: string, value: string)
    requires value != ""
    ensures RequiredValue(prefix + value, prefix) == Some(value)
  {
    assert (prefix + value)[|prefix|..] == value;
  }

  // -- hashes --------------------------------------------------------------------------

  predicate IsHexDigest(s: string) {
    |s| == 64 && forall i :: 0 <= i < |s| ==> (IsDigit(s[i]) || 'a' <= s[i] <= 'f')
  }

  function ParseHash(line: string, prefix: string): Option<string> {
    match RequiredValue(line, prefix)
    case None => None
    case Some(v) => if IsHexDigest(v) then Some(v) else None
  }

  // -- CURRENT -------------------------------------------------------------------------

  datatype Current = Current(generation: string, manifestHash: string)

  function EncodeCurrent(c: Current): string {
    Unlines([CURRENT_MAGIC, "generation=" + c.generation, "manifest_sha256=" + c.manifestHash])
  }

  function ParseCurrent(raw: string): Option<Current> {
    var lines := Lines(raw);
    if |lines| != 3 || lines[0] != CURRENT_MAGIC then None
    else match RequiredValue(lines[1], "generation=")
      case None => None
      case Some(name) =>
        if ParseGenerationName(name).None? then None
        else match ParseHash(lines[2], "manifest_sha256=")
          case None => None
          case Some(h) => Some(Current(name, h))
  }

  /** The pointer file, as text. */
  lemma CurrentText(g: nat, h: string)
    ensures CURRENT_MAGIC == "OCTASOMA-HYBRID-CURRENT-V1" && GENERATION_PREFIX == "generation-"
    ensures EncodeCurrent(Current(GenerationName(g), h)) ==
      CURRENT_MAGIC + "\n" + "generation=" + GENERATION_PREFIX + Fixed(g, 20) + "\n" + "manifest_sha256=" + h + "\n"
  {
    PointerText(CURRENT_MAGIC, "generation=", GENERATION_PREFIX, Fixed(g, 20), "manifest_sha256=", h);
  }

  lemma PointerText(a: string, b: string, c: string, digits: string, d: string, e: string)
    ensures Unlines([a, b + (c + digits), d + e]) == a + "\n" + b + c + digits + "\n" + d + e + "\n"
  {
    var second, third := b + (c + digits), d + e;
    assert [a, second, third][1..] == [second, third] && [second, third][1..] == [third] && [third][1..] == [];
    var end := third + "\n";
    assert end + Unlines([]) == end;
    assert Unlines([third]) == end && Unlines([second, third]) == second + "\n" + end;
  }

  lemma SameCharsOneLine(s: string)
    requires forall i :: 0 <= i < |s| ==> ' ' <= s[i] <= '~'
    ensures OneLine(s)
  {
  }

  lemma CurrentLinesClean(g: nat, h: string)
    requires IsHexDigest(h)
    ensures forall line :: line in [CURRENT_MAGIC, "generation=" + GenerationName(g), "manifest_sha256=" + h] ==> OneLine(line)
  {
    SameCharsOneLine("generation=" + GenerationName(g));
    SameCharsOneLine("manifest_sha256=" + h);
  }

  /** A published pointer is small enough to be read back. */
  lemma CurrentLength(g: nat, h: string)
    requires IsHexDigest(h)
    ensures |EncodeCurrent(Current(GenerationName(g), h))| <= MAX_CURRENT_BYTES
  {
    var a, b, c := CURRENT_MAGIC, "generation=" + GenerationName(g), "manifest_sha256=" + h;
    UnlinesLength([a, b, c]);
    assert [a, b, c][1..] == [b, c] && [b, c][1..] == [c] && [c][1..] == [];
    assert TotalLength([b, c]) == |b| + 1 + TotalLength([c]) && TotalLength([c]) == |c| + 1;
    assert |a| == 26 && |b| == 42 && |c| == 80;
  }

  /** A published pointer is read back exactly. */
  lemma CurrentRoundTrip(g: nat, h: string)
    requires g <= MAX_U64 && IsHexDigest(h)
    ensures ParseCurrent(EncodeCurrent(Current(GenerationName(g), h))) == Some(Current(GenerationName(g), h))
  {
    var name := GenerationName(g);
    var lines := [CURRENT_MAGIC, "generation=" + name, "manifest_sha256=" + h];
    GenerationNameRoundTrip(g, name);
    CurrentLinesClean(g, h);
    LinesOfUnlines(lines);
    FieldRoundTrip("generation=", name);
    FieldRoundTrip("manifest_sha256=", h);
    hide Lines, Unlines, ParseGenerationName, GenerationName, IsHexDigest;
  }

  lemma FieldExact(line: string, prefix: string, value: string)
    ensures RequiredValue(line, prefix) == Some(value) <==> line == prefix + value && value != ""
  {
    if prefix <= line {
      assert line == prefix + line[|prefix|..];
    }
    FieldRoundTripIf(prefix, value);
  }

  lemma FieldRoundTripIf(prefix: string, value: string)
    ensures value != "" ==> RequiredValue(prefix + value, prefix) == Some(value)
  {
    assert (prefix + value)[|prefix|..] == value;
  }

  /** A pointer file is accepted exactly when its three lines are the ones a writer prints
      for the name of some generation and a digest of 64 lower-case hexadecimal digits. */
  lemma CurrentAccepted(raw: string, c: Current)
    ensures ParseCurrent(raw) == Some(c) <==>
      && Lines(raw) == [CURRENT_MAGIC, "generation=" + c.generation, "manifest_sha256=" + c.manifestHash]
      && (exists g: nat :: g <= MAX_U64 && c.generation == GenerationName(g))
      && |c.manifestHash| == 64 && forall i :: 0 <= i < 64 ==> c.manifestHash[i] in "0123456789abcdef"
  {
    var lines := Lines(raw);
    HexMeans(c.manifestHash);
    NameMeans(c.generation);
    if |lines| == 3 {
      FieldExact(lines[1], "generation=", c.generation);
      FieldExact(lines[2], "manifest_sha256=", c.manifestHash);
      assert lines == [lines[0], lines[1], lines[2]];
    }
    hide Lines, ParseGenerationName, GenerationName, IsHexDigest, RequiredValue;
  }

  lemma HexMeans(s: string)
    ensures IsHexDigest(s) <==> |s| == 64 && forall i :: 0 <= i < 64 ==> s[i] in "0123456789abcdef"
  {
    HexChars();
  }

  lemma HexChars()
    ensures forall c: char :: c in "0123456789abcdef" <==> ('0' <= c <= '9' || 'a' <= c <= 'f')
  {
    forall c: char | '0' <= c <= '9' || 'a' <= c <= 'f'
      ensures c in "0123456789abcdef"
    {
      var n := if c <= '9' then c as int - '0' as int else c as int - 'a' as int + 10;
      assert "0123456789abcdef"[n] == c;
    }
  }

  lemma NameMeans(name: string)
    ensures ParseGenerationName(name).Some? <==> exists g: nat :: g <= MAX_U64 && name == GenerationName(g)
  {
    if ParseGenerationName(name).Some? {
      GenerationNameRoundTrip(ParseGenerationName(name).value, name);
    }
    if g: nat :| g <= MAX_U64 && name == GenerationName(g) {
      GenerationNameRoundTrip(g, name);
    }
  }

  // -- MANIFEST --------------------------------------------------------------------------

  datatype Fingerprint = Fingerprint(embedding: string, projection: string, quantization: string, index: string,
                                     scirustRevision: string, calibration: Option<string>)

  datatype Manifest = Manifest(generation: nat, dim: nat, items: nat, shortlist: nat, version: string,
                               fingerprint: Option<Fingerprint>, treeHash: string, sketchHash: string)

  predicate ValidValue(s: string) {
    0 < |s| <= MAX_FINGERPRINT_BYTES && forall i :: 0 <= i < |s| ==> ' ' <= s[i] <= '~'
  }

  predicate ValidFingerprint(f: Fingerprint) {
    && ValidValue(f.embedding) && ValidValue(f.projection) && ValidValue(f.quantization)
    && ValidValue(f.index) && ValidValue(f.scirustRevision)
    && (f.calibration.Some? ==> ValidValue(f.calibration.value))
  }

  predicate ValidManifest(m: Manifest) {
    && m.generation <= MAX_U64 && m.dim <= MAX_U64 && m.items <= MAX_U64 && 0 < m.shortlist <= MAX_U64
    && ValidValue(m.version) && IsHexDigest(m.treeHash) && IsHexDigest(m.sketchHash)
    && (m.fingerprint.Some? ==> ValidFingerprint(m.fingerprint.value))
  }

  function HeadLines(m: Manifest): (lines: seq<string>)
    ensures |lines| == 5
  {
    ["generation=" + Decimal(m.generation), "dim=" + Decimal(m.dim), "items=" + Decimal(m.items),
     "default_shortlist=" + Decimal(m.shortlist), "octasoma_version=" + m.version]
  }

  function FingerprintLines(f: Fingerprint): (lines: seq<string>)
    ensures |lines| == 7
  {
    ["embedding=" + f.embedding, "projection=" + f.projection, "quantization=" + f.quantization, "index=" + f.index,
     "scirust_revision=" + f.scirustRevision,
     "calibration_present=" + (if f.calibration.Some? then "1" else "0"),
     "calibration=" + (if f.calibration.Some? then f.calibration.value else "")]
  }

  function HashLines(m: Manifest): (lines: seq<string>)
    ensures |lines| == 2
  {
    ["tree_sha256=" + m.treeHash, "sketch_sha256=" + m.sketchHash]
  }

  function ManifestLines(m: Manifest): seq<string> {
    match m.fingerprint
    case None => [MANIFEST_MAGIC_V1] + HeadLines(m) + HashLines(m)
    case Some(f) => [MANIFEST_MAGIC_V2] + HeadLines(m) + FingerprintLines(f) + HashLines(m)
  }

  function EncodeManifest(m: Manifest): string {
    Unlines(ManifestLines(m))
  }

  function ParseNumberField(line: string, prefix: string): Option<nat> {
    match RequiredValue(line, prefix)
    case None => None
    case Some(v) => ParseNumber(v)
  }

  /** The fields every manifest starts with; a zero shortlist is refused. */
  function ParseHead(lines: seq<string>): Option<(nat, nat, nat, nat, string)>
    requires |lines| == 5
  {
    match (ParseNumberField(lines[0], "generation="), ParseNumberField(lines[1], "dim="), ParseNumberField(lines[2], "items="),
           ParseNumberField(lines[3], "default_shortlist="), RequiredValue(lines[4], "octasoma_version="))
    case (Some(g), Some(d), Some(n), Some(s), Some(v)) => if s == 0 then None else Some((g, d, n, s, v))
    case _ => None
  }

  /** The calibration marker and its value must agree. */
  function ParseCalibration(present: string, value: string): Option<Option<string>> {
    match (ParseNumberField(present, "calibration_present="), StripPrefix(value, "calibration="))
    case (Some(n), Some(v)) =>
      if n == 0 && v == "" then Some(None) else if n == 1 && v != "" then Some(Some(v)) else None
    case _ => None
  }

  function ParseFingerprint(lines: seq<string>): Option<Fingerprint>
    requires |lines| == 7
  {
    match (RequiredValue(lines[0], "embedding="), RequiredValue(lines[1], "projection="), RequiredValue(lines[2], "quantization="),
           RequiredValue(lines[3], "index="), RequiredValue(lines[4], "scirust_revision="), ParseCalibration(lines[5], lines[6]))
    case (Some(e), Some(p), Some(q), Some(i), Some(r), Some(c)) =>
      var f := Fingerprint(e, p, q, i, r, c);
      if ValidFingerprint(f) then Some(f) else None
    case _ => None
  }

  function ParseHashes(lines: seq<string>): Option<(string, string)>
    requires |lines| == 2
  {
    match (ParseHash(lines[0], "tree_sha256="), ParseHash(lines[1], "sketch_sha256="))
    case (Some(t), Some(s)) => Some((t, s))
    case _ => None
  }

  function ParseManifest(raw: string): Option<Manifest> {
    ParseManifestLines(Lines(raw))
  }

  function ParseManifestLines(lines: seq<string>): Option<Manifest> {
    if lines == [] then None
    else if lines[0] == MANIFEST_MAGIC_V1 then
      if |lines| != 8 then None
      else match (ParseHead(lines[1..6]), ParseHashes(lines[6..]))
        case (Some(h), Some(d)) => Some(Manifest(h.0, h.1, h.2, h.3, h.4, None, d.0, d.1))
        case _ => None
    else if lines[0] == MANIFEST_MAGIC_V2 then
      if |lines| != 15 then None
      else match (ParseHead(lines[1..6]), ParseFingerprint(lines[6..13]), ParseHashes(lines[13..]))
        case (Some(h), Some(f), Some(d)) => Some(Manifest(h.0, h.1, h.2, h.3, h.4, Some(f), d.0, d.1))
        case _ => None
    else None
  }

  lemma NumberFieldRoundTrip(prefix: string, n: nat)
    requires n <= MAX_U64
    ensures ParseNumberField(prefix + Decimal(n), prefix) == Some(n)
  {
    NumberRoundTrip(n);
    FieldRoundTrip(prefix, Decimal(n));
  }

  lemma HeadRoundTrip(m: Manifest)
    requires ValidManifest(m)
    ensures ParseHead(HeadLines(m)) == Some((m.generation, m.dim, m.items, m.shortlist, m.version))
  {
    NumberFieldRoundTrip("generation=", m.generation);
    NumberFieldRoundTrip("dim=", m.dim);
    NumberFieldRoundTrip("items=", m.items);
    NumberFieldRoundTrip("default_shortlist=", m.shortlist);
    FieldRoundTrip("octasoma_version=", m.version);
    hide ParseNumberField, RequiredValue;
  }

  lemma CalibrationRoundTrip(c: Option<string>)
    requires c.Some? ==> c.value != ""
    ensures ParseCalibration("calibration_present=" + (if c.Some? then "1" else "0"),
                             "calibration=" + (if c.Some? then c.value else "")) == Some(c)
  {
    NumberFieldRoundTrip("calibration_present=", if c.Some? then 1 else 0);
    assert Decimal(1) == "1" && Decimal(0) == "0";
    var v := if c.Some? then c.value else "";
    assert ("calibration=" + v)[|"calibration="|..] == v;
  }

  lemma FingerprintRoundTrip(f: Fingerprint)
    requires ValidFingerprint(f)
    ensures ParseFingerprint(FingerprintLines(f)) == Some(f)
  {
    FieldRoundTrip("embedding=", f.embedding);
    FieldRoundTrip("projection=", f.projection);
    FieldRoundTrip("quantization=", f.quantization);
    FieldRoundTrip("index=", f.index);
    FieldRoundTrip("scirust_revision=", f.scirustRevision);
    CalibrationRoundTrip(f.calibration);
    hide RequiredValue, ParseCalibration, ValidValue;
  }

  lemma HashesRoundTrip(m: Manifest)
    requires ValidManifest(m)
    ensures ParseHashes(HashLines(m)) == Some((m.treeHash, m.sketchHash))
  {
    FieldRoundTrip("tree_sha256=", m.treeHash);
    FieldRoundTrip("sketch_sha256=", m.sketchHash);
  }

  lemma PrintableLine(prefix: string, value: string)
    requires forall i :: 0 <= i < |prefix| ==> ' ' <= prefix[i] <= '~'
    requires forall i :: 0 <= i < |value| ==> ' ' <= value[i] <= '~'
    ensures OneLine(prefix + value)
  {
    SameCharsOneLine(prefix + value);
  }

  lemma HeadLinesClean(m: Manifest)
    requires ValidManifest(m)
    ensures forall line :: line in HeadLines(m) ==> OneLine(line)
  {
    PrintableLine("generation=", Decimal(m.generation));
    PrintableLine("dim=", Decimal(m.dim));
    PrintableLine("items=", Decimal(m.items));
    PrintableLine("default_shortlist=", Decimal(m.shortlist));
    PrintableLine("octasoma_version=", m.version);
  }

  lemma HashLinesClean(m: Manifest)
    requires ValidManifest(m)
    ensures forall line :: line in HashLines(m) ==> OneLine(line)
  {
    PrintableLine("tree_sha256=", m.treeHash);
    PrintableLine("sketch_sha256=", m.sketchHash);
  }

  lemma ManifestLinesClean(m: Manifest)
    requires ValidManifest(m)
    ensures forall line :: line in ManifestLines(m) ==> OneLine(line)
  {
    HeadLinesClean(m);
    HashLinesClean(m);
    if m.fingerprint.Some? {
      FingerprintLinesClean(m.fingerprint.value);
    }
    SameCharsOneLine(MANIFEST_MAGIC_V1);
    SameCharsOneLine(MANIFEST_MAGIC_V2);
    hide HeadLines, HashLines, FingerprintLines, OneLine, ValidManifest;
  }

  lemma FingerprintLinesClean(f: Fingerprint)
    requires ValidFingerprint(f)
    ensures forall line :: line in FingerprintLines(f) ==> OneLine(line)
  {
    PrintableLine("embedding=", f.embedding);
    PrintableLine("projection=", f.projection);
    PrintableLine("quantization=", f.quantization);
    PrintableLine("index=", f.index);
    PrintableLine("scirust_revision=", f.scirustRevision);
    PrintableLine("calibration_present=", if f.calibration.Some? then "1" else "0");
    PrintableLine("calibration=", if f.calibration.Some? then f.calibration.value else "");
  }

  /** Where the parts of a printed manifest are. */
  lemma ManifestSlices(m: Manifest)
    ensures var lines := ManifestLines(m);
      match m.fingerprint
      case None => |lines| == 8 && lines[0] == MANIFEST_MAGIC_V1 && lines[1..6] == HeadLines(m) && lines[6..] == HashLines(m)
      case Some(f) =>
        && |lines| == 15 && lines[0] == MANIFEST_MAGIC_V2
        && lines[1..6] == HeadLines(m) && lines[6..13] == FingerprintLines(f) && lines[13..] == HashLines(m)
  {
    assert |HeadLines(m)| == 5 && |HashLines(m)| == 2;
    assert m.fingerprint.Some? ==> |FingerprintLines(m.fingerprint.value)| == 7;
    hide HeadLines, HashLines, FingerprintLines;
  }

  lemma ManifestFieldsRoundTrip(m: Manifest)
    requires ValidManifest(m)
    ensures ParseManifestLines(ManifestLines(m)) == Some(m)
  {
    HeadRoundTrip(m);
    HashesRoundTrip(m);
    if m.fingerprint.Some? {
      FingerprintRoundTrip(m.fingerprint.value);
    }
    ManifestSlices(m);
    hide ManifestLines, HeadLines, HashLines, FingerprintLines, ParseHead, ParseHashes, ParseFingerprint, ValidManifest;
  }

  /** Every manifest a save can write is read back exactly, bound or unbound: no field
      can smuggle in a line, because a fingerprint is printable ASCII. */
  lemma ManifestRoundTrip(m: Manifest)
    requires ValidManifest(m)
    ensures ParseManifest(EncodeManifest(m)) == Some(m)
  {
    ManifestLinesClean(m);
    LinesOfUnlines(ManifestLines(m));
    ManifestFieldsRoundTrip(m);
  }

  lemma FingerprintAccepted(lines: seq<string>, f: Fingerprint)
    requires |lines| == 7 && ParseFingerprint(lines) == Some(f)
    ensures ValidFingerprint(f)
    ensures lines[..5] == FingerprintLines(f)[..5] && lines[6] == FingerprintLines(f)[6]
  {
    FieldExact(lines[0], "embedding=", f.embedding);
    FieldExact(lines[1], "projection=", f.projection);
    FieldExact(lines[2], "quantization=", f.quantization);
    FieldExact(lines[3], "index=", f.index);
    FieldExact(lines[4], "scirust_revision=", f.scirustRevision);
    CalibrationAccepted(lines[5], lines[6], f.calibration);
    hide RequiredValue, ParseCalibration, ValidValue;
  }

  lemma CalibrationAccepted(present: string, value: string, c: Option<string>)
    requires ParseCalibration(present, value) == Some(c)
    ensures value == "calibration=" + (if c.Some? then c.value else "")
  {
    assert value == "calibration=" + value[|"calibration="|..];
  }

  lemma HashesAccepted(lines: seq<string>, tree: string, sketch: string)
    requires |lines| == 2 && ParseHashes(lines) == Some((tree, sketch))
    ensures lines == ["tree_sha256=" + tree, "sketch_sha256=" + sketch] && IsHexDigest(tree) && IsHexDigest(sketch)
  {
    FieldExact(lines[0], "tree_sha256=", tree);
    FieldExact(lines[1], "sketch_sha256=", sketch);
    hide RequiredValue, IsHexDigest;
  }

  /** An accepted manifest says what is read: line by line it is the printed form of the
      result, except that a number may be written in another way. */
  lemma ManifestAccepted(raw: string, m: Manifest)
    requires ParseManifest(raw) == Some(m)
    ensures var lines, printed := Lines(raw), ManifestLines(m);
      && |lines| == |printed|
      && (forall i :: 0 <= i < |lines| && i !in {1, 2, 3, 4, 11} ==> lines[i] == printed[i])
      && ParseNumberField(lines[1], "generation=") == Some(m.generation)
      && ParseNumberField(lines[2], "dim=") == Some(m.dim)
      && ParseNumberField(lines[3], "items=") == Some(m.items)
      && ParseNumberField(lines[4], "default_shortlist=") == Some(m.shortlist)
    ensures m.shortlist > 0 && m.version != "" && IsHexDigest(m.treeHash) && IsHexDigest(m.sketchHash)
    ensures m.fingerprint.Some? ==> ValidFingerprint(m.fingerprint.value)
  {
    hide Lines, RequiredValue, IsHexDigest, ParseNumberField, ParseFingerprint, ValidValue, ParseHashes;
    var lines := Lines(raw);
    FieldExact(lines[5], "octasoma_version=", m.version);
    if m.fingerprint.None? {
      HashesAccepted(lines[6..], m.treeHash, m.sketchHash);
    } else {
      HashesAccepted(lines[13..], m.treeHash, m.sketchHash);
      FingerprintAccepted(lines[6..13], m.fingerprint.value);
    }
  }
}
