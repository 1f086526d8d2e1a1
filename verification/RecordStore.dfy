/** The record store: keyed updates, lifecycle purge, and its persisted form. */
module RecordStore {
  import opened Wrappers
  import opened Bytes
  import opened Records
  import opened RecordCodec

  // -- the persisted form -------------------------------------------------------------

  function WriteRecords(s: seq<Record>, rest: Input): Input {
    if s == [] then rest else WriteRecord(s[0], WriteRecords(s[1..], rest))
  }

  function Header(count: nat, rest: Input): Input {
    MAGIC + WriteU32(VERSION, WriteU64(count % 0x1_0000_0000_0000_0000, rest))
  }

  /** The first sixteen bytes of a file: `RECS`, version 1, the count. */
  lemma HeaderBytes(count: nat, rest: Input)
    requires count < 0x1_0000_0000_0000_0000
    ensures Header(count, rest) == [82, 69, 67, 83, 1, 0, 0, 0] + LittleEndian(count, 8) + rest
  {
    hide LittleEndian;
    VersionBytes();
    HeaderJoined(MAGIC, [1, 0, 0, 0], LittleEndian(count, 8), rest);
  }

  lemma VersionBytes()
    ensures LittleEndian(VERSION, 4) == [1, 0, 0, 0]
  {
  }

  lemma HeaderJoined(a: Input, b: Input, c: Input, rest: Input)
    ensures a + (b + (c + rest)) == (a + b) + c + rest
  {
  }

  /** A header is accepted exactly within the file and record limits, and when the bytes
      after it can hold the declared number of records. */
  lemma HeaderAccepted(b: Input, limits: LoadLimits)
    ensures ReadHeader(b, limits).Ok? <==>
      && 16 <= |b| <= limits.maxFileBytes && b[..8] == [82, 69, 67, 83, 1, 0, 0, 0]
      && FromLittleEndian(b[8..16]) <= limits.maxRecords && FromLittleEndian(b[8..16]) * 54 <= |b| - 16
  {
    if |b| >= 8 {
      var v := b[4..][..4];
      assert v == b[4..8] && b[..8] == b[..4] + v;
      VersionBytes();
      LittleEndianRoundTrip(1, 4);
      FromLittleEndianRoundTrip(v);
      assert b[4..][4..] == b[8..];
      if |b| >= 16 {
        assert b[8..][..8] == b[8..16];
      }
    }
  }

  function Encoded(s: seq<Record>): Input {
    Header(|s|, WriteRecords(s, []))
  }

  /** Magic, version and a count that the record and byte budgets allow. */
  function ReadHeader(b: Input, limits: LoadLimits): Read<U64> {
    if |b| > limits.maxFileBytes then Err(InvalidData)
    else if |b| < 4 then Err(UnexpectedEof)
    else if b[..4] != MAGIC then Err(InvalidData)
    else
      var (version, r) :- ReadU32(b[4..]);
      if version != VERSION then Err(InvalidData)
      else
        var (count, r) :- ReadU64(r);
        if count > limits.maxRecords || !CountFits(count, MIN_ENCODED_RECORD_BYTES, |r|) then Err(InvalidData) else Ok((count, r))
  }

  /** The records of the file in file order, before they are put into the store. */
  function ReadList(n: nat, r: Input, used: nat, limits: LoadLimits): Read<seq<Record>> {
    if n == 0 then Ok(([], r))
    else
      var (x, r) :- ReadRecord(r, used, limits);
      var (xs, r) :- ReadList(n - 1, r, used + |x.payload|, limits);
      Ok(([x] + xs, r))
  }

  function ReadInto(store: seq<Record>, n: nat, r: Input, used: nat, limits: LoadLimits): Read<seq<Record>>
    decreases n
  {
    if n == 0 then Ok((store, r))
    else
      var (x, r) :- ReadRecord(r, used, limits);
      match Put(store, x)
      case Err(_) => Err(InvalidData)
      case Ok(store) => ReadInto(store, n - 1, r, used + |x.payload|, limits)
  }

  function Decoded(b: Input, limits: LoadLimits): Result<seq<Record>, IoError> {
    var (count, r) :- ReadHeader(b, limits);
    var (store, rest) :- ReadInto([], count, r, 0, limits);
    if rest != [] then Err(InvalidData) else Ok(store)
  }

  function PutAll(s: seq<Record>, xs: seq<Record>): Option<seq<Record>>
    decreases |xs|
  {
    if xs == [] then Some(s)
    else match Put(s, xs[0])
      case Err(_) => None
      case Ok(t) => PutAll(t, xs[1..])
  }

  function PayloadBytes(s: seq<Record>): nat {
    if s == [] then 0 else |s[0].payload| + PayloadBytes(s[1..])
  }

  ghost predicate AllOk(s: seq<Record>) {
    forall i :: 0 <= i < |s| ==> RecordOk(s[i])
  }

  // -- records in sequence --------------------------------------------------------------

  lemma {:induction false} ListRoundTrip(s: seq<Record>, rest: Input, used: nat, limits: LoadLimits)
    requires AllOk(s) && used + PayloadBytes(s) <= limits.maxPayloadBytes
    ensures ReadList(|s|, WriteRecords(s, rest), used, limits) == Ok((s, rest))
    ensures |WriteRecords(s, rest)| >= MIN_ENCODED_RECORD_BYTES * |s| + |rest|
  {
    hide WriteRecord, ReadRecord, RecordOk;
    if s == [] {
    } else {
      ListRoundTrip(s[1..], rest, used + |s[0].payload|, limits);
      RecordRoundTrip(s[0], WriteRecords(s[1..], rest), used, limits);
      RecordLength(s[0], WriteRecords(s[1..], rest));
      assert s == [s[0]] + s[1..];
    }
  }

  lemma {:induction false} ListExact(n: nat, r: Input, used: nat, limits: LoadLimits)
    requires ReadList(n, r, used, limits).Ok?
    ensures var (xs, rest) := ReadList(n, r, used, limits).value;
      |xs| == n && AllOk(xs) && r == WriteRecords(xs, rest)
  {
    hide WriteRecord, ReadRecord, RecordOk;
    if n == 0 {
    } else {
      RecordExact(r, used, limits);
      var (x, r1) := ReadRecord(r, used, limits).value;
      ListExact(n - 1, r1, used + |x.payload|, limits);
      var (xs, rest) := ReadList(n, r, used, limits).value;
      assert xs[1..] == ReadList(n - 1, r1, used + |x.payload|, limits).value.0;
    }
  }

  /** Reading into a store is reading the list, then putting its records one by one. */
  lemma {:induction false} IntoIsListThenPut(store: seq<Record>, n: nat, r: Input, used: nat, limits: LoadLimits)
    ensures ReadInto(store, n, r, used, limits).Ok? <==>
      ReadList(n, r, used, limits).Ok? && PutAll(store, ReadList(n, r, used, limits).value.0).Some?
    ensures ReadInto(store, n, r, used, limits).Ok? ==>
      var (xs, rest) := ReadList(n, r, used, limits).value;
      ReadInto(store, n, r, used, limits) == Ok((PutAll(store, xs).value, rest))
    decreases n
  {
    hide ReadRecord, Put;
    if n > 0 && ReadRecord(r, used, limits).Ok? {
      var (x, r1) := ReadRecord(r, used, limits).value;
      var tail := ReadList(n - 1, r1, used + |x.payload|, limits);
      if Put(store, x).Ok? {
        IntoIsListThenPut(Put(store, x).value, n - 1, r1, used + |x.payload|, limits);
      }
      if tail.Ok? {
        assert ([x] + tail.value.0)[1..] == tail.value.0;
      }
    }
  }

  /** Records in ascending order are put at the end, one after the other. */
  lemma {:induction false} PutAllAscending(s: seq<Record>, xs: seq<Record>)
    requires Ascending(s + xs)
    ensures PutAll(s, xs) == Some(s + xs)
    decreases |xs|
  {
    if xs == [] {
      assert s + xs == s;
    } else {
      assert s + ([xs[0]] + xs[1..]) == s + xs;
      PutLast(s, xs[0], xs[1..]);
      assert s + [xs[0]] + xs[1..] == s + xs;
      PutAllAscending(s + [xs[0]], xs[1..]);
    }
  }

  lemma PutLast(s: seq<Record>, x: Record, xs: seq<Record>)
    requires Ascending(s + ([x] + xs))
    ensures Put(s, x) == Ok(s + [x])
  {
    var all := s + ([x] + xs);
    assert all[|s|] == x;
    forall j | 0 <= j < |s|
      ensures s[j].id != x.id && !Less(x.id, s[j].id)
    {
      assert all[j] == s[j];
      LessTotal(s[j].id, x.id);
    }
    var k := InsertionPoint(s, x.id);
    assert k == |s|;
    assert s[..k] + [x] + s[k..] == s + [x];
  }

  lemma {:induction false} PutAllKeepsOrder(s: seq<Record>, xs: seq<Record>)
    requires Ascending(s) && PutAll(s, xs).Some?
    ensures Ascending(PutAll(s, xs).value)
    ensures forall x :: x in PutAll(s, xs).value ==> x in s || x in xs
    decreases |xs|
  {
    if xs == [] {
    } else {
      PutAscending(s, xs[0]);
      PutAllKeepsOrder(Put(s, xs[0]).value, xs[1..]);
    }
  }

  // -- the round trips --------------------------------------------------------------------

  /** A store whose encoding a reader with these limits must accept. */
  ghost predicate Persistable(s: seq<Record>, limits: LoadLimits) {
    && Ascending(s) && AllOk(s)
    && |s| <= limits.maxRecords && |s| < 0x1_0000_0000_0000_0000
    && |Encoded(s)| <= limits.maxFileBytes
    && PayloadBytes(s) <= limits.maxPayloadBytes
  }

  lemma HeaderRoundTrip(count: nat, rest: Input, limits: LoadLimits)
    requires count < 0x1_0000_0000_0000_0000 && count <= limits.maxRecords
    requires |Header(count, rest)| <= limits.maxFileBytes
    requires MIN_ENCODED_RECORD_BYTES * count <= |rest|
    ensures ReadHeader(Header(count, rest), limits) == Ok((count, rest))
  {
    hide WriteU32, ReadU32, WriteU64, ReadU64;
    var r2 := WriteU64(count, rest);
    var r1 := WriteU32(VERSION, r2);
    assert Header(count, rest)[..4] == MAGIC && Header(count, rest)[4..] == r1;
    U32RoundTrip(VERSION, r2);
    U64RoundTrip(count, rest);
  }

  lemma HeaderExact(b: Input, limits: LoadLimits)
    requires ReadHeader(b, limits).Ok?
    ensures b == Header(ReadHeader(b, limits).value.0, ReadHeader(b, limits).value.1)
  {
    hide WriteU32, ReadU32, WriteU64, ReadU64;
    assert b == b[..4] + b[4..];
    U32Exact(b[4..]);
    U64Exact(ReadU32(b[4..]).value.1);
  }

  /** Everything that was saved is loaded back, exactly. */
  lemma DecodeEncode(s: seq<Record>, limits: LoadLimits)
    requires Persistable(s, limits)
    ensures Decoded(Encoded(s), limits) == Ok(s)
  {
    hide Header, ReadHeader, WriteRecords, ReadList, ReadInto, RecordOk;
    ListRoundTrip(s, [], 0, limits);
    HeaderRoundTrip(|s|, WriteRecords(s, []), limits);
    IntoIsListThenPut([], |s|, WriteRecords(s, []), 0, limits);
    assert [] + s == s;
    PutAllAscending([], s);
  }

  lemma {:induction false} ListRefused(s: seq<Record>, rest: Input, used: nat, limits: LoadLimits)
    requires AllOk(s) && used <= limits.maxPayloadBytes < used + PayloadBytes(s)
    ensures ReadList(|s|, WriteRecords(s, rest), used, limits).Err?
  {
    hide WriteRecord, ReadRecord, RecordOk;
    var after := used + |s[0].payload|;
    if after > limits.maxPayloadBytes {
      PayloadRefused(s[0], WriteRecords(s[1..], rest), used, limits);
    } else {
      RecordRoundTrip(s[0], WriteRecords(s[1..], rest), used, limits);
      ListRefused(s[1..], rest, after, limits);
    }
  }

  lemma HeaderWithin(count: nat, rest: Input, limits: LoadLimits)
    requires count < 0x1_0000_0000_0000_0000
    requires ReadHeader(Header(count, rest), limits).Ok?
    ensures ReadHeader(Header(count, rest), limits) == Ok((count, rest))
    ensures count <= limits.maxRecords && |Header(count, rest)| <= limits.maxFileBytes
  {
    hide WriteU32, ReadU32, WriteU64, ReadU64;
    var r2 := WriteU64(count, rest);
    var r1 := WriteU32(VERSION, r2);
    assert Header(count, rest)[..4] == MAGIC && Header(count, rest)[4..] == r1;
    U32RoundTrip(VERSION, r2);
    U64RoundTrip(count, rest);
  }

  /** What was saved is loaded back exactly when it meets all three limits, and is refused
      otherwise. */
  lemma DecodesIff(s: seq<Record>, limits: LoadLimits)
    requires Ascending(s) && AllOk(s) && |s| < 0x1_0000_0000_0000_0000
    ensures Decoded(Encoded(s), limits).Ok? <==>
      |Encoded(s)| <= limits.maxFileBytes && |s| <= limits.maxRecords && PayloadBytes(s) <= limits.maxPayloadBytes
    ensures Decoded(Encoded(s), limits).Ok? ==> Decoded(Encoded(s), limits) == Ok(s)
  {
    hide Header, ReadHeader, WriteRecords, ReadList, ReadInto, RecordOk, PayloadBytes;
    if Persistable(s, limits) {
      DecodeEncode(s, limits);
    } else if Decoded(Encoded(s), limits).Ok? {
      HeaderWithin(|s|, WriteRecords(s, []), limits);
      IntoIsListThenPut([], |s|, WriteRecords(s, []), 0, limits);
      ListRefused(s, [], 0, limits);
    }
  }

  /** The records a decodable file lists, in file order. */
  function Listed(b: Input, limits: LoadLimits): seq<Record>
    requires Decoded(b, limits).Ok?
  {
    var (count, r) := ReadHeader(b, limits).value;
    IntoIsListThenPut([], count, r, 0, limits);
    ReadList(count, r, 0, limits).value.0
  }

  lemma ListedFile(b: Input, limits: LoadLimits)
    requires Decoded(b, limits).Ok?
    ensures var xs := Listed(b, limits);
      && b == Encoded(xs) && AllOk(xs) && |xs| < 0x1_0000_0000_0000_0000
      && PutAll([], xs) == Some(Decoded(b, limits).value)
  {
    hide Header, ReadRecord, WriteRecord, RecordOk;
    HeaderExact(b, limits);
    var (count, r) := ReadHeader(b, limits).value;
    IntoIsListThenPut([], count, r, 0, limits);
    ListExact(count, r, 0, limits);
  }

  /** Two lists with the same encoding are the same list. */
  lemma EncodedInjective(s: seq<Record>, t: seq<Record>)
    requires AllOk(s) && AllOk(t) && |s| < 0x1_0000_0000_0000_0000 && |t| < 0x1_0000_0000_0000_0000
    requires Encoded(s) == Encoded(t)
    ensures s == t
  {
    hide WriteRecords, RecordOk, ReadList;
    var big := PayloadBytes(s) + PayloadBytes(t);
    var limits := LoadLimits(|Encoded(s)|, |s| + |t|, big);
    ListRoundTrip(s, [], 0, limits);
    ListRoundTrip(t, [], 0, limits);
    HeaderRoundTrip(|s|, WriteRecords(s, []), limits);
    HeaderRoundTrip(|t|, WriteRecords(t, []), limits);
    hide Header, ReadHeader;
  }

  /** Re-encoding a decoded file reproduces it exactly when the file lists its ids in
      strictly ascending order; otherwise it was accepted but is not canonical. */
  lemma EncodeDecode(b: Input, limits: LoadLimits)
    requires Decoded(b, limits).Ok?
    ensures Encoded(Decoded(b, limits).value) == b <==> Ascending(Listed(b, limits))
    ensures Ascending(Decoded(b, limits).value)
  {
    hide Encoded, Decoded, Listed, RecordOk;
    var s, xs := Decoded(b, limits).value, Listed(b, limits);
    ListedFile(b, limits);
    PutAllKeepsOrder([], xs);
    if Ascending(xs) {
      assert [] + xs == xs;
      PutAllAscending([], xs);
    }
    if Encoded(s) == b {
      FewerRecords([], xs);
      forall i | 0 <= i < |s|
        ensures RecordOk(s[i])
      {
        assert s[i] in s;
        assert s[i] in xs;
      }
      EncodedInjective(s, xs);
    }
  }

  lemma {:induction false} FewerRecords(s: seq<Record>, xs: seq<Record>)
    requires PutAll(s, xs).Some?
    ensures |PutAll(s, xs).value| <= |s| + |xs|
    decreases |xs|
  {
    if xs == [] {
    } else {
      FewerRecords(Put(s, xs[0]).value, xs[1..]);
    }
  }

  // -- the mutable store ----------------------------------------------------------------

  class RecordStore {
    var records: seq<Record>

    ghost predicate Valid()
      reads this
    {
      Ascending(records)
    }

    constructor ()
      ensures Valid() && records == []
    {
      records := [];
    }

    /** Inserts or replaces; a replacement must be strictly newer. */
    method PutRecord(r: Record) returns (result: Result<Option<Record>, RecordError>)
      requires Valid()
      modifies this
      ensures Valid()
      ensures result.Err? <==> Lookup(old(records), r.id).Some? && r.generation <= Lookup(old(records), r.id).value.generation
      ensures result.Err? ==> records == old(records)
      ensures result.Ok? ==> result.value == Lookup(old(records), r.id)
      ensures result.Ok? ==> forall id :: Lookup(records, id) == if id == r.id then Some(r) else Lookup(old(records), id)
    {
      var previous := Lookup(records, r.id);
      ghost var before := records;
      match Put(records, r)
      case Err(e) => result := Err(e);
      case Ok(s) =>
        forall id: Text
          ensures Lookup(s, id) == if id == r.id then Some(r) else Lookup(before, id)
        {
          PutMeaning(before, r, id);
        }
        PutAscending(before, r);
        records := s;
        result := Ok(previous);
    }

    /** Marks a stored record tombstoned at a strictly newer generation. */
    method TombstoneRecord(id: Text, generation: U64) returns (result: Result<(), RecordError>)
      requires Valid()
      modifies this
      ensures Valid()
      ensures result.Ok? <==> Lookup(old(records), id).Some? && generation > Lookup(old(records), id).value.generation
      ensures result.Err? ==> records == old(records)
      ensures result.Ok? ==> Lookup(records, id) == Some(Lookup(old(records), id).value.(generation := generation, status := Tombstoned(generation)))
      ensures forall other :: other != id ==> Lookup(records, other) == Lookup(old(records), other)
    {
      var i := Position(records, id);
      if i == |records| {
        return Err(UnknownMemoryId(id));
      }
      match Tombstone(records[i], generation)
      case Err(e) => result := Err(e);
      case Ok(r) =>
        ghost var before := records;
        assert Put(before, r) == Ok(before[i := r]);
        forall other: Text
          ensures Lookup(before[i := r], other) == if other == id then Some(r) else Lookup(before, other)
        {
          PutMeaning(before, r, other);
        }
        PutAscending(before, r);
        records := records[i := r];
        result := Ok(());
    }

    /** Removes exactly the purgeable records and says how many there were. */
    method PurgePurgeableAt(now: U64) returns (removed: nat)
      requires Valid()
      modifies this
      ensures Valid()
      ensures removed == |old(records)| - |records|
      ensures forall id :: Lookup(records, id) == Spared(Lookup(old(records), id), now)
    {
      var kept: seq<Record> := [];
      for i := 0 to |records|
        invariant kept == Unpurgeable(records[..i], now) && records == old(records)
      {
        assert records[..i + 1][..i] == records[..i];
        if !PurgeableAt(records[i], now) {
          kept := kept + [records[i]];
        }
      }
      assert records[..|records|] == records;
      UnpurgeableMeaning(records, now);
      removed := |records| - |kept|;
      records := kept;
    }

    /** Encodes the store record by record. */
    method Encode() returns (out: seq<Byte>)
      ensures out == Encoded(records)
    {
      hide WriteRecord, Header, WriteRecords;
      out := Header(|records|, []);
      assert records[0..] == records;
      HeaderAppend(|records|, WriteRecords(records, []));
      for i := 0 to |records|
        invariant out + WriteRecords(records[i..], []) == Encoded(records)
      {
        NextRecord(out, records[i..]);
        assert records[i..][1..] == records[i + 1..];
        out := out + WriteRecord(records[i], []);
      }
      NoRecords(out, records[|records|..]);
    }
  }

  lemma NoRecords(out: Input, s: seq<Record>)
    requires s == []
    ensures out + WriteRecords(s, []) == out
  {
  }

  lemma NextRecord(out: Input, s: seq<Record>)
    requires s != []
    ensures out + WriteRecord(s[0], []) + WriteRecords(s[1..], []) == out + WriteRecords(s, [])
  {
    hide WriteRecord;
    var tail := WriteRecords(s[1..], []);
    RecordAppend(s[0], [], tail);
    assert [] + tail == tail;
    assert out + WriteRecord(s[0], []) + tail == out + (WriteRecord(s[0], []) + tail);
  }

  lemma HeaderAppend(count: nat, b: Input)
    ensures Header(count, []) + b == Header(count, b)
  {
    var n := count % 0x1_0000_0000_0000_0000;
    U64Append(n, [], b);
    U32Append(VERSION, WriteU64(n, []), b);
    assert [] + b == b;
    hide WriteU32, WriteU64;
  }

  /** Loads a store under the given budgets, record by record. */
  method Decode(b: seq<Byte>, limits: LoadLimits) returns (result: Result<seq<Record>, IoError>)
    ensures result == Decoded(b, limits)
  {
    hide ReadHeader, ReadRecord, Put;
    var header := ReadHeader(b, limits);
    if header.Err? {
      return Err(header.error);
    }
    var (count, r) := header.value;
    var store: seq<Record>, used: nat, n := [], 0, count;
    while n > 0
      invariant 0 <= n <= count
      invariant ReadInto(store, n, r, used, limits) == ReadInto([], count, header.value.1, 0, limits)
    {
      var read := ReadRecord(r, used, limits);
      if read.Err? {
        return Err(read.error);
      }
      var x := read.value.0;
      match Put(store, x) {
        case Err(_) =>
          return Err(InvalidData);
        case Ok(s) =>
          store := s;
      }
      r, used, n := read.value.1, used + |x.payload|, n - 1;
    }
    result := if r != [] then Err(InvalidData) else Ok(store);
  }
}
