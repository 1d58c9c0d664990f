/** The simple disk cache's index file: a pickle holding an 8-byte header
    (payload size and CRC-32 of the payload), the index metadata (magic number,
    version, entry count, cache size) and one (hash, entry metadata) record per
    cache entry; how such a file is read back and checked; how the index is
    rebuilt from the entry files on disk when it cannot be used; and the
    staleness rule that decides whether the file may be trusted.

    Pickle words are little-endian and 4-byte aligned; every word written here
    is 4 or 8 bytes wide, so no padding ever appears. */
module SimpleIndexFile {
  import opened Wrappers

  type byte = x: int | 0 <= x < 256
  type uint32 = x: int | 0 <= x < 0x1_0000_0000
  type uint64 = x: int | 0 <= x < 0x1_0000_0000_0000_0000
  type int64 = x: int | -0x8000_0000_0000_0000 <= x < 0x8000_0000_0000_0000

  const TWO_32: nat := 0x1_0000_0000
  const TWO_64: nat := 0x1_0000_0000_0000_0000

  /** An index declaring more entries than this is refused as corrupt. */
  const kMaxEntriesInIndex: uint64 := 100000000
  /** Values defined in headers that are not part of this model; no proof here
      depends on them. */
  const kSimpleIndexMagicNumber: uint64 := 0x656e74657220796f
  const kSimpleVersion: uint32 := 4

  /** Sizes in bytes of the pickle header, of the serialized index metadata and
      of one serialized (hash, entry metadata) record. */
  const kHeaderSize: nat := 8
  const kMetadataSize: nat := 28
  const kRecordSize: nat := 24

  // ---------------------------------------------------------------------------
  // Little-endian words

  function Pow256(n: nat): (p: nat)
    ensures p >= 1
  {
    if n == 0 then 1 else 256 * Pow256(n - 1)
  }

  lemma WordBounds()
    ensures Pow256(4) == TWO_32 && Pow256(8) == TWO_64
  {
    assert Pow256(2) == 65536;
    assert Pow256(4) == 65536 * 65536;
    assert Pow256(8) == Pow256(4) * Pow256(4) by {
      assert Pow256(5) == 256 * Pow256(4);
      assert Pow256(6) == 256 * Pow256(5);
      assert Pow256(7) == 256 * Pow256(6);
    }
  }

  /** The n least significant bytes of x, least significant first. */
  function EncodeLE(x: nat, n: nat): (r: seq<byte>)
    requires x < Pow256(n)
    ensures |r| == n
  {
    if n == 0 then [] else [x % 256] + EncodeLE(x / 256, n - 1)
  }

  function DecodeLE(s: seq<byte>): (x: nat)
    ensures x < Pow256(|s|)
  {
    if s == [] then 0 else s[0] + 256 * DecodeLE(s[1..])
  }

  lemma {:induction false} DecodeEncodeLE(x: nat, n: nat)
    requires x < Pow256(n)
    ensures DecodeLE(EncodeLE(x, n)) == x
  {
    if n > 0 {
      var r := EncodeLE(x, n);
      assert r[1..] == EncodeLE(x / 256, n - 1);
      DecodeEncodeLE(x / 256, n - 1);
    }
  }

  function U32(x: uint32): (r: seq<byte>)
    ensures |r| == 4
  {
    WordBounds();
    EncodeLE(x, 4)
  }

  function U64(x: uint64): (r: seq<byte>)
    ensures |r| == 8
  {
    WordBounds();
    EncodeLE(x, 8)
  }

  /** PickleIterator::ReadUInt32 / ReadUInt64 on a slice that holds the word. */
  function ReadU32(s: seq<byte>): (x: uint32)
    requires |s| == 4
  {
    WordBounds();
    DecodeLE(s)
  }

  function ReadU64(s: seq<byte>): (x: uint64)
    requires |s| == 8
  {
    WordBounds();
    DecodeLE(s)
  }

  lemma ReadU32OfU32(x: uint32)
    ensures ReadU32(U32(x)) == x
  {
    WordBounds();
    DecodeEncodeLE(x, 4);
  }

  lemma ReadU64OfU64(x: uint64)
    ensures ReadU64(U64(x)) == x
  {
    WordBounds();
    DecodeEncodeLE(x, 8);
  }

  /** Two's-complement view of an int64 as the uint64 the pickle stores, and back. */
  function ToUnsigned(x: int64): uint64
  {
    if x >= 0 then x else x + TWO_64
  }

  function ToSigned(x: uint64): int64
  {
    if x < 0x8000_0000_0000_0000 then x else x - TWO_64
  }

  // ---------------------------------------------------------------------------
  // Entry metadata and the entry set

  /** What the index keeps per entry: the last-used time (an internal time
      value) and the total size of the entry's files. */
  datatype EntryMetadata = EntryMetadata(lastUsedTime: int64, entrySize: uint64)

  type EntrySet = map<uint64, EntryMetadata>

  function SerializeEntryMetadata(e: EntryMetadata): (r: seq<byte>)
    ensures |r| == 16
  {
    U64(ToUnsigned(e.lastUsedTime)) + U64(e.entrySize)
  }

  /** SimpleIndex::InsertInEntrySet: a hash_map insert, which keeps the value
      already stored under the hash. */
  function InsertInEntrySet(hash: uint64, e: EntryMetadata, entries: EntrySet): EntrySet
  {
    if hash in entries then entries else entries[hash := e]
  }

  // ---------------------------------------------------------------------------
  // Index metadata

  datatype IndexMetadata = IndexMetadata(magicNumber: uint64, version: uint32,
                                         numberOfEntries: uint64, cacheSize: uint64)

  /** The metadata SimpleIndexFile::WriteToDisk builds for an entry set. */
  function NewIndexMetadata(numberOfEntries: uint64, cacheSize: uint64): IndexMetadata
  {
    IndexMetadata(kSimpleIndexMagicNumber, kSimpleVersion, numberOfEntries, cacheSize)
  }

  function SerializeMetadata(m: IndexMetadata): (r: seq<byte>)
    ensures |r| == kMetadataSize
  {
    U64(m.magicNumber) + U32(m.version) + U64(m.numberOfEntries) + U64(m.cacheSize)
  }

  /** Reads the four metadata words from the front of a payload; fails exactly
      when the payload is too short for one of the reads. */
  function DeserializeMetadata(payload: seq<byte>): (r: Option<IndexMetadata>)
    ensures r.Some? <==> |payload| >= kMetadataSize
  {
    if |payload| < kMetadataSize then None
    else Some(IndexMetadata(ReadU64(payload[0..8]), ReadU32(payload[8..12]),
                            ReadU64(payload[12..20]), ReadU64(payload[20..28])))
  }

  predicate CheckIndexMetadata(m: IndexMetadata)
  {
    m.numberOfEntries <= kMaxEntriesInIndex &&
    m.magicNumber == kSimpleIndexMagicNumber &&
    m.version == kSimpleVersion
  }

  /** Whatever follows the metadata, reading it back yields the metadata written. */
  lemma MetadataRoundTrip(m: IndexMetadata, rest: seq<byte>)
    ensures DeserializeMetadata(SerializeMetadata(m) + rest) == Some(m)
  {
    var p := SerializeMetadata(m) + rest;
    assert p[0..8] == U64(m.magicNumber);
    assert p[8..12] == U32(m.version);
    assert p[12..20] == U64(m.numberOfEntries);
    assert p[20..28] == U64(m.cacheSize);
    ReadU64OfU64(m.magicNumber);
    ReadU32OfU32(m.version);
    ReadU64OfU64(m.numberOfEntries);
    ReadU64OfU64(m.cacheSize);
  }

  /** Metadata fresh from WriteToDisk passes the check exactly when the entry
      count is within the limit. */
  lemma NewMetadataChecks(n: uint64, cacheSize: uint64)
    ensures CheckIndexMetadata(NewIndexMetadata(n, cacheSize)) <==> n <= kMaxEntriesInIndex
  {
  }

  // ---------------------------------------------------------------------------
  // The pickle frame

  /** A pickle as written to disk: payload size and CRC in the header, then the
      payload. The size field is a uint32 and wraps like one. */
  function Frame(payload: seq<byte>, crc: seq<byte> -> uint32): (r: seq<byte>)
    ensures |r| == kHeaderSize + |payload| && r[kHeaderSize..] == payload
  {
    U32(|payload| % TWO_32) + U32(crc(payload)) + payload
  }

  /** The payload of the data read from disk, or None when the header does not
      describe the data (Pickle::data() is null). */
  function PicklePayload(data: seq<byte>): (r: Option<seq<byte>>)
    ensures r.Some? ==> |data| >= kHeaderSize && r.value == data[kHeaderSize..]
  {
    if |data| < kHeaderSize || ReadU32(data[..4]) != |data| - kHeaderSize then None
    else Some(data[kHeaderSize..])
  }

  /** The CRC stored in the header. */
  function StoredCrc(data: seq<byte>): uint32
    requires |data| >= kHeaderSize
  {
    ReadU32(data[4..8])
  }

  // ---------------------------------------------------------------------------
  // Serialization of the entries

  /** The records of the entries in the given iteration order. */
  function SerializeEntries(order: seq<uint64>, entries: EntrySet): (r: seq<byte>)
    requires forall i :: 0 <= i < |order| ==> order[i] in entries
    ensures |r| == kRecordSize * |order|
  {
    if order == [] then []
    else U64(order[0]) + SerializeEntryMetadata(entries[order[0]]) + SerializeEntries(order[1..], entries)
  }

  /** `order` lists every hash of the set exactly once, as iterating the hash
      map does. */
  ghost predicate IsIterationOrder(order: seq<uint64>, entries: EntrySet)
  {
    (forall i, j :: 0 <= i < j < |order| ==> order[i] != order[j]) &&
    (forall i :: 0 <= i < |order| ==> order[i] in entries) &&
    (forall h :: h in entries ==> h in order)
  }

  /** The whole payload SimpleIndexFile::Serialize writes for the given order. */
  function SerializedPayload(m: IndexMetadata, order: seq<uint64>, entries: EntrySet): seq<byte>
    requires forall i :: 0 <= i < |order| ==> order[i] in entries
  {
    SerializeMetadata(m) + SerializeEntries(order, entries)
  }

  // ---------------------------------------------------------------------------
  // Deserialization

  /** The result record SimpleIndexFile fills in. */
  datatype LoadResult = LoadResult(didLoad: bool, flushRequired: bool, entries: EntrySet)

  /** The state SimpleIndexLoadResult::Reset leaves behind. */
  const NotLoaded := LoadResult(false, false, map[])

  /** One record read from the front of the remaining payload. */
  function RecordHash(rest: seq<byte>): uint64
    requires |rest| >= kRecordSize
  {
    ReadU64(rest[..8])
  }

  function RecordMetadata(rest: seq<byte>): EntryMetadata
    requires |rest| >= kRecordSize
  {
    EntryMetadata(ToSigned(ReadU64(rest[8..16])), ReadU64(rest[16..24]))
  }

  /** The loop of SimpleIndexFile::Deserialize: read records while the set holds
      fewer entries than declared; a record that cannot be read fails the
      whole load. */
  function ReadEntries(rest: seq<byte>, count: nat, acc: EntrySet): Option<EntrySet>
    decreases |rest|
  {
    if |acc| >= count then Some(acc)
    else if |rest| < kRecordSize then None
    else ReadEntries(rest[kRecordSize..], count,
                     InsertInEntrySet(RecordHash(rest), RecordMetadata(rest), acc))
  }

  /** SimpleIndexFile::Deserialize as a function of the file's bytes: every
      failure leaves the result as Reset left it. */
  function DeserializeIndex(data: seq<byte>, crc: seq<byte> -> uint32): (r: LoadResult)
    ensures !r.flushRequired
    ensures !r.didLoad ==> r == NotLoaded
  {
    match PicklePayload(data)
    case None => NotLoaded
    case Some(payload) =>
      if StoredCrc(data) != crc(payload) then NotLoaded
      else match DeserializeMetadata(payload)
        case None => NotLoaded
        case Some(m) =>
          if !CheckIndexMetadata(m) then NotLoaded
          else match ReadEntries(payload[kMetadataSize..], m.numberOfEntries, map[])
            case None => NotLoaded
            case Some(entries) => LoadResult(true, false, entries)
  }

  /** Reading stops exactly at the declared count. */
  lemma {:induction false} ReadEntriesCount(rest: seq<byte>, count: nat, acc: EntrySet)
    requires |acc| <= count
    requires ReadEntries(rest, count, acc).Some?
    ensures |ReadEntries(rest, count, acc).value| == count
    ensures acc.Keys <= ReadEntries(rest, count, acc).value.Keys
    decreases |rest|
  {
    if |acc| < count {
      ReadEntriesCount(rest[kRecordSize..], count,
                       InsertInEntrySet(RecordHash(rest), RecordMetadata(rest), acc));
    }
  }

  /** Each entry still to be read needs a whole record: a payload cut short
      of count - |acc| records cannot load. */
  lemma {:induction false} ReadEntriesNeedsRecords(rest: seq<byte>, count: nat, acc: EntrySet)
    requires |acc| <= count
    requires ReadEntries(rest, count, acc).Some?
    ensures |rest| >= kRecordSize * (count - |acc|)
    decreases |rest|
  {
    if |acc| < count {
      var acc' := InsertInEntrySet(RecordHash(rest), RecordMetadata(rest), acc);
      ReadEntriesNeedsRecords(rest[kRecordSize..], count, acc');
    }
  }

  /** A successful load passed every check, and holds exactly the declared
      number of entries, each of which had a whole record in the file. */
  lemma LoadedMeansChecked(data: seq<byte>, crc: seq<byte> -> uint32)
    requires DeserializeIndex(data, crc).didLoad
    ensures PicklePayload(data).Some?
    ensures StoredCrc(data) == crc(data[kHeaderSize..])
    ensures DeserializeMetadata(data[kHeaderSize..]).Some?
    ensures var m := DeserializeMetadata(data[kHeaderSize..]).value;
            CheckIndexMetadata(m) &&
            |DeserializeIndex(data, crc).entries| == m.numberOfEntries &&
            |data| >= kHeaderSize + kMetadataSize + kRecordSize * m.numberOfEntries
  {
    var payload := data[kHeaderSize..];
    var m := DeserializeMetadata(payload).value;
    ReadEntriesCount(payload[kMetadataSize..], m.numberOfEntries, map[]);
    ReadEntriesNeedsRecords(payload[kMetadataSize..], m.numberOfEntries, map[]);
  }

  /** The set of hashes an order lists. */
  ghost function Elems(order: seq<uint64>): set<uint64>
  {
    if order == [] then {} else {order[0]} + Elems(order[1..])
  }

  /** No hash is listed twice. */
  ghost predicate NoDup(order: seq<uint64>)
  {
    order == [] || (order[0] !in Elems(order[1..]) && NoDup(order[1..]))
  }

  lemma {:induction false} ElemsMembership(order: seq<uint64>, h: uint64)
    ensures h in Elems(order) <==> h in order
  {
    if order != [] {
      ElemsMembership(order[1..], h);
      assert order == [order[0]] + order[1..];
    }
  }

  lemma {:induction false} NoDupCard(order: seq<uint64>)
    requires NoDup(order)
    ensures |Elems(order)| == |order|
  {
    if order != [] {
      NoDupCard(order[1..]);
    }
  }

  lemma {:induction false} DistinctNoDup(order: seq<uint64>)
    requires forall i, j :: 0 <= i < j < |order| ==> order[i] != order[j]
    ensures NoDup(order)
  {
    if order != [] {
      var tail := order[1..];
      assert forall k :: 0 <= k < |tail| ==> tail[k] == order[k + 1] != order[0];
      ElemsMembership(tail, order[0]);
      DistinctNoDup(tail);
    }
  }

  /** A record written for (h, e) reads back as (h, e) and is exactly one
      record long. */
  lemma RecordRoundTrip(h: uint64, e: EntryMetadata, tail: seq<byte>)
    ensures var rest := U64(h) + SerializeEntryMetadata(e) + tail;
            |rest| >= kRecordSize && RecordHash(rest) == h && RecordMetadata(rest) == e &&
            rest[kRecordSize..] == tail
  {
    var rest := U64(h) + SerializeEntryMetadata(e) + tail;
    assert rest[..8] == U64(h);
    assert rest[8..16] == U64(ToUnsigned(e.lastUsedTime));
    assert rest[16..24] == U64(e.entrySize);
    ReadU64OfU64(h);
    ReadU64OfU64(ToUnsigned(e.lastUsedTime));
    ReadU64OfU64(e.entrySize);
  }

  /** ReadEntries over records that are already decoded: the map-level view of
      reading back the records of `order`. */
  ghost function InsertAll(order: seq<uint64>, entries: EntrySet, count: nat, acc: EntrySet): Option<EntrySet>
    requires Elems(order) <= entries.Keys
  {
    if |acc| >= count then Some(acc)
    else if order == [] then None
    else InsertAll(order[1..], entries, count, InsertInEntrySet(order[0], entries[order[0]], acc))
  }

  lemma {:induction false} IndexedElems(order: seq<uint64>, entries: EntrySet)
    requires forall i :: 0 <= i < |order| ==> order[i] in entries
    ensures Elems(order) <= entries.Keys
  {
    forall h | h in Elems(order) ensures h in entries {
      ElemsMembership(order, h);
    }
  }

  /** The first record of a serialized order reads back as its first entry. */
  lemma ReadFirstRecord(order: seq<uint64>, entries: EntrySet, count: nat, acc: EntrySet)
    requires order != [] && |acc| < count
    requires forall i :: 0 <= i < |order| ==> order[i] in entries
    ensures ReadEntries(SerializeEntries(order, entries), count, acc)
            == ReadEntries(SerializeEntries(order[1..], entries), count,
                           InsertInEntrySet(order[0], entries[order[0]], acc))
  {
    var h := order[0];
    var rest := SerializeEntries(order, entries);
    var restTail := SerializeEntries(order[1..], entries);
    assert rest == U64(h) + SerializeEntryMetadata(entries[h]) + restTail;
    RecordRoundTrip(h, entries[h], restTail);
  }

  /** Reading serialized records is inserting the entries they were written
      from, one by one. */
  lemma {:induction false} ReadEntriesOfSerialized(order: seq<uint64>, entries: EntrySet, count: nat, acc: EntrySet)
    requires forall i :: 0 <= i < |order| ==> order[i] in entries
    ensures Elems(order) <= entries.Keys
    ensures ReadEntries(SerializeEntries(order, entries), count, acc) == InsertAll(order, entries, count, acc)
    decreases |order|
  {
    IndexedElems(order, entries);
    if |acc| < count && order != [] {
      ReadFirstRecord(order, entries, count, acc);
      ReadEntriesOfSerialized(order[1..], entries, count, InsertInEntrySet(order[0], entries[order[0]], acc));
    }
  }

  /** One step of inserting distinct hashes: the first is new to the set,
      and the rest stay distinct and new. */
  lemma InsertAllStep(order: seq<uint64>, entries: EntrySet, acc: EntrySet)
    requires order != []
    requires Elems(order) <= entries.Keys && NoDup(order) && Elems(order) !! acc.Keys
    ensures order[0] !in acc && order[0] in entries
    ensures var acc' := acc[order[0] := entries[order[0]]];
            Elems(order[1..]) <= entries.Keys && NoDup(order[1..]) && Elems(order[1..]) !! acc'.Keys &&
            |acc'| == |acc| + 1
  {
    var h, tail := order[0], order[1..];
    assert Elems(order) == {h} + Elems(tail);
    var acc' := acc[h := entries[h]];
    assert acc'.Keys == acc.Keys + {h};
  }

  /** Below the count, InsertAll inserts the first hash and goes on. */
  lemma InsertAllUnfold(order: seq<uint64>, entries: EntrySet, acc: EntrySet, count: nat)
    requires order != [] && |acc| < count
    requires Elems(order) <= entries.Keys && Elems(order[1..]) <= entries.Keys
    requires order[0] !in acc && order[0] in entries
    ensures InsertAll(order, entries, count, acc)
            == InsertAll(order[1..], entries, count, acc[order[0] := entries[order[0]]])
  {
    assert InsertInEntrySet(order[0], entries[order[0]], acc) == acc[order[0] := entries[order[0]]];
  }

  /** Inserting distinct hashes not yet in the set never stops short of the
      count. */
  lemma {:induction false} InsertAllLoads(order: seq<uint64>, entries: EntrySet, acc: EntrySet, count: nat)
    requires count == |acc| + |order|
    requires Elems(order) <= entries.Keys && NoDup(order) && Elems(order) !! acc.Keys
    ensures InsertAll(order, entries, count, acc).Some?
    decreases |order|
  {
    if order != [] {
      var acc' := acc[order[0] := entries[order[0]]];
      InsertAllStep(order, entries, acc);
      InsertAllUnfold(order, entries, acc, count);
      InsertAllLoads(order[1..], entries, acc', count);
    }
  }

  /** ... and adds exactly those entries, keeping the ones already there
      (stated key by key). */
  lemma {:induction false} InsertAllDistinct(order: seq<uint64>, entries: EntrySet, acc: EntrySet, count: nat, k: uint64)
    requires count == |acc| + |order|
    requires Elems(order) <= entries.Keys && NoDup(order) && Elems(order) !! acc.Keys
    requires InsertAll(order, entries, count, acc).Some?
    ensures var r := InsertAll(order, entries, count, acc).value;
            (k in r <==> k in acc || k in Elems(order)) &&
            (k in r ==> r[k] == if k in acc then acc[k] else entries[k])
    decreases |order|
  {
    if order != [] {
      var acc' := acc[order[0] := entries[order[0]]];
      InsertAllStep(order, entries, acc);
      InsertAllUnfold(order, entries, acc, count);
      InsertAllDistinct(order[1..], entries, acc', count, k);
    }
  }

  /** The round trip: whatever order the hash map is iterated in, reading back
      the index WriteToDisk serializes for an entry set within the limit loads
      exactly that entry set. */
  lemma IndexRoundTrip(entries: EntrySet, order: seq<uint64>, cacheSize: uint64,
                       crc: seq<byte> -> uint32)
    requires IsIterationOrder(order, entries)
    requires |entries| <= kMaxEntriesInIndex
    ensures var m := NewIndexMetadata(|entries|, cacheSize);
            DeserializeIndex(Frame(SerializedPayload(m, order, entries), crc), crc)
            == LoadResult(true, false, entries)
  {
    var m := NewIndexMetadata(|entries|, cacheSize);
    var body := SerializeEntries(order, entries);
    var payload := SerializedPayload(m, order, entries);
    var data := Frame(payload, crc);
    OrderCoversEntries(order, entries);
    FrameRoundTrip(payload, crc);
    MetadataRoundTrip(m, body);
    assert payload[kMetadataSize..] == body;
    ReadEntriesOfSerialized(order, entries, |order|, map[]);
    InsertAllOfOrder(order, entries);
  }

  /** Inserting every entry of the set, in an iteration order, into an empty
      set rebuilds the set. */
  lemma InsertAllOfOrder(order: seq<uint64>, entries: EntrySet)
    requires Elems(order) == entries.Keys && NoDup(order) && |order| == |entries|
    ensures InsertAll(order, entries, |order|, map[]) == Some(entries)
  {
    var empty: EntrySet := map[];
    InsertAllLoads(order, entries, empty, |order|);
    var r := InsertAll(order, entries, |order|, empty).value;
    forall k ensures (k in r <==> k in entries) && (k in r ==> r[k] == entries[k]) {
      InsertAllDistinct(order, entries, empty, |order|, k);
    }
    SameEntries(r, entries);
  }

  lemma SameEntries(r: EntrySet, s: EntrySet)
    requires forall k :: (k in r <==> k in s) && (k in r ==> r[k] == s[k])
    ensures r == s
  {
  }

  /** The header written for a payload of less than 4 GiB describes it. */
  lemma FrameRoundTrip(payload: seq<byte>, crc: seq<byte> -> uint32)
    requires |payload| < TWO_32
    ensures PicklePayload(Frame(payload, crc)) == Some(payload)
    ensures StoredCrc(Frame(payload, crc)) == crc(payload)
  {
    FrameHeader(payload, crc);
  }

  /** The two header words of a frame. */
  lemma FrameHeader(payload: seq<byte>, crc: seq<byte> -> uint32)
    requires |payload| < TWO_32
    ensures ReadU32(Frame(payload, crc)[..4]) == |payload|
    ensures ReadU32(Frame(payload, crc)[4..8]) == crc(payload)
  {
    var a, b := U32(|payload|), U32(crc(payload));
    assert Frame(payload, crc) == a + b + payload by {
      assert |payload| % TWO_32 == |payload|;
    }
    HeaderFields(a, b, payload);
    ReadU32OfU32(|payload|);
    ReadU32OfU32(crc(payload));
  }

  lemma HeaderFields(a: seq<byte>, b: seq<byte>, p: seq<byte>)
    requires |a| == 4 && |b| == 4
    ensures (a + b + p)[..4] == a && (a + b + p)[4..8] == b
  {
  }

  /** An iteration order has one element per entry, and no duplicates. */
  lemma OrderCoversEntries(order: seq<uint64>, entries: EntrySet)
    requires IsIterationOrder(order, entries)
    ensures Elems(order) == entries.Keys && |order| == |entries| && NoDup(order)
  {
    forall h ensures h in Elems(order) <==> h in entries {
      ElemsMembership(order, h);
    }
    DistinctNoDup(order);
    NoDupCard(order);
  }

  // ---------------------------------------------------------------------------
  // The load result record and the operations that fill it

  /** SimpleIndexLoadResult: filled in place by the load, the deserializer and
      the restore pass. */
  class SimpleIndexLoadResult {
    var didLoad: bool
    var flushRequired: bool
    var entries: EntrySet

    function Value(): LoadResult
      reads this
    {
      LoadResult(didLoad, flushRequired, entries)
    }

    constructor ()
      ensures Value() == NotLoaded
    {
      didLoad, flushRequired, entries := false, false, map[];
    }

    method Reset()
      modifies this
      ensures Value() == NotLoaded
    {
      didLoad := false;
      flushRequired := false;
      entries := map[];
    }
  }

  /** SimpleIndexFile::Serialize: the metadata, then one record per entry in the
      hash map's iteration order, framed with the payload's CRC. */
  method Serialize(m: IndexMetadata, entries: EntrySet, crc: seq<byte> -> uint32)
    returns (data: seq<byte>)
    ensures exists order :: IsIterationOrder(order, entries) &&
                            data == Frame(SerializedPayload(m, order, entries), crc)
  {
    var payload := SerializeMetadata(m);
    var remaining := entries.Keys;
    ghost var order: seq<uint64> := [];
    while remaining != {}
      invariant remaining <= entries.Keys
      invariant forall i :: 0 <= i < |order| ==> order[i] in entries && order[i] !in remaining
      invariant forall i, j :: 0 <= i < j < |order| ==> order[i] != order[j]
      invariant forall h :: h in entries ==> h in remaining || h in order
      invariant payload == SerializedPayload(m, order, entries)
      decreases remaining
    {
      var h :| h in remaining;
      payload := payload + U64(h) + SerializeEntryMetadata(entries[h]);
      SerializeEntriesSnoc(order, h, entries);
      order := order + [h];
      remaining := remaining - {h};
    }
    data := Frame(payload, crc);
  }

  lemma {:induction false} SerializeEntriesSnoc(order: seq<uint64>, h: uint64, entries: EntrySet)
    requires forall i :: 0 <= i < |order| ==> order[i] in entries
    requires h in entries
    ensures SerializeEntries(order + [h], entries)
            == SerializeEntries(order, entries) + U64(h) + SerializeEntryMetadata(entries[h])
    decreases |order|
  {
    if order != [] {
      assert (order + [h])[1..] == order[1..] + [h];
      SerializeEntriesSnoc(order[1..], h, entries);
    }
  }

  /** SimpleIndexFile::Deserialize: resets the result first, then fills it
      record by record; a record that cannot be read clears what was read. */
  method Deserialize(data: seq<byte>, crc: seq<byte> -> uint32, out: SimpleIndexLoadResult)
    modifies out
    ensures out.Value() == DeserializeIndex(data, crc)
  {
    out.Reset();
    var framed := PicklePayload(data);
    if framed.None? {
      return;
    }
    var payload := framed.value;
    if StoredCrc(data) != crc(payload) {
      return;
    }
    var metadata := DeserializeMetadata(payload);
    if metadata.None? || !CheckIndexMetadata(metadata.value) {
      return;
    }
    var count := metadata.value.numberOfEntries;
    var pos := kMetadataSize;
    while |out.entries| < count
      invariant kMetadataSize <= pos <= |payload|
      invariant ReadEntries(payload[pos..], count, out.entries)
                == ReadEntries(payload[kMetadataSize..], count, map[])
      invariant !out.didLoad && !out.flushRequired
      decreases |payload| - pos
    {
      if |payload| - pos < kRecordSize {
        out.entries := map[];
        return;
      }
      var rest := payload[pos..];
      out.entries := InsertInEntrySet(RecordHash(rest), RecordMetadata(rest), out.entries);
      assert payload[pos + kRecordSize..] == rest[kRecordSize..];
      pos := pos + kRecordSize;
    }
    out.didLoad := true;
  }

  // ---------------------------------------------------------------------------
  // Restoring the index from the entry files

  /** What the directory enumeration reports of one file: its base name, the
      access and modification times (internal values, 0 for a null time) and
      its size. */
  datatype FileInfo = FileInfo(baseName: string, accessTime: int64, modifiedTime: int64, size: int64)

  /** The enumeration pattern "*_[0-2]". */
  predicate MatchesEntryFilePattern(name: string)
  {
    |name| >= 2 && name[|name| - 2] == '_' && name[|name| - 1] in {'0', '1', '2'}
  }

  /** The last-used time of an entry file: its access time, or its
      modification time when the access time is null. */
  function LastUsedTime(f: FileInfo): int64
  {
    if f.accessTime == 0 then f.modifiedTime else f.accessTime
  }

  /** The hash an enumerated file belongs to: the name without its "_N" suffix,
      parsed by simple_util's hex parser (a parameter here). */
  function FileHash(f: FileInfo, parseHashKey: string -> Option<uint64>): Option<uint64>
  {
    if !MatchesEntryFilePattern(f.baseName) then None
    else parseHashKey(f.baseName[..|f.baseName| - 2])
  }

  /** One step of the restore loop. */
  function RestoreStep(entries: EntrySet, f: FileInfo, parseHashKey: string -> Option<uint64>): EntrySet
  {
    match FileHash(f, parseHashKey)
    case None => entries
    case Some(h) =>
      if h !in entries then InsertInEntrySet(h, EntryMetadata(LastUsedTime(f), ToUnsigned(f.size)), entries)
      else entries[h := entries[h].(entrySize := (entries[h].entrySize + ToUnsigned(f.size)) % TWO_64)]
  }

  /** The entry set the restore pass builds from the enumerated files. */
  function RestoredEntries(files: seq<FileInfo>, parseHashKey: string -> Option<uint64>): EntrySet
  {
    if files == [] then map[]
    else RestoreStep(RestoredEntries(files[..|files| - 1], parseHashKey), files[|files| - 1], parseHashKey)
  }

  /** Sum of the sizes (as uint64) of the files of one hash. */
  function SizeSum(files: seq<FileInfo>, h: uint64, parseHashKey: string -> Option<uint64>): nat
  {
    if files == [] then 0
    else SizeSum(files[..|files| - 1], h, parseHashKey) +
         (if FileHash(files[|files| - 1], parseHashKey) == Some(h) then ToUnsigned(files[|files| - 1].size) else 0)
  }

  /** The restored set has an entry for exactly the hashes of the entry files
      with a valid name. */
  lemma {:induction false} RestoredKeys(files: seq<FileInfo>, parseHashKey: string -> Option<uint64>, h: uint64)
    ensures h in RestoredEntries(files, parseHashKey) <==>
            exists i :: 0 <= i < |files| && FileHash(files[i], parseHashKey) == Some(h)
  {
    if files != [] {
      var init := files[..|files| - 1];
      RestoredKeys(init, parseHashKey, h);
      if exists i :: 0 <= i < |init| && FileHash(init[i], parseHashKey) == Some(h) {
        var i :| 0 <= i < |init| && FileHash(init[i], parseHashKey) == Some(h);
        assert files[i] == init[i];
      }
      if exists i :: 0 <= i < |files| && FileHash(files[i], parseHashKey) == Some(h) {
        var i :| 0 <= i < |files| && FileHash(files[i], parseHashKey) == Some(h);
        if i < |files| - 1 {
          assert init[i] == files[i];
        }
      }
    }
  }

  /** Each restored entry's size is the sum of its files' sizes, wrapped to
      64 bits as the uint64 addition does. */
  lemma {:induction false} RestoredSize(files: seq<FileInfo>, parseHashKey: string -> Option<uint64>, h: uint64)
    requires h in RestoredEntries(files, parseHashKey)
    ensures RestoredEntries(files, parseHashKey)[h].entrySize == SizeSum(files, h, parseHashKey) % TWO_64
  {
    var init := files[..|files| - 1];
    var f := files[|files| - 1];
    var before := RestoredEntries(init, parseHashKey);
    if h in before {
      RestoredSize(init, parseHashKey, h);
      if FileHash(f, parseHashKey) == Some(h) {
        ModAdd(SizeSum(init, h, parseHashKey), ToUnsigned(f.size));
      }
    } else {
      RestoredKeys(init, parseHashKey, h);
      SizeSumAbsent(init, h, parseHashKey);
    }
  }

  lemma {:induction false} SizeSumAbsent(files: seq<FileInfo>, h: uint64, parseHashKey: string -> Option<uint64>)
    requires forall i :: 0 <= i < |files| ==> FileHash(files[i], parseHashKey) != Some(h)
    ensures SizeSum(files, h, parseHashKey) == 0
  {
    if files != [] {
      var init := files[..|files| - 1];
      assert forall i :: 0 <= i < |init| ==> init[i] == files[i];
      SizeSumAbsent(init, h, parseHashKey);
    }
  }

  lemma ModAdd(a: nat, b: nat)
    ensures (a % TWO_64 + b) % TWO_64 == (a + b) % TWO_64
  {
    var q := a / TWO_64;
    assert a == q * TWO_64 + a % TWO_64;
    assert a + b == q * TWO_64 + (a % TWO_64 + b);
  }

  /** SimpleIndexFile::SyncRestoreFromDisk: rebuilds the entry set from the
      enumerated files (summing the sizes of the files of one entry), then
      marks the result loaded and in need of a flush. */
  method SyncRestoreFromDisk(files: seq<FileInfo>, parseHashKey: string -> Option<uint64>,
                             out: SimpleIndexLoadResult)
    modifies out
    ensures out.Value() == LoadResult(true, true, RestoredEntries(files, parseHashKey))
  {
    out.Reset();
    var i := 0;
    while i < |files|
      invariant 0 <= i <= |files|
      invariant out.entries == RestoredEntries(files[..i], parseHashKey)
    {
      var f := files[i];
      ghost var before := out.entries;
      if MatchesEntryFilePattern(f.baseName) {
        var key := parseHashKey(f.baseName[..|f.baseName| - 2]);
        if key.Some? {
          var h := key.value;
          if h !in out.entries {
            out.entries := InsertInEntrySet(h, EntryMetadata(LastUsedTime(f), ToUnsigned(f.size)), out.entries);
          } else {
            var size := (out.entries[h].entrySize + ToUnsigned(f.size)) % TWO_64;
            out.entries := out.entries[h := out.entries[h].(entrySize := size)];
          }
        }
      }
      assert out.entries == RestoreStep(before, f, parseHashKey);
      assert files[..i + 1][..i] == files[..i];
      i := i + 1;
    }
    assert files[..i] == files;
    out.didLoad := true;
    out.flushRequired := true;
  }

  // ---------------------------------------------------------------------------
  // Staleness and the load sequence

  /** SimpleIndexFile::IsIndexFileStale: an index whose modification time
      cannot be read is stale; otherwise it is stale when older than the
      cache directory. */
  predicate IsIndexFileStale(cacheLastModified: int64, indexMtime: Option<int64>)
  {
    indexMtime.None? || indexMtime.value < cacheLastModified
  }

  /** SimpleIndexFile::SyncLoadFromDisk: the file's contents (None when it
      cannot be read) go through Deserialize. */
  method SyncLoadFromDisk(contents: Option<seq<byte>>, crc: seq<byte> -> uint32, out: SimpleIndexLoadResult)
    modifies out
    ensures contents.None? ==> out.Value() == NotLoaded
    ensures contents.Some? ==> out.Value() == DeserializeIndex(contents.value, crc)
  {
    out.Reset();
    if contents.None? {
      return;
    }
    Deserialize(contents.value, crc, out);
  }

  /** SimpleIndexFile::SyncLoadIndexEntries: a fresh index is loaded from disk;
      a stale, unreadable or corrupt one is rebuilt from the entry files. */
  method SyncLoadIndexEntries(cacheLastModified: int64, indexMtime: Option<int64>,
                              contents: Option<seq<byte>>, files: seq<FileInfo>,
                              crc: seq<byte> -> uint32, parseHashKey: string -> Option<uint64>,
                              out: SimpleIndexLoadResult)
    modifies out
    ensures var stale := IsIndexFileStale(cacheLastModified, indexMtime);
            var loaded := !stale && contents.Some? && DeserializeIndex(contents.value, crc).didLoad;
            if loaded then out.Value() == DeserializeIndex(contents.value, crc)
            else if stale && old(out.didLoad) then out.Value() == old(out.Value())
            else out.Value() == LoadResult(true, true, RestoredEntries(files, parseHashKey))
    ensures !old(out.didLoad) ==>
              out.Value() == LoadOutcome(cacheLastModified, indexMtime, contents, files, crc, parseHashKey)
  {
    if !IsIndexFileStale(cacheLastModified, indexMtime) {
      SyncLoadFromDisk(contents, crc, out);
    }
    if !out.didLoad {
      SyncRestoreFromDisk(files, parseHashKey, out);
    }
  }

  /** Whatever the index file holds, a stale index is never used: loading
      either keeps a result already loaded or rebuilds from the entry files. */
  lemma StaleIndexIsRebuilt(cacheLastModified: int64, indexMtime: Option<int64>,
                            contents: Option<seq<byte>>, files: seq<FileInfo>,
                            crc: seq<byte> -> uint32, parseHashKey: string -> Option<uint64>)
    requires IsIndexFileStale(cacheLastModified, indexMtime)
    ensures LoadOutcome(cacheLastModified, indexMtime, contents, files, crc, parseHashKey)
            == LoadResult(true, true, RestoredEntries(files, parseHashKey))
  {
  }

  /** The outcome of SyncLoadIndexEntries on a result record not yet
      loaded: the index when it is fresh and loads, else the restored set. */
  function LoadOutcome(cacheLastModified: int64, indexMtime: Option<int64>,
                       contents: Option<seq<byte>>, files: seq<FileInfo>,
                       crc: seq<byte> -> uint32, parseHashKey: string -> Option<uint64>): (r: LoadResult)
    ensures r.didLoad
  {
    if !IsIndexFileStale(cacheLastModified, indexMtime) && contents.Some? &&
       DeserializeIndex(contents.value, crc).didLoad
    then DeserializeIndex(contents.value, crc)
    else LoadResult(true, true, RestoredEntries(files, parseHashKey))
  }
}
