/** Flushing a MemTable: the table that create builds from get_all answers like the MemTable. */
module Flush {
  import Bits
  import opened Bloom
  import opened Bytes
  import opened Clock
  import opened MemTables
  import opened OrderedRows
  import opened Records
  import opened SSTables
  import opened Wrappers

  predicate Ticks(entries: seq<LsmEntry>) {
    forall i :: 0 <= i < |entries| ==> -0x8000_0000_0000_0000 <= entries[i].timestamp < 0x8000_0000_0000_0000
  }

  lemma {:induction false} RecordAt(entries: seq<LsmEntry>, rest: Bytes, i: nat)
    requires i < |entries| && Ticks(entries)
    ensures ReadRecord(Data(entries, |entries|) + rest, |Data(entries, i)|) == Some(OnDisk(entries[i]))
  {
    ConcatAt(Encoded(entries), |entries|, i, rest);
    ReadWritten(Data(entries, |entries|) + rest, |Data(entries, i)|, entries[i]);
  }

  /** Every record can be read back at its true offset in the file create wrote. */
  lemma {:induction false} CreatedRecord(entries: seq<LsmEntry>, enableBloom: bool, hash: Hash, i: nat)
    requires i < |entries| && Ticks(entries)
    ensures ReadRecord(Created(entries, enableBloom, hash).file, |Data(entries, i)|) == Some(OnDisk(entries[i]))
  {
    var t := Created(entries, enableBloom, hash);
    var foot := Footer(t.bloomBits, |t.bloom|, Offset(entries, |entries|) + 0, |t.index|);
    RecordAt(entries, t.bloom + (IndexBlock(t.index) + foot), i);
  }

  lemma {:induction false} CreatedIndex(entries: seq<LsmEntry>, enableBloom: bool, hash: Hash)
    requires KeysAscend(entries)
    ensures Created(entries, enableBloom, hash).index == Listing(entries)
    ensures Sorted(Listing(entries))
  {
    IndexAscends(entries);
    ListingSorted(entries);
  }

  lemma {:induction false} KeyPasses(entries: seq<LsmEntry>, enableBloom: bool, hash: Hash, i: nat)
    requires i < |entries|
    ensures MightContain(BloomOf(entries, enableBloom, hash), BloomBits(entries, enableBloom), hash, entries[i].key)
  {
    var bits := BloomBits(entries, enableBloom);
    if bits > 0 { NoFalseNegatives(bits, hash, Keys(entries), |entries|, i); }
  }

  /** What get answers for the key of row i: a live value comes back whole when its key and
      value are shorter than 2^32 bytes. */
  lemma {:induction false} GetRow(entries: seq<LsmEntry>, enableBloom: bool, hash: Hash, i: nat)
    requires i < |entries| && KeysAscend(entries) && Ticks(entries) && ShortRecords(entries, i)
    ensures GetIn(Created(entries, enableBloom, hash), hash, entries[i].key)
         == if entries[i].deleted || |entries[i].key| >= Bits.TWO_32 then None else Some(Low32(entries[i].value))
  {
    KeyPasses(entries, enableBloom, hash, i);
    CreatedIndex(entries, enableBloom, hash);
    CreatedRecord(entries, enableBloom, hash, i);
    LookupFinds(Listing(entries), i);
    OffsetExactIff(entries, i);
    LowWhole(entries[i].key);
  }

  lemma {:induction false} LowWhole(b: Bytes)
    ensures Low32(b) == b <==> |b| < Bits.TWO_32
  {
  }

  lemma {:induction false} GetNone(entries: seq<LsmEntry>, enableBloom: bool, hash: Hash, key: Bytes)
    requires KeysAscend(entries)
    requires forall i :: 0 <= i < |entries| ==> entries[i].key != key
    ensures GetIn(Created(entries, enableBloom, hash), hash, key) == None
  {
    CreatedIndex(entries, enableBloom, hash);
    LookupNone(Listing(entries), key);
  }

  /** Every record but the last is shorter than 4 GiB, so that every entry's offset is exact. */
  predicate LastOnlyLong(entries: seq<LsmEntry>)
  {
    forall i :: 0 <= i < |entries| - 1 ==> |EncodeEntry(entries[i])| < Bits.TWO_32
  }

  predicate Whole(e: LsmEntry) { e.deleted || (|e.key| < Bits.TWO_32 && |e.value| < Bits.TWO_32) }

  lemma {:induction false} GetRowAgrees(rows: seq<Row<Entry>>, enableBloom: bool, hash: Hash, i: nat)
    requires Sorted(rows) && i < |rows| && LastOnlyLong(All(rows))
    ensures GetIn(Created(All(rows), enableBloom, hash), hash, rows[i].key) == Found(rows, rows[i].key)
       <==> Whole(ToLsm(rows[i]))
  {
    var entries := All(rows);
    GetRow(entries, enableBloom, hash, i);
    LookupFinds(rows, i);
    LowWhole(rows[i].value.value);
  }

  /** Where no record but the last reaches 4 GiB, the flushed table answers every get like the
      MemTable exactly when every live key and value is shorter than 2^32 bytes. */
  lemma {:induction false} GetAgreesIff(rows: seq<Row<Entry>>, enableBloom: bool, hash: Hash)
    requires Sorted(rows) && LastOnlyLong(All(rows))
    ensures (forall key :: GetIn(Created(All(rows), enableBloom, hash), hash, key) == Found(rows, key))
       <==> (forall i :: 0 <= i < |rows| ==> Whole(ToLsm(rows[i])))
  {
    forall i | 0 <= i < |rows|
      ensures GetIn(Created(All(rows), enableBloom, hash), hash, rows[i].key) == Found(rows, rows[i].key)
         <==> Whole(ToLsm(rows[i]))
    {
      GetRowAgrees(rows, enableBloom, hash, i);
    }
    forall key | forall i :: 0 <= i < |rows| ==> rows[i].key != key
      ensures GetIn(Created(All(rows), enableBloom, hash), hash, key) == Found(rows, key)
    {
      GetNone(All(rows), enableBloom, hash, key);
      LookupNone(rows, key);
    }
  }

  /** A first record of exactly 4 GiB leaves current_offset at zero: the second key is then
      looked up in the first record and lost, live or not. */
  lemma {:induction false} LongRecordLosesNextKey(rows: seq<Row<Entry>>, enableBloom: bool, hash: Hash)
    requires Sorted(rows) && |rows| == 2 && !rows[1].value.deleted
    requires |rows[0].key| + |rows[0].value.value| + 25 == Bits.TWO_32
    ensures Found(rows, rows[1].key) == Some(rows[1].value.value)
    ensures GetIn(Created(All(rows), enableBloom, hash), hash, rows[1].key) == None
  {
    var entries := All(rows);
    CreatedIndex(entries, enableBloom, hash);
    CreatedRecord(entries, enableBloom, hash, 0);
    LookupFinds(rows, 1);
    LookupFinds(Listing(entries), 1);
    SecondOffset(entries);
    LowWhole(rows[0].key);
    LessIrreflexive(rows[0].key);
  }

  lemma {:induction false} SecondOffset(entries: seq<LsmEntry>)
    requires |entries| >= 1 && |entries[0].key| + |entries[0].value| + 25 == Bits.TWO_32
    ensures Offset(entries, 1) == 0 && |Data(entries, 0)| == 0
  {
    assert Offset(entries, 1) == Offset(entries, 0) + RecordStep(entries[0]);
  }

  // Range reads.

  /** The entries as the disk holds them. */
  function OnDiskAll(entries: seq<LsmEntry>): seq<LsmEntry> {
    seq(|entries|, i requires 0 <= i < |entries| => OnDisk(entries[i]))
  }

  /** The same entries, their times cut to whole microseconds. */
  function MicroAll(entries: seq<LsmEntry>): seq<LsmEntry> {
    seq(|entries|, i requires 0 <= i < |entries| => entries[i].(timestamp := Micros(entries[i].timestamp) * 1000))
  }

  lemma {:induction false} OnDiskAppend(a: seq<LsmEntry>, e: LsmEntry)
    ensures OnDiskAll(a + [e]) == OnDiskAll(a) + [OnDisk(e)]
  {
  }

  /** Index row i leads to the MemTable's row i. */
  predicate Mirrors(index: seq<Row<nat>>, read: Reader, rows: seq<Row<Entry>>) {
    && |index| == |rows|
    && forall i ::
         0 <= i < |rows| ==> index[i].key == rows[i].key && read(index[i].value) == Some(OnDisk(ToLsm(rows[i])))
  }

  lemma {:induction false} CreatedMirrors(rows: seq<Row<Entry>>, enableBloom: bool, hash: Hash, t: Table)
    requires Sorted(rows) && LastOnlyLong(All(rows)) && t == Created(All(rows), enableBloom, hash)
    ensures Mirrors(t.index, ReaderOf(t.file), rows)
  {
    var entries := All(rows);
    CreatedIndex(entries, enableBloom, hash);
    forall i | 0 <= i < |rows|
      ensures t.index[i].key == rows[i].key && ReadRecord(t.file, t.index[i].value) == Some(OnDisk(ToLsm(rows[i])))
    {
      CreatedRecord(entries, enableBloom, hash, i);
      OffsetExactIff(entries, i);
    }
  }

  lemma {:induction false} RangeNext(index: seq<Row<nat>>, read: Reader, i: nat, end: Bytes, limit: nat,
      result: seq<LsmEntry>, e: LsmEntry)
    requires i < |index| && Less(index[i].key, end) && |result| < limit && read(index[i].value) == Some(e)
    ensures RangeFrom(index, read, i, end, limit, result)
         == RangeFrom(index, read, i + 1, end, limit, if e.deleted then result else result + [e])
  {
  }

  /** What the file scan has collected behind row i. */
  lemma {:induction false} CollectedNext(rows: seq<Row<Entry>>, q: Query, i: nat)
    requires Sorted(rows) && q.Range? && LowerBound(rows, q.start) <= i < |rows| && Less(rows[i].key, q.end)
    ensures var result, e := OnDiskAll(Scanned(rows, q, i)), OnDisk(ToLsm(rows[i]));
      OnDiskAll(Scanned(rows, q, i + 1)) == if e.deleted then result else result + [e]
  {
    AfterLowerBound(rows, q.start, i);
    ScanStep(rows, q, i);
    OnDiskAppend(Scanned(rows, q, i), ToLsm(rows[i]));
    assert Scanned(rows, q, i) + [] == Scanned(rows, q, i);
  }

  lemma {:induction false} RangeMove(index: seq<Row<nat>>, read: Reader, rows: seq<Row<Entry>>, q: Query, i: nat,
      limit: nat)
    requires Sorted(rows) && Mirrors(index, read, rows) && q.Range?
    requires LowerBound(rows, q.start) <= i < |rows| && Less(rows[i].key, q.end) && |Scanned(rows, q, i)| < limit
    requires Continues(index, read, rows, q, i + 1, limit)
    ensures Continues(index, read, rows, q, i, limit)
  {
    CollectedNext(rows, q, i);
    RangeNext(index, read, i, q.end, limit, OnDiskAll(Scanned(rows, q, i)), OnDisk(ToLsm(rows[i])));
  }

  predicate ScanEnds(rows: seq<Row<Entry>>, q: Query, i: nat, limit: nat)
    requires q.Range? && i <= |rows|
  {
    i == |rows| || !Less(rows[i].key, q.end) || |Scanned(rows, q, i)| == limit
  }

  lemma {:induction false} ScanDone(rows: seq<Row<Entry>>, q: Query, i: nat, limit: nat)
    requires Sorted(rows) && q.Range? && LowerBound(rows, q.start) <= i <= |rows| && |Scanned(rows, q, i)| <= limit
    requires ScanEnds(rows, q, i, limit)
    ensures Scanned(rows, q, i) == First(limit, Select(All(rows), q))
  {
    if i == |rows| || !Less(rows[i].key, q.end) { ScanExhausted(rows, q, i); } else { ScanFull(rows, q, i); }
  }

  lemma {:induction false} RangeEnds(index: seq<Row<nat>>, read: Reader, i: nat, end: Bytes, limit: nat,
      result: seq<LsmEntry>)
    requires i >= |index| || !Less(index[i].key, end) || |result| >= limit
    ensures RangeFrom(index, read, i, end, limit, result) == result
  {
  }

  /** From row i on, the file scan continues what the MemTable scan has collected so far to the
      whole answer. */
  predicate Continues(index: seq<Row<nat>>, read: Reader, rows: seq<Row<Entry>>, q: Query, i: nat, limit: nat)
    requires q.Range? && i <= |rows|
  {
    RangeFrom(index, read, i, q.end, limit, OnDiskAll(Scanned(rows, q, i)))
      == OnDiskAll(First(limit, Select(All(rows), q)))
  }

  lemma {:induction false} LastContinues(index: seq<Row<nat>>, read: Reader, rows: seq<Row<Entry>>, q: Query, i: nat,
      limit: nat)
    requires Sorted(rows) && Mirrors(index, read, rows) && q.Range?
    requires LowerBound(rows, q.start) <= i <= |rows| && |Scanned(rows, q, i)| <= limit && ScanEnds(rows, q, i, limit)
    ensures Continues(index, read, rows, q, i, limit)
  {
    ScanDone(rows, q, i, limit);
    RangeEnds(index, read, i, q.end, limit, OnDiskAll(Scanned(rows, q, i)));
  }

  lemma {:induction false} ScannedGrows(rows: seq<Row<Entry>>, q: Query, i: nat)
    requires i < |rows|
    ensures |Scanned(rows, q, i + 1)| <= |Scanned(rows, q, i)| + 1
  {
  }

  /** So it does from every row on. */
  lemma {:induction false} RangeStep(index: seq<Row<nat>>, read: Reader, rows: seq<Row<Entry>>, q: Query, i: nat,
      limit: nat)
    requires Sorted(rows) && Mirrors(index, read, rows) && q.Range?
    requires LowerBound(rows, q.start) <= i <= |rows| && |Scanned(rows, q, i)| <= limit
    ensures Continues(index, read, rows, q, i, limit)
    decreases |rows| - i
  {
    if ScanEnds(rows, q, i, limit) {
      LastContinues(index, read, rows, q, i, limit);
    } else {
      ScannedGrows(rows, q, i);
      RangeStep(index, read, rows, q, i + 1, limit);
      RangeMove(index, read, rows, q, i, limit);
    }
  }

  lemma {:induction false} SameLowerBound(index: seq<Row<nat>>, rows: seq<Row<Entry>>, k: Bytes)
    requires |index| == |rows| && forall i :: 0 <= i < |rows| ==> index[i].key == rows[i].key
    ensures LowerBound(index, k) == LowerBound(rows, k)
  {
    if rows != [] { SameLowerBound(index[1..], rows[1..], k); }
  }

  lemma {:induction false} MirroredRange(index: seq<Row<nat>>, read: Reader, rows: seq<Row<Entry>>,
                                         start: Bytes, end: Bytes, limit: nat)
    requires Sorted(rows) && Mirrors(index, read, rows)
    ensures RangeFrom(index, read, LowerBound(index, start), end, limit, [])
         == OnDiskAll(First(limit, Select(All(rows), Range(start, end))))
  {
    SameLowerBound(index, rows, start);
    RangeStep(index, read, rows, Range(start, end), LowerBound(rows, start), limit);
  }

  lemma {:induction false} TableRange(rows: seq<Row<Entry>>, t: Table, enableBloom: bool, hash: Hash,
                                      start: Bytes, end: Bytes, limit: nat)
    requires Sorted(rows) && LastOnlyLong(All(rows)) && t == Created(All(rows), enableBloom, hash)
    ensures RangeIn(t, start, end, limit) == OnDiskAll(First(limit, Select(All(rows), Range(start, end))))
  {
    CreatedMirrors(rows, enableBloom, hash, t);
    MirroredRange(t.index, ReaderOf(t.file), rows, start, end, limit);
  }

  /** Whatever the lengths of its values: while every live key is shorter than 2^32 bytes, a flushed
      table answers a range with the keys of the live rows between start and end, in order. */
  lemma {:induction false} FlushedRange(rows: seq<Row<Entry>>, t: Table, enableBloom: bool, hash: Hash,
      start: Bytes, end: Bytes, limit: nat)
    requires Sorted(rows) && LastOnlyLong(All(rows)) && t == Created(All(rows), enableBloom, hash)
    requires forall i :: 0 <= i < |rows| && !rows[i].value.deleted ==> |rows[i].key| < Bits.TWO_32
    ensures exists full: seq<LsmEntry> ::
      && Answers(rows, Range(start, end), limit, full) && |RangeIn(t, start, end, limit)| == |full|
      && forall k :: 0 <= k < |full| ==> RangeIn(t, start, end, limit)[k].key == full[k].key
  {
    var full := First(limit, Select(All(rows), Range(start, end)));
    TableRange(rows, t, enableBloom, hash, start, end, limit);
    FirstAnswers(rows, Range(start, end), limit);
    forall k | 0 <= k < |full| ensures OnDisk(full[k]).key == full[k].key {
      var i :| 0 <= i < |rows| && Shows(full[k], rows[i]);
      LowWhole(full[k].key);
    }
  }

  lemma {:induction false} SelectedAreLive(entries: seq<LsmEntry>, q: Query)
    ensures forall e :: e in Select(entries, q) ==> !e.deleted && e in entries
  {
    forall e | e in Select(entries, q) ensures !e.deleted && e in entries { SelectMembers(entries, q, e); }
  }

  lemma {:induction false} WholeOnDisk(entries: seq<LsmEntry>)
    requires forall e :: e in entries ==> !e.deleted
    ensures OnDiskAll(entries) == MicroAll(entries) <==> forall e :: e in entries ==> Whole(e)
  {
    forall i | 0 <= i < |entries| ensures OnDiskAll(entries)[i] == MicroAll(entries)[i] <==> Whole(entries[i]) {
      LowWhole(entries[i].key);
      LowWhole(entries[i].value);
    }
  }

  /** Every range is answered as the MemTable would, up to microseconds. */
  ghost predicate RangesAgree(t: Table, rows: seq<Row<Entry>>) {
    forall start, end, limit: nat ::
      RangeIn(t, start, end, limit) == MicroAll(First(limit, Select(All(rows), Range(start, end))))
  }

  lemma {:induction false} LessAppend(key: Bytes)
    ensures Less(key, key + [0])
  {
    if key != [] {
      LessAppend(key[1..]);
      assert (key + [0])[1..] == key[1..] + [0];
    }
  }

  lemma {:induction false} WholeRange(rows: seq<Row<Entry>>, start: Bytes, end: Bytes, limit: nat)
    requires forall i :: 0 <= i < |rows| ==> Whole(All(rows)[i])
    ensures OnDiskAll(First(limit, Select(All(rows), Range(start, end))))
        == MicroAll(First(limit, Select(All(rows), Range(start, end))))
  {
    var s := Select(All(rows), Range(start, end));
    SelectedAreLive(All(rows), Range(start, end));
    WholeOnDisk(First(limit, s));
  }

  lemma {:induction false} AgreeingRowWhole(t: Table, rows: seq<Row<Entry>>, enableBloom: bool, hash: Hash, i: nat)
    requires Sorted(rows) && LastOnlyLong(All(rows)) && t == Created(All(rows), enableBloom, hash)
    requires RangesAgree(t, rows) && i < |rows|
    ensures Whole(All(rows)[i])
  {
    var e := All(rows)[i];
    if !e.deleted {
      var q := Range(e.key, e.key + [0]);
      LessAppend(e.key);
      LessIrreflexive(e.key);
      var s := Select(All(rows), q);
      SelectMembers(All(rows), q, All(rows)[i]);
      SelectedAreLive(All(rows), q);
      TableRange(rows, t, enableBloom, hash, q.start, q.end, |s|);
      assert RangeIn(t, q.start, q.end, |s|) == MicroAll(First(|s|, s));
      WholeOnDisk(s);
    }
  }

  /** Under the same condition it answers every range like the MemTable, to the microsecond,
      exactly when every live key and value is shorter than 2^32 bytes. */
  lemma {:induction false} RangeAgreesIff(rows: seq<Row<Entry>>, enableBloom: bool, hash: Hash)
    requires Sorted(rows) && LastOnlyLong(All(rows))
    ensures RangesAgree(Created(All(rows), enableBloom, hash), rows)
       <==> (forall i :: 0 <= i < |rows| ==> Whole(ToLsm(rows[i])))
  {
    var t := Created(All(rows), enableBloom, hash);
    if RangesAgree(t, rows) {
      forall i | 0 <= i < |rows| ensures Whole(ToLsm(rows[i])) {
        AgreeingRowWhole(t, rows, enableBloom, hash, i);
      }
    }
    if forall i :: 0 <= i < |rows| ==> Whole(ToLsm(rows[i])) {
      forall start, end, limit: nat
        ensures RangeIn(t, start, end, limit) == MicroAll(First(limit, Select(All(rows), Range(start, end))))
      {
        TableRange(rows, t, enableBloom, hash, start, end, limit);
        WholeRange(rows, start, end, limit);
      }
    }
  }

  lemma {:induction false} WithinFootprint(rows: seq<Row<Entry>>, i: nat)
    requires i < |rows|
    ensures RowFootprint(rows[i]) <= Footprint(rows)
  {
    if i > 0 { WithinFootprint(rows[1..], i - 1); }
  }

  /** Tombstone keys leave room for their record's other fields: put books the size of live
      rows, but remove books nothing. */
  predicate ShortTombstones(rows: seq<Row<Entry>>) {
    forall i :: 0 <= i < |rows| && rows[i].value.deleted ==> |rows[i].key| + 25 < Bits.TWO_32
  }

  lemma {:induction false} BoundedIsShort(rows: seq<Row<Entry>>, currentSize: nat, maxSize: nat, i: nat)
    requires Sound(rows, currentSize, maxSize) && maxSize <= Bits.TWO_32 && ShortTombstones(rows) && i < |rows|
    ensures |EncodeEntry(All(rows)[i])| < Bits.TWO_32 && Whole(ToLsm(rows[i]))
  {
    WithinFootprint(rows, i);
    EncodedLength(All(rows)[i]);
  }

  /** Flush preserves reads: every table that put, remove and clear can leave, of at most 4 GiB
      and with no overlong tombstone key, is answered by its flushed table, every get and every
      range. */
  lemma {:induction false} FlushPreservesReads(rows: seq<Row<Entry>>, currentSize: nat, maxSize: nat,
      enableBloom: bool, hash: Hash)
    requires Sound(rows, currentSize, maxSize) && maxSize <= Bits.TWO_32 && ShortTombstones(rows)
    ensures forall key :: GetIn(Created(All(rows), enableBloom, hash), hash, key) == Found(rows, key)
    ensures RangesAgree(Created(All(rows), enableBloom, hash), rows)
  {
    forall i | 0 <= i < |rows| ensures |EncodeEntry(All(rows)[i])| < Bits.TWO_32 && Whole(ToLsm(rows[i])) {
      BoundedIsShort(rows, currentSize, maxSize, i);
    }
    GetAgreesIff(rows, enableBloom, hash);
    RangeAgreesIff(rows, enableBloom, hash);
  }
}
