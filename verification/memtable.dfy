/** MemTable: the sorted write buffer, with tombstones and size accounting. */
module MemTables {
  import opened Bytes
  import opened OrderedRows
  import opened Wrappers

  /** sizeof(MemTable::Entry): a string, a sequence number, a flag and a time point. */
  const SIZEOF_ENTRY: nat := 56

  datatype Entry = Entry(value: Bytes, seqNo: u64, deleted: bool, timestamp: i64)

  datatype LsmEntry = LsmEntry(key: Bytes, value: Bytes, timestamp: int, sequenceNumber: u64, deleted: bool)

  function ToLsm(row: Row<Entry>): LsmEntry {
    LsmEntry(row.key, row.value.value, row.value.timestamp, row.value.seqNo, row.value.deleted)
  }

  /** What a scan asks for. */
  datatype Query = Range(start: Bytes, end: Bytes) | Prefix(prefix: Bytes)

  predicate Matches(q: Query, key: Bytes) {
    match q
    case Range(start, end) => !Less(key, start) && Less(key, end)
    case Prefix(prefix) => StartsWith(key, prefix)
  }

  /** All live entries that match, in key order. */
  function Select(entries: seq<LsmEntry>, q: Query): seq<LsmEntry> {
    if entries == [] then []
    else
      var n := |entries| - 1;
      Select(entries[..n], q) + (if Matches(q, entries[n].key) && !entries[n].deleted then [entries[n]] else [])
  }

  function First<T>(limit: nat, q: seq<T>): seq<T> { if |q| <= limit then q else q[..limit] }

  /** get_all: every row, tombstones included. */
  function All(rows: seq<Row<Entry>>): seq<LsmEntry> {
    seq(|rows|, i requires 0 <= i < |rows| => ToLsm(rows[i]))
  }

  function Found(rows: seq<Row<Entry>>, key: Bytes): Option<Bytes> {
    match Lookup(rows, key)
    case None => None
    case Some(e) => if e.deleted then None else Some(e.value)
  }

  function Cost(key: Bytes, value: Bytes): nat { |key| + |value| + SIZEOF_ENTRY }

  function RowFootprint(row: Row<Entry>): nat {
    if row.value.deleted then 0 else Cost(row.key, row.value.value)
  }

  /** The bytes of the live entries. */
  function Footprint(rows: seq<Row<Entry>>): nat {
    if rows == [] then 0 else RowFootprint(rows[0]) + Footprint(rows[1..])
  }

  lemma {:induction false} FootprintConcat(a: seq<Row<Entry>>, b: seq<Row<Entry>>)
    ensures Footprint(a + b) == Footprint(a) + Footprint(b)
  {
    if a == [] {
      assert a + b == b;
    } else {
      assert (a + b)[1..] == a[1..] + b;
      FootprintConcat(a[1..], b);
    }
  }

  lemma {:induction false} FootprintAround(a: seq<Row<Entry>>, x: Row<Entry>, b: seq<Row<Entry>>)
    ensures Footprint(a + [x] + b) == Footprint(a) + RowFootprint(x) + Footprint(b)
  {
    FootprintConcat(a + [x], b);
    FootprintConcat(a, [x]);
    assert [x][1..] == [];
  }

  lemma {:induction false} FootprintPut(rows: seq<Row<Entry>>, k: Bytes, e: Entry)
    ensures Footprint(Put(rows, k, e)) <= Footprint(rows) + RowFootprint(Row(k, e))
  {
    var i := LowerBound(rows, k);
    var a := rows[..i];
    if i < |rows| && rows[i].key == k {
      var b := rows[i + 1..];
      assert rows == a + [rows[i]] + b && rows[i := Row(k, e)] == a + [Row(k, e)] + b;
      FootprintAround(a, rows[i], b);
      FootprintAround(a, Row(k, e), b);
    } else {
      assert rows == a + rows[i..];
      FootprintConcat(a, rows[i..]);
      FootprintAround(a, Row(k, e), rows[i..]);
    }
  }

  lemma {:induction false} SelectConcat(a: seq<LsmEntry>, b: seq<LsmEntry>, q: Query)
    ensures Select(a + b, q) == Select(a, q) + Select(b, q)
  {
    if b == [] {
      assert a + b == a;
    } else {
      var n := |b| - 1;
      assert (a + b)[..|a| + n] == a + b[..n];
      SelectConcat(a, b[..n], q);
    }
  }

  lemma {:induction false} SelectNothing(entries: seq<LsmEntry>, q: Query)
    requires forall i :: 0 <= i < |entries| ==> !Matches(q, entries[i].key)
    ensures Select(entries, q) == []
  {
    if entries != [] { SelectNothing(entries[..|entries| - 1], q); }
  }

  predicate KeysAscend(entries: seq<LsmEntry>) {
    forall i, j :: 0 <= i < j < |entries| ==> Less(entries[i].key, entries[j].key)
  }

  /** Where a scan starts: range at its start key, prefix_scan at the prefix. */
  function Low(q: Query): Bytes { if q.Range? then q.start else q.prefix }

  lemma {:induction false} NoMatchBefore(q: Query, key: Bytes)
    requires Less(key, Low(q))
    ensures !Matches(q, key)
  {
    if q.Prefix? && StartsWith(key, q.prefix) { PrefixNotLess(q.prefix, key); }
  }

  lemma {:induction false} NoMatchAfter(q: Query, stop: Bytes, key: Bytes)
    requires !Matches(q, stop) && !Less(stop, Low(q)) && Less(stop, key)
    ensures !Matches(q, key)
  {
    if q.Range? {
      LessTotal(stop, q.end);
      if Less(key, q.end) { LessTransitive(stop, key, q.end); }
    } else if StartsWith(key, q.prefix) {
      LessTotal(stop, key);
      PrefixContiguous(q.prefix, stop, key);
    }
  }

  /** Scanning from the lower bound to the first key past the query loses no match. */
  lemma {:induction false} OutsideNothing(entries: seq<LsmEntry>, q: Query, from: nat, to: nat)
    requires KeysAscend(entries) && from <= to <= |entries|
    requires forall i :: 0 <= i < from ==> Less(entries[i].key, Low(q))
    requires to < |entries| ==> !Matches(q, entries[to].key) && !Less(entries[to].key, Low(q))
    ensures Select(entries, q) == Select(entries[from..to], q)
  {
    forall i | 0 <= i < from ensures !Matches(q, entries[..from][i].key) { NoMatchBefore(q, entries[i].key); }
    SelectNothing(entries[..from], q);
    forall i | 0 <= i < |entries| - to ensures !Matches(q, entries[to..][i].key) {
      if i > 0 { NoMatchAfter(q, entries[to].key, entries[to + i].key); }
    }
    SelectNothing(entries[to..], q);
    SelectSplit(entries, q, from, to);
  }

  lemma {:induction false} SelectSplit(entries: seq<LsmEntry>, q: Query, from: nat, to: nat)
    requires from <= to <= |entries|
    ensures Select(entries, q) == Select(entries[..from], q) + Select(entries[from..to], q) + Select(entries[to..], q)
  {
    SelectConcat(entries[..from], entries[from..to], q);
    SelectConcat(entries[..to], entries[to..], q);
    assert entries[..to] == entries[..from] + entries[from..to] && entries == entries[..to] + entries[to..];
  }

  /** What a scan has collected when it stands at row `to`. */
  function Scanned(rows: seq<Row<Entry>>, q: Query, to: nat): seq<LsmEntry>
    requires to <= |rows|
  {
    if to <= LowerBound(rows, Low(q)) then []
    else Scanned(rows, q, to - 1)
         + (if Matches(q, rows[to - 1].key) && !rows[to - 1].value.deleted then [ToLsm(rows[to - 1])] else [])
  }

  lemma {:induction false} SelectLast(entries: seq<LsmEntry>, e: LsmEntry, q: Query)
    ensures Select(entries + [e], q) == Select(entries, q) + if Matches(q, e.key) && !e.deleted then [e] else []
  {
    assert (entries + [e])[..|entries|] == entries;
  }

  lemma {:induction false} AllSlice(rows: seq<Row<Entry>>, from: nat, to: nat)
    requires from < to <= |rows|
    ensures All(rows)[from..to] == All(rows)[from..to - 1] + [ToLsm(rows[to - 1])]
  {
  }

  lemma {:induction false} ScannedIsSelect(rows: seq<Row<Entry>>, q: Query, to: nat)
    requires LowerBound(rows, Low(q)) <= to <= |rows|
    ensures Scanned(rows, q, to) == Select(All(rows)[LowerBound(rows, Low(q))..to], q)
  {
    var from := LowerBound(rows, Low(q));
    if from < to {
      ScannedIsSelect(rows, q, to - 1);
      AllSlice(rows, from, to);
      SelectLast(All(rows)[from..to - 1], ToLsm(rows[to - 1]), q);
    }
  }

  lemma {:induction false} ScanExhausted(rows: seq<Row<Entry>>, q: Query, to: nat)
    requires Sorted(rows) && LowerBound(rows, Low(q)) <= to <= |rows|
    requires to == |rows| || !Matches(q, rows[to].key)
    ensures Select(All(rows), q) == Scanned(rows, q, to)
  {
    ScannedIsSelect(rows, q, to);
    if to < |rows| { AfterLowerBound(rows, Low(q), to); }
    OutsideNothing(All(rows), q, LowerBound(rows, Low(q)), to);
  }

  lemma {:induction false} ScanFull(rows: seq<Row<Entry>>, q: Query, to: nat)
    requires LowerBound(rows, Low(q)) <= to <= |rows|
    ensures Scanned(rows, q, to) <= Select(All(rows), q)
  {
    var all, from := All(rows), LowerBound(rows, Low(q));
    ScannedIsSelect(rows, q, to);
    SelectSplit(all, q, from, to);
    forall i | 0 <= i < from ensures !Matches(q, all[..from][i].key) { NoMatchBefore(q, all[i].key); }
    SelectNothing(all[..from], q);
  }

  lemma {:induction false} ScanStep(rows: seq<Row<Entry>>, q: Query, i: nat)
    requires LowerBound(rows, Low(q)) <= i < |rows| && Matches(q, rows[i].key)
    ensures Scanned(rows, q, i + 1) == Scanned(rows, q, i) + if rows[i].value.deleted then [] else [ToLsm(rows[i])]
  {
  }

  /** A scan that stops at the limit, at the end or at the first row past the query has the
      answer. */
  lemma {:induction false} ScanAnswers(rows: seq<Row<Entry>>, q: Query, i: nat, limit: nat)
    requires Sorted(rows) && LowerBound(rows, Low(q)) <= i <= |rows| && |Scanned(rows, q, i)| <= limit
    requires |Scanned(rows, q, i)| == limit || i == |rows| || !Matches(q, rows[i].key)
    ensures Scanned(rows, q, i) == First(limit, Select(All(rows), q))
  {
    if |Scanned(rows, q, i)| == limit { ScanFull(rows, q, i); } else { ScanExhausted(rows, q, i); }
  }

  // Answers told by position and member.

  /** The key is asked for: not before the start and before the end, or with the prefix in front. */
  predicate Wanted(q: Query, key: Bytes) {
    match q
    case Range(start, end) => !Precedes(key, start) && Precedes(key, end)
    case Prefix(prefix) => |prefix| <= |key| && key[..|prefix|] == prefix
  }

  lemma {:induction false} WantedIff(q: Query, key: Bytes)
    ensures Matches(q, key) <==> Wanted(q, key)
  {
    if q.Range? {
      LessIff(key, q.start);
      LessIff(key, q.end);
    }
  }

  predicate Ascends(entries: seq<LsmEntry>) {
    forall i, j :: 0 <= i < j < |entries| ==> Precedes(entries[i].key, entries[j].key)
  }

  /** The entry is what the row holds. */
  predicate Shows(e: LsmEntry, row: Row<Entry>) {
    && e.key == row.key && e.value == row.value.value && e.sequenceNumber == row.value.seqNo
    && e.timestamp == row.value.timestamp && e.deleted == row.value.deleted
  }

  /** The row is among the entries, or these are as many as may be and all before it. */
  predicate Covered(row: Row<Entry>, limit: nat, result: seq<LsmEntry>) {
    || (exists k :: 0 <= k < |result| && Shows(result[k], row))
    || (|result| == limit && forall k :: 0 <= k < |result| ==> Precedes(result[k].key, row.key))
  }

  /** What a scan promises: at most `limit` entries, in the order of their keys; each shows a live row
      that is asked for; and every such row is covered. */
  ghost predicate Answers(rows: seq<Row<Entry>>, q: Query, limit: nat, result: seq<LsmEntry>) {
    && |result| <= limit && Ascends(result)
    && (forall k :: 0 <= k < |result| ==>
          !result[k].deleted && Wanted(q, result[k].key) && exists i :: 0 <= i < |rows| && Shows(result[k], rows[i]))
    && forall i :: 0 <= i < |rows| && !rows[i].value.deleted && Wanted(q, rows[i].key) ==>
         Covered(rows[i], limit, result)
  }

  lemma {:induction false} SelectMembers(entries: seq<LsmEntry>, q: Query, e: LsmEntry)
    ensures e in Select(entries, q) <==> e in entries && Matches(q, e.key) && !e.deleted
  {
    if entries != [] { SelectMembers(entries[..|entries| - 1], q, e); }
  }

  lemma {:induction false} SelectAscends(entries: seq<LsmEntry>, q: Query)
    requires KeysAscend(entries)
    ensures KeysAscend(Select(entries, q))
  {
    if entries != [] {
      var init, s := entries[..|entries| - 1], Select(entries[..|entries| - 1], q);
      SelectAscends(init, q);
      forall k | 0 <= k < |s| ensures s[k] in init { SelectMembers(init, q, s[k]); }
    }
  }

  lemma {:induction false} PrecedingKeys(entries: seq<LsmEntry>)
    ensures KeysAscend(entries) <==> Ascends(entries)
  {
    forall i, j | 0 <= i < j < |entries|
      ensures Less(entries[i].key, entries[j].key) <==> Precedes(entries[i].key, entries[j].key)
    {
      LessIff(entries[i].key, entries[j].key);
    }
  }

  lemma {:induction false} RowCovered(rows: seq<Row<Entry>>, q: Query, limit: nat, all: seq<LsmEntry>, i: nat)
    requires all == Select(All(rows), q) && KeysAscend(all)
    requires i < |rows| && !rows[i].value.deleted && Matches(q, rows[i].key)
    ensures Covered(rows[i], limit, First(limit, all))
  {
    var e := ToLsm(rows[i]);
    assert All(rows)[i] == e;
    SelectMembers(All(rows), q, e);
    var k :| 0 <= k < |all| && all[k] == e;
    if k < |First(limit, all)| {
      assert Shows(First(limit, all)[k], rows[i]);
    } else {
      forall j | 0 <= j < limit ensures Precedes(all[j].key, e.key) { LessIff(all[j].key, e.key); }
    }
  }

  lemma {:induction false} EntryShown(rows: seq<Row<Entry>>, q: Query, e: LsmEntry)
    requires e in Select(All(rows), q)
    ensures !e.deleted && Wanted(q, e.key) && exists i :: 0 <= i < |rows| && Shows(e, rows[i])
  {
    SelectMembers(All(rows), q, e);
    WantedIff(q, e.key);
    var i :| 0 <= i < |All(rows)| && All(rows)[i] == e;
    assert Shows(e, rows[i]);
  }

  lemma {:induction false} FirstAnswers(rows: seq<Row<Entry>>, q: Query, limit: nat)
    requires Sorted(rows)
    ensures Answers(rows, q, limit, First(limit, Select(All(rows), q)))
  {
    var all := Select(All(rows), q);
    var result := First(limit, all);
    SelectAscends(All(rows), q);
    PrecedingKeys(result);
    forall k | 0 <= k < |result|
      ensures !result[k].deleted && Wanted(q, result[k].key) && exists i :: 0 <= i < |rows| && Shows(result[k], rows[i])
    {
      assert result[k] in all;
      EntryShown(rows, q, result[k]);
    }
    forall i | 0 <= i < |rows| && !rows[i].value.deleted && Wanted(q, rows[i].key)
      ensures Covered(rows[i], limit, result)
    {
      WantedIff(q, rows[i].key);
      RowCovered(rows, q, limit, all, i);
    }
  }

  lemma {:induction false} AllAnswers(rows: seq<Row<Entry>>)
    requires Sorted(rows)
    ensures Ascends(All(rows)) && |All(rows)| == |rows|
    ensures forall i :: 0 <= i < |rows| ==> Shows(All(rows)[i], rows[i])
  {
    PrecedingKeys(All(rows));
  }

  /** A tombstone keeps no value. */
  predicate Cleared(rows: seq<Row<Entry>>)
  {
    forall i :: 0 <= i < |rows| && rows[i].value.deleted ==> rows[i].value.value == []
  }

  /** What every reachable table is: sorted, its tombstones empty, and enough size booked for
      every live entry. */
  predicate Sound(rows: seq<Row<Entry>>, currentSize: nat, maxSize: nat) {
    Sorted(rows) && Cleared(rows) && Footprint(rows) <= currentSize <= maxSize
  }

  lemma {:induction false} PutSound(rows: seq<Row<Entry>>, k: Bytes, e: Entry, currentSize: nat, maxSize: nat)
    requires Sound(rows, currentSize, maxSize) && (e.deleted ==> e.value == [])
    requires currentSize + RowFootprint(Row(k, e)) <= maxSize
    ensures Sound(Put(rows, k, e), currentSize + RowFootprint(Row(k, e)), maxSize)
  {
    FootprintPut(rows, k, e);
    PutSorted(rows, k, e);
  }

  class MemTable {
    var entries: seq<Row<Entry>>
    var currentSize: nat
    const maxSize: nat

    ghost predicate Valid()
      reads this
    {
      Sound(entries, currentSize, maxSize)
    }

    constructor (maxSize: nat)
      ensures Valid() && entries == [] && currentSize == 0 && this.maxSize == maxSize
    {
      this.maxSize := maxSize;
      entries, currentSize := [], 0;
    }

    method Put(key: Bytes, value: Bytes, seqNo: u64, now: i64) returns (ok: bool)
      requires Valid()
      modifies this
      ensures Valid()
      ensures ok <==> old(currentSize) + Cost(key, value) <= maxSize
      ensures !ok ==> entries == old(entries) && currentSize == old(currentSize)
      ensures ok ==> entries == OrderedRows.Put(old(entries), key, Entry(value, seqNo, false, now))
      ensures ok ==> currentSize == old(currentSize) + Cost(key, value)
      ensures ok ==> forall k :: Found(entries, k) == if k == key then Some(value) else Found(old(entries), k)
    {
      var entrySize := |key| + |value| + SIZEOF_ENTRY;
      if currentSize + entrySize > maxSize { return false; }
      var e := Entry(value, seqNo, false, now);
      ghost var was := entries;
      PutSound(entries, key, e, currentSize, maxSize);
      forall k ensures Lookup(OrderedRows.Put(was, key, e), k) == if k == key then Some(e) else Lookup(was, k) {
        PutLookup(was, key, e, k);
      }
      entries := OrderedRows.Put(entries, key, e);
      currentSize := currentSize + entrySize;
      return true;
    }

    method Get(key: Bytes) returns (r: Option<Bytes>)
      ensures r == Found(entries, key)
    {
      var at := Lookup(entries, key);
      if at.None? { return None; }
      if at.value.deleted { return None; }
      return Some(at.value.value);
    }

    method Remove(key: Bytes, seqNo: u64, now: i64)
      requires Valid()
      modifies this`entries
      ensures Valid()
      ensures entries == OrderedRows.Put(old(entries), key, Entry([], seqNo, true, now))
      ensures forall k :: Found(entries, k) == if k == key then None else Found(old(entries), k)
    {
      var e := Entry([], seqNo, true, now);
      ghost var was := entries;
      PutSound(entries, key, e, currentSize, maxSize);
      forall k ensures Lookup(OrderedRows.Put(was, key, e), k) == if k == key then Some(e) else Lookup(was, k) {
        PutLookup(was, key, e, k);
      }
      entries := OrderedRows.Put(entries, key, e);
    }

    method Range(start: Bytes, end: Bytes, limit: nat) returns (result: seq<LsmEntry>)
      requires Valid()
      ensures result == First(limit, Select(All(entries), Query.Range(start, end)))
      ensures Answers(entries, Query.Range(start, end), limit, result)
    {
      ghost var q := Query.Range(start, end);
      var i := LowerBound(entries, start);
      result := [];
      while i < |entries| && Less(entries[i].key, end) && |result| < limit
        invariant LowerBound(entries, Low(q)) <= i <= |entries| && |result| <= limit
        invariant result == Scanned(entries, q, i)
      {
        AfterLowerBound(entries, start, i);
        ScanStep(entries, q, i);
        if !entries[i].value.deleted { result := result + [ToLsm(entries[i])]; }
        i := i + 1;
      }
      ScanAnswers(entries, q, i, limit);
      FirstAnswers(entries, q, limit);
    }

    /** The first `limit` live entries, in key order, whose key starts with the prefix. */
    method PrefixScan(prefix: Bytes, limit: nat) returns (result: seq<LsmEntry>)
      requires Valid()
      ensures result == First(limit, Select(All(entries), Query.Prefix(prefix)))
      ensures Answers(entries, Query.Prefix(prefix), limit, result)
    {
      ghost var q := Query.Prefix(prefix);
      var i := LowerBound(entries, prefix);
      result := [];
      while i < |entries|
        invariant LowerBound(entries, Low(q)) <= i <= |entries| && |result| <= limit
        invariant result == Scanned(entries, q, i)
      {
        if !StartsWith(entries[i].key, prefix) { break; }
        if |result| >= limit { break; }
        ScanStep(entries, q, i);
        if !entries[i].value.deleted { result := result + [ToLsm(entries[i])]; }
        i := i + 1;
      }
      ScanAnswers(entries, q, i, limit);
      FirstAnswers(entries, q, limit);
    }

    method GetAll() returns (result: seq<LsmEntry>)
      requires Valid()
      ensures result == All(entries)
      ensures Ascends(result) && |result| == |entries|
      ensures forall i :: 0 <= i < |entries| ==> Shows(result[i], entries[i])
    {
      result := [];
      for i := 0 to |entries|
        invariant |result| == i && forall j :: 0 <= j < i ==> result[j] == ToLsm(entries[j])
      {
        result := result + [ToLsm(entries[i])];
      }
      AllAnswers(entries);
    }

    method Clear()
      modifies this
      ensures Valid() && entries == [] && currentSize == 0
    {
      entries, currentSize := [], 0;
    }
  }
}
