/** SSTable: the on-disk form of a flushed MemTable.  The file is a byte string; what create
    writes is [data][bloom filter][index][footer]. */
module SSTables {
  import Bits
  import opened Bloom
  import opened Bytes
  import opened MemTables
  import opened OrderedRows
  import opened Records
  import opened Wrappers

  /** The footer's magic number; the literals in the source are not valid hexadecimal. */
  const MAGIC: u64 := 0xA1_57
  const FOOTER: nat := 40

  datatype Table = Table(file: Bytes, index: seq<Row<nat>>, bloom: Bytes, bloomBits: nat)

  // Chunks laid end to end.

  function Concat(chunks: seq<Bytes>, n: nat): Bytes
    requires n <= |chunks|
  {
    if n == 0 then [] else Concat(chunks, n - 1) + chunks[n - 1]
  }

  lemma {:induction false} ConcatAt(chunks: seq<Bytes>, n: nat, i: nat, rest: Bytes)
    requires i < n <= |chunks|
    ensures At(Concat(chunks, n) + rest, |Concat(chunks, i)|, chunks[i])
  {
    if i == n - 1 {
      AtSuffix(Concat(chunks, i), chunks[i], rest);
    } else {
      ConcatAt(chunks, n - 1, i, chunks[n - 1] + rest);
      assert Concat(chunks, n - 1) + (chunks[n - 1] + rest) == Concat(chunks, n) + rest;
    }
  }

  lemma {:induction false} AtAt(file: Bytes, off: nat, outer: Bytes, off': nat, inner: Bytes)
    requires At(file, off, outer) && At(outer, off', inner)
    ensures At(file, off + off', inner)
  {
    forall k | 0 <= k < |inner| ensures file[off + off' + k] == inner[k] {
      assert outer[off'..off' + |inner|][k] == outer[off' + k] == file[off..off + |outer|][off' + k];
    }
  }

  // The data block and the index over it.

  function Encoded(entries: seq<LsmEntry>): seq<Bytes> {
    seq(|entries|, i requires 0 <= i < |entries| => EncodeEntry(entries[i]))
  }

  function Data(entries: seq<LsmEntry>, n: nat): Bytes
    requires n <= |entries|
  {
    Concat(Encoded(entries), n)
  }

  /** The length of a record as the writing loop adds it up, in 32-bit arithmetic. */
  function RecordStep(e: LsmEntry): nat {
    (4 + |e.key| % Bits.TWO_32 + 4 + |e.value| % Bits.TWO_32 + 8 + 1 + 8) % Bits.TWO_32
  }

  /** current_offset before entry n. */
  function Offset(entries: seq<LsmEntry>, n: nat): nat
    requires n <= |entries|
  {
    if n == 0 then 0 else Offset(entries, n - 1) + RecordStep(entries[n - 1])
  }

  predicate ShortRecords(entries: seq<LsmEntry>, n: nat)
    requires n <= |entries|
  {
    forall i :: 0 <= i < n ==> |EncodeEntry(entries[i])| < Bits.TWO_32
  }

  lemma {:induction false} RecordLength(e: LsmEntry)
    ensures RecordStep(e) <= |EncodeEntry(e)|
    ensures RecordStep(e) == |EncodeEntry(e)| <==> |EncodeEntry(e)| < Bits.TWO_32
  {
    EncodedLength(e);
    ModWhole(|EncodeEntry(e)|, Bits.TWO_32);
  }

  lemma {:induction false} EncodedLength(e: LsmEntry)
    ensures |EncodeEntry(e)| == 25 + |e.key| % Bits.TWO_32 + |e.value| % Bits.TWO_32
  {
  }

  lemma {:induction false} ModWhole(x: nat, m: nat)
    requires m > 0
    ensures x % m <= x && (x % m == x <==> x < m)
  {
  }

  lemma {:induction false} DataStep(entries: seq<LsmEntry>, n: nat)
    requires 0 < n <= |entries|
    ensures |Data(entries, n)| == |Data(entries, n - 1)| + |EncodeEntry(entries[n - 1])|
    ensures ShortRecords(entries, n) <==> ShortRecords(entries, n - 1) && |EncodeEntry(entries[n - 1])| < Bits.TWO_32
  {
  }

  /** The offsets booked in the index are the true ones exactly while every record written so
      far is shorter than 4 GiB; past the first longer one they stay too small. */
  lemma {:induction false} OffsetExactIff(entries: seq<LsmEntry>, n: nat)
    requires n <= |entries|
    ensures Offset(entries, n) <= |Data(entries, n)|
    ensures Offset(entries, n) == |Data(entries, n)| <==> ShortRecords(entries, n)
  {
    if n > 0 {
      OffsetExactIff(entries, n - 1);
      RecordLength(entries[n - 1]);
      DataStep(entries, n);
    }
  }

  /** Every entry's key and offset, in the order of writing. */
  function Listing(entries: seq<LsmEntry>): seq<Row<nat>> {
    seq(|entries|, i requires 0 <= i < |entries| => Row(entries[i].key, Offset(entries, i)))
  }

  /** What the writing loop leaves in index_. */
  function IndexOf(entries: seq<LsmEntry>): seq<Row<nat>> { Build(Listing(entries), |entries|) }

  /** For ascending keys the index lists every entry at its offset, in order. */
  lemma {:induction false} IndexAscends(entries: seq<LsmEntry>)
    requires KeysAscend(entries)
    ensures IndexOf(entries) == Listing(entries)
  {
    ListingSorted(entries);
    BuildSorted(Listing(entries), |entries|);
    assert Listing(entries)[..|entries|] == Listing(entries);
  }

  lemma {:induction false} ListingSorted(entries: seq<LsmEntry>)
    requires KeysAscend(entries)
    ensures Sorted(Listing(entries))
  {
  }

  // The whole file.

  function IndexRow(row: Row<nat>): Bytes { Sized(row.key) + LE(row.value % Bits.TWO_64, 8) }

  function IndexRows(rows: seq<Row<nat>>): seq<Bytes> {
    seq(|rows|, i requires 0 <= i < |rows| => IndexRow(rows[i]))
  }

  function IndexBlock(rows: seq<Row<nat>>): Bytes { Concat(IndexRows(rows), |rows|) }

  function Word(x: nat): Bytes { LE(x % Bits.TWO_64, 8) }

  function Footer(bits: nat, bloomSize: nat, indexOffset: nat, count: nat): Bytes {
    Word(bits) + (Word(bloomSize) + (Word(indexOffset) + (Word(count) + Word(MAGIC))))
  }

  /** The footer's index_offset as create stores it (`shift` zero), or moved past the bloom
      block as the reader expects it. */
  function FileOf(entries: seq<LsmEntry>, bloom: Bytes, bits: nat, shift: nat): Bytes {
    var index := IndexOf(entries);
    Data(entries, |entries|)
    + (bloom + (IndexBlock(index) + Footer(bits, |bloom|, Offset(entries, |entries|) + shift, |index|)))
  }

  function Keys(entries: seq<LsmEntry>): seq<Bytes> {
    seq(|entries|, i requires 0 <= i < |entries| => entries[i].key)
  }

  function BloomBits(entries: seq<LsmEntry>, enableBloom: bool): nat {
    if enableBloom then 10 * |entries| else 0
  }

  function BloomOf(entries: seq<LsmEntry>, enableBloom: bool, hash: Hash): Bytes {
    var bits := BloomBits(entries, enableBloom);
    if bits == 0 then [] else WithKeys(bits, hash, Keys(entries), |entries|)
  }

  function TableOf(entries: seq<LsmEntry>, bloom: Bytes, bits: nat, shift: nat): Table {
    Table(FileOf(entries, bloom, bits, shift), IndexOf(entries), bloom, bits)
  }

  /** The table create returns. */
  function Created(entries: seq<LsmEntry>, enableBloom: bool, hash: Hash): Table {
    TableOf(entries, BloomOf(entries, enableBloom, hash), BloomBits(entries, enableBloom), 0)
  }

  /** The table create would return with index_offset = end of data + bloom size. */
  function Repaired(entries: seq<LsmEntry>, bloom: Bytes, bits: nat): Table {
    TableOf(entries, bloom, bits, |bloom|)
  }

  // Point reads.

  function GetIn(t: Table, hash: Hash, key: Bytes): Option<Bytes> {
    if !MightContain(t.bloom, t.bloomBits, hash, key) then None
    else
      match Lookup(t.index, key)
      case None => None
      case Some(off) =>
        match ReadRecord(t.file, off)
        case None => None
        case Some(e) => if e.key != key || e.deleted then None else Some(e.value)
  }

  // Range reads.

  /** Reading the record at an offset. */
  type Reader = nat -> Option<LsmEntry>

  function ReaderOf(file: Bytes): Reader { (off: nat) => ReadRecord(file, off) }

  /** What a range read returns that stands at index row i with `result` collected. */
  function RangeFrom(index: seq<Row<nat>>, read: Reader, i: nat, end: Bytes, limit: nat,
      result: seq<LsmEntry>): seq<LsmEntry>
    decreases |index| - i
  {
    if i >= |index| || !Less(index[i].key, end) || |result| >= limit then result
    else
      match read(index[i].value)
      case None => result
      case Some(e) => RangeFrom(index, read, i + 1, end, limit, if e.deleted then result else result + [e])
  }

  function RangeIn(t: Table, start: Bytes, end: Bytes, limit: nat): seq<LsmEntry> {
    RangeFrom(t.index, ReaderOf(t.file), LowerBound(t.index, start), end, limit, [])
  }

  // Opening a file.

  /** A row of the index block and the offset behind it. */
  datatype Parsed = Parsed(row: Row<nat>, next: nat)

  /** None when a read runs past the end of the file. */
  function ReadRow(file: Bytes, off: nat): Option<Parsed> {
    if off + 4 > |file| then None
    else
      var keyLen := UInt(file, off, 4);
      if off + 4 + keyLen + 8 > |file| then None
      else Some(Parsed(Row(file[off + 4..off + 4 + keyLen], U64(file, off + 4 + keyLen)), off + 4 + keyLen + 8))
  }

  type RowReader = nat -> Option<Parsed>

  function RowReaderOf(file: Bytes): RowReader { (off: nat) => ReadRow(file, off) }

  /** `count` index rows from this offset on. */
  function ReadRows(read: RowReader, off: nat, count: nat): Option<seq<Row<nat>>>
    decreases count
  {
    if count == 0 then Some([])
    else
      match read(off)
      case None => None
      case Some(p) =>
        match ReadRows(read, p.next, count - 1)
        case None => None
        case Some(rest) => Some([p.row] + rest)
  }

  /** The index that assigning those rows in order gives. */
  function IndexFrom(read: RowReader, off: nat, count: nat): Option<seq<Row<nat>>> {
    match ReadRows(read, off, count)
    case None => None
    case Some(rows) => Some(Build(rows, |rows|))
  }

  /** The index a file yields, when its index block can be read. */
  function IndexIn(file: Bytes, off: nat, count: nat): Option<seq<Row<nat>>> {
    IndexFrom(RowReaderOf(file), off, count)
  }

  function Ahead(rows: seq<Row<nat>>, rest: Option<seq<Row<nat>>>): Option<seq<Row<nat>>> {
    if rest.None? then None else Some(rows + rest.value)
  }

  datatype Foot = Foot(bits: u64, bloomSize: u64, indexOffset: u64, count: u64, magic: u64)

  function ReadFoot(file: Bytes, off: nat): Foot
    requires off + FOOTER <= |file|
  {
    Foot(U64(file, off), U64(file, off + 8), U64(file, off + 16), U64(file, off + 24), U64(file, off + 32))
  }

  /** The table behind a footer; None when a seek goes before the start or a read past the end. */
  function OpenedAt(file: Bytes, foot: Foot): Option<Table> {
    if foot.magic != MAGIC then Some(Table(file, [], [], 0))
    else if foot.indexOffset < foot.bloomSize || foot.indexOffset > |file| then None
    else
      match IndexIn(file, foot.indexOffset, foot.count)
      case None => None
      case Some(index) => Some(Table(file, index, file[foot.indexOffset - foot.bloomSize..foot.indexOffset], foot.bits))
  }

  /** What open rebuilds from the bytes of a file: nothing when it is too short for a footer. */
  function Opened(file: Bytes): Option<Table> {
    if |file| < FOOTER then Some(Table(file, [], [], 0)) else OpenedAt(file, ReadFoot(file, |file| - FOOTER))
  }

  lemma {:induction false} WriteStep(entries: seq<LsmEntry>, i: nat)
    requires i < |entries|
    ensures Data(entries, i) + EncodeEntry(entries[i]) == Data(entries, i + 1)
    ensures Offset(entries, i) + RecordStep(entries[i]) == Offset(entries, i + 1)
    ensures Put(Build(Listing(entries), i), entries[i].key, Offset(entries, i)) == Build(Listing(entries), i + 1)
    ensures Keys(entries)[..i] + [entries[i].key] == Keys(entries)[..i + 1]
  {
    assert Listing(entries)[i] == Row(entries[i].key, Offset(entries, i));
  }

  lemma {:induction false} AheadStep(read: RowReader, rows: seq<Row<nat>>, off: nat, left: nat)
    requires left > 0
    ensures match read(off)
            case None => Ahead(rows, ReadRows(read, off, left)) == None
            case Some(p) =>
              Ahead(rows, ReadRows(read, off, left)) == Ahead(rows + [p.row], ReadRows(read, p.next, left - 1))
  {
    if read(off).Some? {
      var p := read(off).value;
      var rest := ReadRows(read, p.next, left - 1);
      if rest.Some? { assert rows + ([p.row] + rest.value) == rows + [p.row] + rest.value; }
    }
  }

  lemma {:induction false} AheadDone(read: RowReader, rows: seq<Row<nat>>, off: nat)
    ensures Ahead(rows, ReadRows(read, off, 0)) == Some(rows)
  {
    assert rows + [] == rows;
  }

  lemma {:induction false} AheadStart(rest: Option<seq<Row<nat>>>)
    ensures Ahead([], rest) == rest
  {
    if rest.Some? { assert [] + rest.value == rest.value; }
  }

  /** The reading loop stands at `off` with `index` built from `rows` and `left` rows to go. */
  predicate Reading(whole: Option<seq<Row<nat>>>, read: RowReader, off: nat, left: nat, index: seq<Row<nat>>,
      rows: seq<Row<nat>>)
  {
    index == Build(rows, |rows|) && Ahead(rows, ReadRows(read, off, left)) == whole
  }

  lemma {:induction false} ReadingStep(whole: Option<seq<Row<nat>>>, read: RowReader, off: nat, left: nat,
      index: seq<Row<nat>>, rows: seq<Row<nat>>)
    requires Reading(whole, read, off, left, index, rows) && left > 0
    ensures match read(off)
            case None => whole == None
            case Some(p) => Reading(whole, read, p.next, left - 1, Put(index, p.row.key, p.row.value), rows + [p.row])
  {
    AheadStep(read, rows, off, left);
    if read(off).Some? { BuildPrefix(rows, read(off).value.row); }
  }

  /** The reading loop of read_bloom_filter. */
  method ReadIndex(read: RowReader, indexOffset: nat, count: nat) returns (r: Option<seq<Row<nat>>>)
    ensures r == IndexFrom(read, indexOffset, count)
  {
    var off, i, index := indexOffset, 0, [];
    ghost var whole, rows := ReadRows(read, off, count), [];
    AheadStart(whole);
    while i < count
      invariant i <= count && Reading(whole, read, off, count - i, index, rows)
    {
      ReadingStep(whole, read, off, count - i, index, rows);
      var p := read(off);
      if p.None? { return None; }
      index, rows := Put(index, p.value.row.key, p.value.row.value), rows + [p.value.row];
      off, i := p.value.next, i + 1;
    }
    AheadDone(read, rows, off);
    return Some(index);
  }

  lemma {:induction false} FileParts(entries: seq<LsmEntry>, bloom: Bytes, bits: nat)
    ensures Data(entries, |entries|) + bloom
            + (IndexBlock(IndexOf(entries)) + Footer(bits, |bloom|, Offset(entries, |entries|), |IndexOf(entries)|))
         == FileOf(entries, bloom, bits, 0)
  {
  }

  class SSTable {
    var file: Bytes
    var index: seq<Row<nat>>
    var bloom: Bytes
    var bloomBits: nat

    ghost function Model(): Table
      reads this
    {
      Table(file, index, bloom, bloomBits)
    }

    constructor Create(entries: seq<LsmEntry>, enableBloom: bool, hash: Hash)
      ensures Model() == Created(entries, enableBloom, hash)
    {
      file, index, bloom, bloomBits := [], [], [], 0;
      new;
      var keys, currentOffset := WriteData(entries);
      if enableBloom { WriteBloomFilter(keys, hash); }
      file := file + bloom;
      WriteIndex(currentOffset);
      FileParts(entries, bloom, bloomBits);
    }

    /** The writing loop of create. */
    method WriteData(entries: seq<LsmEntry>) returns (keys: seq<Bytes>, currentOffset: nat)
      requires file == [] && index == []
      modifies this`file, this`index
      ensures file == Data(entries, |entries|) && index == IndexOf(entries)
      ensures keys == Keys(entries) && currentOffset == Offset(entries, |entries|)
    {
      keys, currentOffset := [], 0;
      for i := 0 to |entries|
        invariant file == Data(entries, i) && currentOffset == Offset(entries, i)
        invariant index == Build(Listing(entries), i) && keys == Keys(entries)[..i]
      {
        WriteStep(entries, i);
        index := Put(index, entries[i].key, currentOffset);
        keys := keys + [entries[i].key];
        file := file + EncodeEntry(entries[i]);
        currentOffset := currentOffset + RecordStep(entries[i]);
      }
    }

    method WriteBloomFilter(keys: seq<Bytes>, hash: Hash)
      modifies this`bloom, this`bloomBits
      ensures keys == [] ==> bloom == old(bloom) && bloomBits == old(bloomBits)
      ensures keys != [] ==> bloomBits == 10 * |keys| && bloom == WithKeys(bloomBits, hash, keys, |keys|)
    {
      if keys == [] { return; }
      bloomBits := |keys| * 10;
      bloom := seq(BloomBytes(bloomBits), _ => 0);
      for i := 0 to |keys|
        invariant bloomBits == |keys| * 10 && bloom == WithKeys(bloomBits, hash, keys, i)
      {
        bloom := SetKey(bloom, bloomBits, hash, keys[i]);
      }
    }

    /** The end of create: the index block and the footer. */
    method WriteIndex(indexOffset: nat)
      modifies this`file
      ensures file == old(file) + (IndexBlock(index) + Footer(bloomBits, |bloom|, indexOffset, |index|))
    {
      for i := 0 to |index|
        invariant file == old(file) + Concat(IndexRows(index), i)
      {
        file := file + IndexRow(index[i]);
      }
      file := file + Footer(bloomBits, |bloom|, indexOffset, |index|);
    }

    /** open, on a table that holds the file and nothing else; false when a read fails. */
    method ReadBloomFilter() returns (ok: bool)
      requires index == [] && bloom == [] && bloomBits == 0
      modifies this`index, this`bloom, this`bloomBits
      ensures ok == Opened(file).Some?
      ensures ok ==> Opened(file) == Some(Model())
    {
      if |file| < FOOTER { return true; }
      var foot := ReadFoot(file, |file| - FOOTER);
      assert Opened(file) == OpenedAt(file, foot);
      ok := ReadBlocks(foot);
    }

    method ReadBlocks(foot: Foot) returns (ok: bool)
      requires index == [] && bloom == [] && bloomBits == 0
      modifies this`index, this`bloom, this`bloomBits
      ensures ok == OpenedAt(file, foot).Some?
      ensures ok ==> OpenedAt(file, foot) == Some(Model())
    {
      if foot.magic != MAGIC { return true; }
      if foot.indexOffset < foot.bloomSize || foot.indexOffset > |file| { return false; }
      bloomBits := foot.bits;
      bloom := file[foot.indexOffset - foot.bloomSize..foot.indexOffset];
      var rows := ReadIndex(RowReaderOf(file), foot.indexOffset, foot.count);
      if rows.None? { return false; }
      index := rows.value;
      return true;
    }

    method MightContain(key: Bytes, hash: Hash) returns (maybe: bool)
      ensures maybe <==> Bloom.MightContain(bloom, bloomBits, hash, key)
    {
      if bloom == [] || bloomBits == 0 { return true; }
      for seed := 0 to 3
        invariant forall s :: 0 <= s < seed ==> HasBit(bloom, hash(key, s) % bloomBits)
      {
        if !HasBit(bloom, hash(key, seed) % bloomBits) { return false; }
      }
      return true;
    }

    method Get(key: Bytes, hash: Hash) returns (value: Option<Bytes>)
      ensures value == GetIn(Model(), hash, key)
    {
      var maybe := MightContain(key, hash);
      if !maybe { return None; }
      var at := Lookup(index, key);
      if at.None? { return None; }
      var record := ReadRecord(file, at.value);
      if record.None? || record.value.key != key || record.value.deleted { return None; }
      return Some(record.value.value);
    }

    method Range(start: Bytes, end: Bytes, limit: nat) returns (result: seq<LsmEntry>)
      ensures result == RangeIn(Model(), start, end, limit)
    {
      result := [];
      var i := LowerBound(index, start);
      while i < |index| && Less(index[i].key, end) && |result| < limit
        invariant RangeIn(Model(), start, end, limit) == RangeFrom(index, ReaderOf(file), i, end, limit, result)
        decreases |index| - i
      {
        var record := ReadRecord(file, index[i].value);
        if record.None? { return; }
        if !record.value.deleted { result := result + [record.value]; }
        i := i + 1;
      }
    }
  }
}
