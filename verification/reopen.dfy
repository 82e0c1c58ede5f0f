/** Reopening an SSTable file: when open rebuilds the table that create returned. */
module Reopen {
  import Bits
  import opened Bloom
  import opened Bytes
  import opened MemTables
  import opened OrderedRows
  import opened Records
  import opened SSTables
  import opened Wrappers

  // The footer.

  lemma {:induction false} ReadWord(file: Bytes, off: nat, x: nat)
    requires At(file, off, Word(x)) && x < Bits.TWO_64
    ensures off + 8 <= |file| && U64(file, off) == x
  {
    Pow256Values();
    ReadLE(file, off, x, 8);
  }

  lemma {:induction false} ReadFooter(file: Bytes, off: nat, bits: u64, bloomSize: u64, indexOffset: u64, count: u64)
    requires At(file, off, Footer(bits, bloomSize, indexOffset, count))
    ensures off + FOOTER <= |file| && ReadFoot(file, off) == Foot(bits, bloomSize, indexOffset, count, MAGIC)
  {
    var tail2 := Word(count) + Word(MAGIC);
    var tail3 := Word(indexOffset) + tail2;
    AtSplit(file, off, Word(bits), Word(bloomSize) + tail3);
    AtSplit(file, off + 8, Word(bloomSize), tail3);
    AtSplit(file, off + 16, Word(indexOffset), tail2);
    AtSplit(file, off + 24, Word(count), Word(MAGIC));
    ReadWord(file, off, bits);
    ReadWord(file, off + 8, bloomSize);
    ReadWord(file, off + 16, indexOffset);
    ReadWord(file, off + 24, count);
    ReadWord(file, off + 32, MAGIC);
  }

  // The index block.

  predicate ShortKeys(rows: seq<Row<nat>>) { forall i :: 0 <= i < |rows| ==> |rows[i].key| < Bits.TWO_32 }

  predicate Addressable(rows: seq<Row<nat>>) {
    forall i :: 0 <= i < |rows| ==> rows[i].value < Bits.TWO_64
  }

  lemma {:induction false} ReadIndexRow(file: Bytes, off: nat, row: Row<nat>)
    requires At(file, off, IndexRow(row)) && |row.key| < Bits.TWO_32 && row.value < Bits.TWO_64
    ensures |IndexRow(row)| == 12 + |row.key| && off + 12 + |row.key| <= |file|
    ensures UInt(file, off, 4) == |row.key| && file[off + 4..off + 4 + |row.key|] == row.key
    ensures U64(file, off + 4 + |row.key|) == row.value
  {
    AtSplit(file, off, Sized(row.key), Word(row.value));
    ReadSized(file, off, row.key);
    ReadWord(file, off + 4 + |row.key|, row.value);
  }

  lemma {:induction false} RowBack(file: Bytes, off: nat, row: Row<nat>)
    requires At(file, off, IndexRow(row)) && |row.key| < Bits.TWO_32 && row.value < Bits.TWO_64
    ensures ReadRow(file, off) == Some(Parsed(row, off + |IndexRow(row)|))
  {
    ReadIndexRow(file, off, row);
  }

  lemma {:induction false} RowAt(file: Bytes, off: nat, rows: seq<Row<nat>>, i: nat)
    requires At(file, off, IndexBlock(rows)) && i < |rows|
    ensures At(file, off + |Concat(IndexRows(rows), i)|, IndexRow(rows[i]))
  {
    ConcatAt(IndexRows(rows), |rows|, i, []);
    assert IndexBlock(rows) + [] == IndexBlock(rows);
    AtAt(file, off, IndexBlock(rows), |Concat(IndexRows(rows), i)|, IndexRow(rows[i]));
  }

  /** Where the rows of an index block begin, and where it ends. */
  function RowOffsets(off: nat, rows: seq<Row<nat>>): seq<nat> {
    seq(|rows| + 1, i requires 0 <= i <= |rows| => off + |Concat(IndexRows(rows), i)|)
  }

  lemma {:induction false} RowParsed(file: Bytes, off: nat, rows: seq<Row<nat>>, j: nat)
    requires At(file, off, IndexBlock(rows)) && j < |rows| && |rows[j].key| < Bits.TWO_32 && rows[j].value < Bits.TWO_64
    ensures ReadRow(file, RowOffsets(off, rows)[j]) == Some(Parsed(rows[j], RowOffsets(off, rows)[j + 1]))
  {
    RowAt(file, off, rows, j);
    RowBack(file, off + |Concat(IndexRows(rows), j)|, rows[j]);
  }

  predicate RowsBack(read: RowReader, offs: seq<nat>, rows: seq<Row<nat>>) {
    && |offs| == |rows| + 1
    && forall j {:trigger rows[j]} :: 0 <= j < |rows| ==> read(offs[j]) == Some(Parsed(rows[j], offs[j + 1]))
  }

  lemma {:induction false} BlockBack(file: Bytes, off: nat, rows: seq<Row<nat>>)
    requires At(file, off, IndexBlock(rows)) && ShortKeys(rows) && Addressable(rows)
    ensures RowsBack(RowReaderOf(file), RowOffsets(off, rows), rows)
  {
    forall j {:trigger rows[j]} | 0 <= j < |rows|
      ensures RowReaderOf(file)(RowOffsets(off, rows)[j]) == Some(Parsed(rows[j], RowOffsets(off, rows)[j + 1]))
    {
      RowParsed(file, off, rows, j);
    }
  }

  /** Parsing the index block from row i on gives the rows from i on. */
  lemma {:induction false} ReadRowsBack(read: RowReader, offs: seq<nat>, rows: seq<Row<nat>>, i: nat)
    requires RowsBack(read, offs, rows) && i <= |rows|
    ensures ReadRows(read, offs[i], |rows| - i) == Some(rows[i..])
    decreases |rows| - i
  {
    if i < |rows| {
      ReadRowsBack(read, offs, rows, i + 1);
      assert rows[i..] == [rows[i]] + rows[i + 1..];
    }
  }

  lemma {:induction false} BuildShort(rows: seq<Row<nat>>, n: nat)
    requires ShortKeys(rows) && n <= |rows|
    ensures ShortKeys(Build(rows, n))
  {
    if n > 0 {
      BuildShort(rows, n - 1);
      PutShort(Build(rows, n - 1), rows[n - 1].key, rows[n - 1].value);
    }
  }

  lemma {:induction false} PutShort(rows: seq<Row<nat>>, k: Bytes, v: nat)
    requires ShortKeys(rows) && |k| < Bits.TWO_32
    ensures ShortKeys(Put(rows, k, v))
  {
  }

  lemma {:induction false} ReadRowShort(file: Bytes, off: nat)
    requires ReadRow(file, off).Some?
    ensures |ReadRow(file, off).value.row.key| < Bits.TWO_32
  {
    Pow256Values();
  }

  /** No key longer than its 32-bit length field ever comes out of an index block. */
  lemma {:induction false} ReadRowsShort(read: RowReader, off: nat, count: nat)
    requires forall o: nat :: read(o).Some? ==> |read(o).value.row.key| < Bits.TWO_32
    requires ReadRows(read, off, count).Some?
    ensures ShortKeys(ReadRows(read, off, count).value)
    decreases count
  {
    if count > 0 { ReadRowsShort(read, read(off).value.next, count - 1); }
  }

  // Opening what create wrote.

  predicate FooterIn(t: Table, off: nat) {
    && |t.bloom| < Bits.TWO_64 && off < Bits.TWO_64 && t.bloomBits < Bits.TWO_64 && |t.index| < Bits.TWO_64
    && |t.file| >= FOOTER && At(t.file, |t.file| - FOOTER, Footer(t.bloomBits, |t.bloom|, off, |t.index|))
  }

  /** What the reader needs: a footer that points at the index, behind the bloom block. */
  predicate WellFormed(t: Table, off: nat) {
    FooterIn(t, off) && |t.bloom| <= off && At(t.file, off - |t.bloom|, t.bloom) && At(t.file, off, IndexBlock(t.index))
  }

  lemma {:induction false} FootBack(t: Table, off: nat)
    requires FooterIn(t, off)
    ensures ReadFoot(t.file, |t.file| - FOOTER) == Foot(t.bloomBits, |t.bloom|, off, |t.index|, MAGIC)
  {
    ReadFooter(t.file, |t.file| - FOOTER, t.bloomBits, |t.bloom|, off, |t.index|);
  }

  lemma {:induction false} IndexIff(file: Bytes, off: nat, rows: seq<Row<nat>>)
    requires At(file, off, IndexBlock(rows)) && Sorted(rows) && Addressable(rows)
    ensures IndexIn(file, off, |rows|) == Some(rows) <==> ShortKeys(rows)
  {
    var read := RowReaderOf(file);
    if ShortKeys(rows) {
      BlockBack(file, off, rows);
      ReadRowsBack(read, RowOffsets(off, rows), rows, 0);
      BuildSorted(rows, |rows|);
      assert rows[0..] == rows[..|rows|] == rows && RowOffsets(off, rows)[0] == off;
    } else if ReadRows(read, off, |rows|).Some? {
      forall o: nat | read(o).Some? ensures |read(o).value.row.key| < Bits.TWO_32 { ReadRowShort(file, o); }
      ReadRowsShort(read, off, |rows|);
      BuildShort(ReadRows(read, off, |rows|).value, |ReadRows(read, off, |rows|).value|);
    }
  }

  lemma {:induction false} OpenedIndex(file: Bytes, foot: Foot)
    requires foot.magic == MAGIC && foot.bloomSize <= foot.indexOffset <= |file|
    ensures OpenedAt(file, foot).Some? <==> IndexIn(file, foot.indexOffset, foot.count).Some?
    ensures OpenedAt(file, foot).Some?
        ==> OpenedAt(file, foot).value.index == IndexIn(file, foot.indexOffset, foot.count).value
  {
  }

  lemma {:induction false} OpenedAtIff(t: Table, foot: Foot)
    requires foot.bits == t.bloomBits && foot.bloomSize == |t.bloom| && foot.count == |t.index| && foot.magic == MAGIC
    requires |t.bloom| <= foot.indexOffset <= |t.file|
        && t.file[foot.indexOffset - |t.bloom|..foot.indexOffset] == t.bloom
    ensures OpenedAt(t.file, foot) == Some(t) <==> IndexIn(t.file, foot.indexOffset, |t.index|) == Some(t.index)
  {
  }

  lemma {:induction false} OpenedThrough(t: Table, off: nat, foot: Foot)
    requires FooterIn(t, off) && foot == Foot(t.bloomBits, |t.bloom|, off, |t.index|, MAGIC)
    ensures Opened(t.file) == OpenedAt(t.file, foot)
  {
    FootBack(t, off);
  }

  /** Such a file is opened back to the table it was written for exactly when every key is
      shorter than 2^32 bytes. */
  lemma {:induction false} OpenIff(t: Table, off: nat)
    requires WellFormed(t, off) && Sorted(t.index) && Addressable(t.index)
    ensures Opened(t.file) == Some(t) <==> ShortKeys(t.index)
  {
    var foot := Foot(t.bloomBits, |t.bloom|, off, |t.index|, MAGIC);
    OpenedThrough(t, off, foot);
    IndexIff(t.file, off, t.index);
    OpenedAtIff(t, foot);
  }

  lemma {:induction false} DataLength(entries: seq<LsmEntry>, i: nat, n: nat)
    requires i <= n <= |entries|
    ensures |Data(entries, n)| >= 25 * n && |Data(entries, i)| <= |Data(entries, n)|
  {
    if n > 0 {
      DataLength(entries, if i < n then i else n - 1, n - 1);
      EncodedLength(entries[n - 1]);
      DataStep(entries, n);
    }
  }

  lemma {:induction false} Layout(data: Bytes, bloom: Bytes, index: Bytes, foot: Bytes)
    ensures var file := data + (bloom + (index + foot));
      && |file| == |data| + |bloom| + |index| + |foot|
      && At(file, |data|, bloom) && At(file, |data| + |bloom|, index) && At(file, |data| + |bloom| + |index|, foot)
  {
    var file := data + (bloom + (index + foot));
    assert file == data + bloom + (index + foot) == (data + bloom) + index + foot == (data + bloom + index) + foot + [];
    AtSuffix(data, bloom, index + foot);
    AtSuffix(data + bloom, index, foot);
    AtSuffix(data + bloom + index, foot, []);
  }

  lemma {:induction false} ListingAddressable(entries: seq<LsmEntry>)
    requires |Data(entries, |entries|)| < Bits.TWO_64
    ensures Addressable(Listing(entries)) && 10 * |entries| < Bits.TWO_64
  {
    DataLength(entries, 0, |entries|);
    forall i | 0 <= i < |entries| ensures Listing(entries)[i].value < Bits.TWO_64 {
      OffsetExactIff(entries, i);
      DataLength(entries, i, |entries|);
    }
  }

  /** The file is data, bloom block, index block and a footer with this index_offset. */
  predicate SpelledOut(t: Table, data: Bytes, indexOffset: nat) {
    t.file == data + (t.bloom + (IndexBlock(t.index) + Footer(t.bloomBits, |t.bloom|, indexOffset, |t.index|)))
  }

  lemma {:induction false} TableSpelled(entries: seq<LsmEntry>, bloom: Bytes, bits: nat, shift: nat, t: Table)
    requires KeysAscend(entries) && ShortRecords(entries, |entries|) && t == TableOf(entries, bloom, bits, shift)
    ensures SpelledOut(t, Data(entries, |entries|), |Data(entries, |entries|)| + shift)
    ensures t.index == Listing(entries) && t.bloom == bloom && t.bloomBits == bits
  {
    OffsetExactIff(entries, |entries|);
    IndexAscends(entries);
  }

  lemma {:induction false} SpelledParts(t: Table, data: Bytes, indexOffset: nat)
    requires SpelledOut(t, data, indexOffset)
    ensures |data| + |t.bloom| + |IndexBlock(t.index)| <= |t.file|
    ensures At(t.file, |data|, t.bloom) && At(t.file, |data| + |t.bloom|, IndexBlock(t.index))
  {
    Layout(data, t.bloom, IndexBlock(t.index), Footer(t.bloomBits, |t.bloom|, indexOffset, |t.index|));
  }

  lemma {:induction false} SpelledFooter(t: Table, data: Bytes, indexOffset: nat)
    requires SpelledOut(t, data, indexOffset) && indexOffset < Bits.TWO_64 && |t.file| < Bits.TWO_64
    requires t.bloomBits < Bits.TWO_64 && |t.index| < Bits.TWO_64
    ensures FooterIn(t, indexOffset)
  {
    Layout(data, t.bloom, IndexBlock(t.index), Footer(t.bloomBits, |t.bloom|, indexOffset, |t.index|));
  }

  /** What the lemmas on opening need of a table whose file is spelled out. */
  predicate Sized64(t: Table) { |t.file| < Bits.TWO_64 && t.bloomBits < Bits.TWO_64 && |t.index| < Bits.TWO_64 }

  /** A spelled-out file whose footer points behind the bloom block is what the reader needs. */
  lemma {:induction false} SpelledWellFormed(t: Table, data: Bytes)
    requires SpelledOut(t, data, |data| + |t.bloom|) && Sized64(t)
    ensures WellFormed(t, |data| + |t.bloom|) && |data| < Bits.TWO_64
  {
    SpelledParts(t, data, |data| + |t.bloom|);
    SpelledFooter(t, data, |data| + |t.bloom|);
  }

  lemma {:induction false} FewEntries(t: Table, entries: seq<LsmEntry>, data: Bytes, indexOffset: nat)
    requires SpelledOut(t, data, indexOffset) && |t.file| < Bits.TWO_64 && data == Data(entries, |entries|)
    ensures 25 * |entries| <= |data| < Bits.TWO_64
  {
    SpelledParts(t, data, indexOffset);
    DataLength(entries, 0, |entries|);
  }

  /** The repaired footer is what the reader needs. */
  lemma {:induction false} RepairedWellFormed(entries: seq<LsmEntry>, t: Table, data: Bytes)
    requires t.index == Listing(entries) && data == Data(entries, |entries|)
    requires SpelledOut(t, data, |data| + |t.bloom|) && |t.file| < Bits.TWO_64 && t.bloomBits < Bits.TWO_64
    ensures WellFormed(t, |data| + |t.bloom|) && |data| < Bits.TWO_64
  {
    FewEntries(t, entries, data, |data| + |t.bloom|);
    SpelledWellFormed(t, data);
  }

  lemma {:induction false} OpenListing(entries: seq<LsmEntry>, t: Table, off: nat)
    requires WellFormed(t, off) && t.index == Listing(entries)
    requires KeysAscend(entries) && |Data(entries, |entries|)| < Bits.TWO_64
    ensures Opened(t.file) == Some(t) <==> ShortEntryKeys(entries)
  {
    ListingSorted(entries);
    ListingAddressable(entries);
    ListingShort(entries);
    OpenIff(t, off);
  }

  predicate ShortEntryKeys(entries: seq<LsmEntry>) {
    forall i :: 0 <= i < |entries| ==> |entries[i].key| < Bits.TWO_32
  }

  lemma {:induction false} ListingShort(entries: seq<LsmEntry>)
    ensures ShortKeys(Listing(entries)) <==> ShortEntryKeys(entries)
  {
    forall i | 0 <= i < |entries| ensures Listing(entries)[i].key == entries[i].key {
    }
  }

  lemma {:induction false} RepairedOpens(entries: seq<LsmEntry>, t: Table, data: Bytes)
    requires KeysAscend(entries) && t.index == Listing(entries) && data == Data(entries, |entries|)
    requires SpelledOut(t, data, |data| + |t.bloom|) && |t.file| < Bits.TWO_64 && t.bloomBits < Bits.TWO_64
    ensures Opened(t.file) == Some(t) <==> ShortEntryKeys(entries)
  {
    RepairedWellFormed(entries, t, data);
    OpenListing(entries, t, |data| + |t.bloom|);
  }

  /** With index_offset = end of data + bloom size, and whatever the bloom block holds, open
      rebuilds create's table exactly when every key is shorter than 2^32 bytes. */
  lemma {:induction false} RepairedReopensIff(entries: seq<LsmEntry>, bloom: Bytes, bits: u64)
    requires KeysAscend(entries) && ShortRecords(entries, |entries|)
    requires |Repaired(entries, bloom, bits).file| < Bits.TWO_64
    ensures Opened(Repaired(entries, bloom, bits).file) == Some(Repaired(entries, bloom, bits))
        <==> ShortEntryKeys(entries)
  {
    TableSpelled(entries, bloom, bits, |bloom|, Repaired(entries, bloom, bits));
    RepairedOpens(entries, Repaired(entries, bloom, bits), Data(entries, |entries|));
  }

  /** As the code stands, open does so whenever the bloom block is empty. */
  lemma {:induction false} ReopensIff(entries: seq<LsmEntry>, enableBloom: bool, hash: Hash)
    requires KeysAscend(entries) && ShortRecords(entries, |entries|)
    requires !enableBloom || entries == []
    requires |Created(entries, enableBloom, hash).file| < Bits.TWO_64
    ensures Opened(Created(entries, enableBloom, hash).file) == Some(Created(entries, enableBloom, hash))
       <==> ShortEntryKeys(entries)
  {
    RepairedReopensIff(entries, [], 0);
  }
}
