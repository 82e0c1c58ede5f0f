/** The file as create writes it, with its bloom block: when open rebuilds create's index all the
    same. */
module ReopenOrder {
  import Bits
  import opened Bloom
  import opened Bytes
  import opened MemTables
  import opened OrderedRows
  import opened Records
  import opened Reopen
  import opened SSTables
  import opened Wrappers

  type Rows = seq<Row<nat>>

  /** The same rows in some order. */
  ghost predicate Permutes(rows: Rows, index: Rows) { multiset(rows) == multiset(index) }

  lemma {:induction false} PermutesIn(rows: Rows, index: Rows)
    requires Permutes(rows, index)
    ensures |rows| == |index| && forall x :: x in rows <==> x in index
  {
    assert |multiset(rows)| == |rows| && |multiset(index)| == |index|;
    forall x ensures x in rows <==> x in index { assert x in rows <==> x in multiset(rows); }
  }

  // Building a map from rows in any order.

  lemma {:induction false} PutWithin(rows: Rows, k: Bytes, v: nat)
    ensures forall x :: x in Put(rows, k, v) ==> x in rows || x == Row(k, v)
    ensures Row(k, v) in Put(rows, k, v)
  {
    var i := LowerBound(rows, k);
    if i < |rows| && rows[i].key == k {
      assert rows[i := Row(k, v)][i] == Row(k, v);
    } else {
      assert (rows[..i] + [Row(k, v)] + rows[i..])[i] == Row(k, v);
    }
  }

  lemma {:induction false} Inserted(a: Rows, x: Row<nat>, b: Rows)
    ensures multiset(a + [x] + b) == multiset(a + b) + multiset{x}
  {
  }

  lemma {:induction false} PutAdds(rows: Rows, k: Bytes, v: nat)
    requires |Put(rows, k, v)| == |rows| + 1
    ensures multiset(Put(rows, k, v)) == multiset(rows) + multiset{Row(k, v)}
  {
    var i := LowerBound(rows, k);
    assert rows == rows[..i] + rows[i..];
    Inserted(rows[..i], Row(k, v), rows[i..]);
  }

  lemma {:induction false} BuildWithin(rows: Rows, n: nat)
    requires n <= |rows|
    ensures forall x :: x in Build(rows, n) ==> x in rows
  {
    if n > 0 {
      BuildWithin(rows, n - 1);
      PutWithin(Build(rows, n - 1), rows[n - 1].key, rows[n - 1].value);
      assert rows[n - 1] in rows;
    }
  }

  lemma {:induction false} OneAdded(rows: Rows, x: Row<nat>)
    ensures multiset(rows + [x]) == multiset(rows) + multiset{Row(x.key, x.value)}
  {
    assert x == Row(x.key, x.value);
  }

  lemma {:induction false} FullStep(before: Rows, init: Rows, x: Row<nat>, after: Rows)
    requires after == Put(before, x.key, x.value) && |after| == |before| + 1 && multiset(before) == multiset(init)
    ensures multiset(after) == multiset(init + [x])
  {
    PutAdds(before, x.key, x.value);
    OneAdded(init, x);
  }

  /** A map with as many entries as rows were assigned has exactly those. */
  lemma {:induction false} BuildFull(rows: Rows, n: nat)
    requires n <= |rows| && |Build(rows, n)| == n
    ensures multiset(Build(rows, n)) == multiset(rows[..n])
  {
    if n == 0 {
      assert rows[..0] == [];
    } else {
      BuildAdds(rows, n);
      BuildFull(rows, n - 1);
      FullStep(Build(rows, n - 1), rows[..n - 1], rows[n - 1], Build(rows, n));
      FirstRows(rows, n);
    }
  }

  lemma {:induction false} PutSize(rows: Rows, k: Bytes, v: nat)
    ensures |Put(rows, k, v)| <= |rows| + 1
  {
  }

  lemma {:induction false} BuildSize(rows: Rows, n: nat)
    requires n <= |rows|
    ensures |Build(rows, n)| <= n
  {
    if n > 0 {
      BuildSize(rows, n - 1);
      PutSize(Build(rows, n - 1), rows[n - 1].key, rows[n - 1].value);
    }
  }

  lemma {:induction false} BuildAdds(rows: Rows, n: nat)
    requires 0 < n <= |rows| && |Build(rows, n)| == n
    ensures |Build(rows, n - 1)| == n - 1
        && Build(rows, n) == Put(Build(rows, n - 1), rows[n - 1].key, rows[n - 1].value)
  {
    BuildSize(rows, n - 1);
    PutSize(Build(rows, n - 1), rows[n - 1].key, rows[n - 1].value);
  }

  lemma {:induction false} FirstRows(rows: Rows, n: nat)
    requires 0 < n <= |rows|
    ensures rows[..n] == rows[..n - 1] + [rows[n - 1]]
  {
  }

  lemma {:induction false} BuildHasKey(rows: Rows, n: nat, j: nat)
    requires j < n <= |rows|
    ensures Sorted(Build(rows, n)) && Lookup(Build(rows, n), rows[j].key).Some?
  {
    if n > 1 { BuildHasKey(rows, n - 1, if j < n - 1 then j else 0); }
    PutSorted(Build(rows, n - 1), rows[n - 1].key, rows[n - 1].value);
    PutLookup(Build(rows, n - 1), rows[n - 1].key, rows[n - 1].value, rows[j].key);
  }

  lemma {:induction false} SameKey(index: Rows, x: Row<nat>, y: Row<nat>)
    requires Sorted(index) && x in index && y in index && x.key == y.key
    ensures x == y
  {
    var i :| 0 <= i < |index| && index[i] == x;
    var j :| 0 <= j < |index| && index[j] == y;
    LookupFinds(index, i);
    LookupFinds(index, j);
  }

  lemma {:induction false} FirstLeast(rows: Rows, x: Row<nat>)
    requires Sorted(rows) && x in rows
    ensures x == rows[0] || Less(rows[0].key, x.key)
  {
    var i :| 0 <= i < |rows| && rows[i] == x;
  }

  lemma {:induction false} SomeRow(rows: Rows)
    requires rows != []
    ensures exists x :: x in rows
  {
    assert rows[0] in rows;
  }

  /** Two sorted maps with the same rows are the same. */
  lemma {:induction false} SameRows(a: Rows, b: Rows)
    requires Sorted(a) && Sorted(b) && forall x :: x in a <==> x in b
    ensures a == b
    decreases |a|
  {
    if a != [] && b != [] {
      assert a[0] in b && b[0] in a;
      FirstLeast(a, b[0]);
      FirstLeast(b, a[0]);
      LessTotal(a[0].key, b[0].key);
      LessIrreflexive(a[0].key);
      assert a[0] == b[0];
      RestRows(a);
      RestRows(b);
      SameRows(a[1..], b[1..]);
    } else if a != [] {
      SomeRow(a);
    } else if b != [] {
      SomeRow(b);
    }
  }

  lemma {:induction false} RestRows(a: Rows)
    requires Sorted(a) && a != []
    ensures Sorted(a[1..]) && forall x :: x in a[1..] <==> x in a && x != a[0]
  {
    assert a == [a[0]] + a[1..];
    forall x | x in a[1..] ensures x != a[0] {
      var i :| 0 <= i < |a[1..]| && a[1..][i] == x;
      assert Less(a[0].key, a[i + 1].key);
      LessIrreflexive(a[0].key);
    }
  }

  /** Assigning a sorted map's rows in any order gives the map. */
  lemma {:induction false} BuildPermuted(rows: Rows, index: Rows)
    requires Permutes(rows, index) && Sorted(index)
    ensures Build(rows, |rows|) == index
  {
    var built := Build(rows, |rows|);
    PermutesIn(rows, index);
    BuildWithin(rows, |rows|);
    if rows != [] {
      BuildHasKey(rows, |rows|, 0);
    }
    assert Sorted(built);
    forall x | x in index ensures x in built {
      var j :| 0 <= j < |rows| && rows[j] == x;
      BuildHasKey(rows, |rows|, j);
      var y := built[LowerBound(built, x.key)];
      assert y in built;
      SameKey(index, x, y);
    }
    SameRows(built, index);
  }

  /** And only that does. */
  lemma {:induction false} PermutedBuild(rows: Rows, index: Rows)
    requires |rows| == |index| && Build(rows, |rows|) == index
    ensures Permutes(rows, index)
  {
    BuildFull(rows, |rows|);
    assert rows[..|rows|] == rows;
  }

  // Reading rows back, and what they must have been.

  lemma {:induction false} AtJoin(file: Bytes, off: nat, a: Bytes, b: Bytes)
    requires At(file, off, a) && At(file, off + |a|, b)
    ensures At(file, off, a + b)
  {
    assert file[off..off + |a + b|] == file[off..off + |a|] + file[off + |a|..off + |a| + |b|];
  }

  lemma {:induction false} BytesBack(b: Bytes)
    ensures LE(FromLE(b), |b|) == b
  {
    LERoundTrip(FromLE(b), |b|);
    FromLEInjective(LE(FromLE(b), |b|), b);
  }

  lemma {:induction false} FieldAt(file: Bytes, off: nat, n: nat)
    requires off + n <= |file|
    ensures At(file, off, LE(UInt(file, off, n), n)) && UInt(file, off, n) < Pow256(n)
  {
    BytesBack(file[off..off + n]);
  }

  /** Where a row can be read its bytes stand. */
  lemma {:induction false} RowStands(file: Bytes, off: nat)
    requires ReadRow(file, off).Some?
    ensures var p := ReadRow(file, off).value;
      At(file, off, IndexRow(p.row)) && p.next == off + |IndexRow(p.row)| && |p.row.key| < Bits.TWO_32
      && p.row.value < Bits.TWO_64
  {
    var row := ReadRow(file, off).value.row;
    var n := |row.key|;
    Pow256Values();
    FieldAt(file, off, 4);
    FieldAt(file, off + 4 + n, 8);
    assert Low32(row.key) == row.key;
    AtJoin(file, off, LE(n, 4), row.key);
    AtJoin(file, off, Sized(row.key), LE(row.value, 8));
  }

  lemma {:induction false} RowsTail(rows: Rows, n: nat)
    requires 0 < n <= |rows|
    ensures Concat(IndexRows(rows), n) == IndexRow(rows[0]) + Concat(IndexRows(rows[1..]), n - 1)
  {
    if n > 1 {
      RowsTail(rows, n - 1);
      assert IndexRows(rows[1..])[n - 2] == IndexRows(rows)[n - 1];
    } else {
      assert Concat(IndexRows(rows), 0) == [] && Concat(IndexRows(rows[1..]), 0) == [];
    }
  }

  lemma {:induction false} FirstRowRead(read: RowReader, off: nat, count: nat)
    requires count > 0 && ReadRows(read, off, count).Some?
    ensures read(off).Some? && ReadRows(read, read(off).value.next, count - 1).Some?
    ensures var rows := ReadRows(read, off, count).value;
      rows != [] && rows[0] == read(off).value.row && rows[1..] == ReadRows(read, read(off).value.next, count - 1).value
  {
  }

  lemma {:induction false} ShortFirst(rows: Rows)
    requires rows != []
    ensures ShortKeys(rows) <==> |rows[0].key| < Bits.TWO_32 && ShortKeys(rows[1..])
  {
    if ShortKeys(rows[1..]) && |rows[0].key| < Bits.TWO_32 {
      forall i | 0 <= i < |rows|
        ensures |rows[i].key| < Bits.TWO_32
      {
        if i > 0 { assert rows[i] == rows[1..][i - 1]; }
      }
    }
  }

  lemma {:induction false} BlockStands(file: Bytes, off: nat, count: nat)
    requires off <= |file| && ReadRows(RowReaderOf(file), off, count).Some?
    ensures var rows := ReadRows(RowReaderOf(file), off, count).value;
      |rows| == count && At(file, off, IndexBlock(rows)) && ShortKeys(rows)
    decreases count
  {
    if count == 0 {
      assert IndexBlock([]) == [];
    } else {
      var p, rows := ReadRow(file, off).value, ReadRows(RowReaderOf(file), off, count).value;
      FirstRowRead(RowReaderOf(file), off, count);
      RowStands(file, off);
      BlockStands(file, p.next, count - 1);
      ShortFirst(rows);
      RowsTail(rows, count);
      AtJoin(file, off, IndexRow(p.row), IndexBlock(rows[1..]));
    }
  }

  ghost predicate Stands(file: Bytes, off: nat, index: Rows) {
    exists rows: Rows :: Permutes(rows, index) && At(file, off, IndexBlock(rows))
  }

  /** A map with short keys is read at an offset exactly when its rows stand there in some order. */
  lemma {:induction false} IndexReadIff(file: Bytes, off: nat, index: Rows)
    requires off <= |file| && Sorted(index) && Addressable(index)
    ensures IndexIn(file, off, |index|) == Some(index) <==> ShortKeys(index) && Stands(file, off, index)
  {
    var read := RowReaderOf(file);
    if IndexIn(file, off, |index|) == Some(index) {
      var rows := ReadRows(read, off, |index|).value;
      BlockStands(file, off, |index|);
      PermutedBuild(rows, index);
      BuildShort(rows, |rows|);
    }
    if ShortKeys(index) && Stands(file, off, index) {
      var rows: Rows :| Permutes(rows, index) && At(file, off, IndexBlock(rows));
      PermutesIn(rows, index);
      PermutedFits(rows, index);
      BlockBack(file, off, rows);
      ReadRowsBack(read, RowOffsets(off, rows), rows, 0);
      assert rows[0..] == rows && RowOffsets(off, rows)[0] == off;
      BuildPermuted(rows, index);
    }
  }

  lemma {:induction false} PermutedFits(rows: Rows, index: Rows)
    requires Permutes(rows, index) && ShortKeys(index) && Addressable(index)
    ensures ShortKeys(rows) && Addressable(rows)
  {
    PermutesIn(rows, index);
    forall j | 0 <= j < |rows| ensures |rows[j].key| < Bits.TWO_32 && rows[j].value < Bits.TWO_64 {
      assert rows[j] in index;
    }
  }

  lemma {:induction false} SpelledOpens(t: Table, data: Bytes)
    requires SpelledOut(t, data, |data|) && Sized64(t) && |data| + |t.bloom| <= |t.file|
    ensures Opened(t.file) == OpenedAt(t.file, Foot(t.bloomBits, |t.bloom|, |data|, |t.index|, MAGIC))
  {
    SpelledFooter(t, data, |data|);
    OpenedThrough(t, |data|, Foot(t.bloomBits, |t.bloom|, |data|, |t.index|, MAGIC));
  }

  /** Opening gives the index exactly when the keys are short and its rows stand at this offset,
      and the whole table exactly when the bloom block also stands before it. */
  ghost predicate OpensWhen(t: Table, again: Option<Table>, off: nat, short: bool)
    requires |t.bloom| <= off <= |t.file|
  {
    && (again.Some? && again.value.index == t.index <==> short && Stands(t.file, off, t.index))
    && (again == Some(t) <==> short && Stands(t.file, off, t.index) && t.file[off - |t.bloom|..off] == t.bloom)
  }

  lemma {:induction false} OpensIff(t: Table, foot: Foot)
    requires foot.bits == t.bloomBits && foot.bloomSize == |t.bloom| && foot.count == |t.index| && foot.magic == MAGIC
    requires |t.bloom| <= foot.indexOffset <= |t.file|
    requires Sorted(t.index) && Addressable(t.index)
    ensures OpensWhen(t, OpenedAt(t.file, foot), foot.indexOffset, ShortKeys(t.index))
  {
    OpenedIndex(t.file, foot);
    IndexReadIff(t.file, foot.indexOffset, t.index);
  }

  lemma {:induction false} SpelledReopens(t: Table, data: Bytes)
    requires SpelledOut(t, data, |data|) && Sized64(t)
    requires |t.bloom| <= |data| && Sorted(t.index) && Addressable(t.index)
    ensures |data| <= |t.file| && OpensWhen(t, Opened(t.file), |data|, ShortKeys(t.index))
  {
    SpelledParts(t, data, |data|);
    SpelledOpens(t, data);
    OpensIff(t, Foot(t.bloomBits, |t.bloom|, |data|, |t.index|, MAGIC));
  }

  lemma {:induction false} BloomShort(entries: seq<LsmEntry>, enableBloom: bool, hash: Hash)
    ensures |BloomOf(entries, enableBloom, hash)| <= 2 * |entries|
  {
  }

  /** The table opens to its own index if and only if every key is shorter than 2^32 bytes and its
      index rows stand behind the data in some order; and to itself if and only if, besides, the
      data ends in the bytes of the bloom block. */
  ghost predicate OpensExactly(t: Table, data: Bytes, entries: seq<LsmEntry>) {
    |t.bloom| <= |data| <= |t.file| && OpensWhen(t, Opened(t.file), |data|, ShortEntryKeys(entries))
  }

  /** As the code stands, whatever the bloom filter holds: what create writes opens to create's
      index, or to its whole table, exactly under those conditions.  Behind the data the bloom
      block comes first. */
  lemma {:induction false} ReopenIndexIff(entries: seq<LsmEntry>, enableBloom: bool, hash: Hash)
    requires KeysAscend(entries) && ShortRecords(entries, |entries|)
    requires |Created(entries, enableBloom, hash).file| < Bits.TWO_64
    ensures OpensExactly(Created(entries, enableBloom, hash), Data(entries, |entries|), entries)
  {
    var t := Created(entries, enableBloom, hash);
    CreatedSpelled(entries, enableBloom, hash);
    ReopenTable(entries, t, Data(entries, |entries|));
  }

  lemma {:induction false} CreatedSpelled(entries: seq<LsmEntry>, enableBloom: bool, hash: Hash)
    requires KeysAscend(entries) && ShortRecords(entries, |entries|)
    ensures var t, data := Created(entries, enableBloom, hash), Data(entries, |entries|);
      && SpelledOut(t, data, |data|) && t.index == Listing(entries)
      && t.bloomBits <= 10 * |entries| && |t.bloom| <= 2 * |entries|
  {
    var t := Created(entries, enableBloom, hash);
    TableSpelled(entries, BloomOf(entries, enableBloom, hash), BloomBits(entries, enableBloom), 0, t);
    BloomShort(entries, enableBloom, hash);
  }

  lemma {:induction false} ReopenTable(entries: seq<LsmEntry>, t: Table, data: Bytes)
    requires KeysAscend(entries) && t.index == Listing(entries) && data == Data(entries, |entries|)
    requires SpelledOut(t, data, |data|) && |t.file| < Bits.TWO_64
    requires t.bloomBits <= 10 * |entries| && |t.bloom| <= 2 * |entries|
    ensures OpensExactly(t, data, entries)
  {
    FewEntries(t, entries, data, |data|);
    ListingSorted(entries);
    ListingAddressable(entries);
    ListingShort(entries);
    SpelledReopens(t, data);
  }

  // What that asks of the bloom block.

  lemma {:induction false} ConcatSame(a: seq<Bytes>, b: seq<Bytes>, n: nat)
    requires n <= |a| && n <= |b| && forall i :: 0 <= i < n ==> a[i] == b[i]
    ensures Concat(a, n) == Concat(b, n)
  {
    if n > 0 { ConcatSame(a, b, n - 1); }
  }

  lemma {:induction false} BlockLast(rows: Rows, last: Row<nat>)
    ensures IndexBlock(rows + [last]) == IndexBlock(rows) + IndexRow(last)
  {
    ConcatSame(IndexRows(rows + [last]), IndexRows(rows), |rows|);
  }

  lemma {:induction false} BlockConcat(a: Rows, b: Rows)
    ensures IndexBlock(a + b) == IndexBlock(a) + IndexBlock(b)
  {
    if b == [] {
      assert a + b == a && IndexBlock([]) == [];
    } else {
      var c, last := b[..|b| - 1], b[|b| - 1];
      assert b == c + [last] && a + b == (a + c) + [last];
      BlockConcat(a, c);
      BlockLast(a + c, last);
      BlockLast(c, last);
      BytesConcat(IndexBlock(a), IndexBlock(c), IndexRow(last));
    }
  }

  lemma {:induction false} BytesConcat(a: Bytes, b: Bytes, c: Bytes)
    ensures (a + b) + c == a + (b + c)
  {
  }

  /** Taking out one row, wherever it stands. */
  lemma {:induction false} TakeOut(rows: Rows, x: Row<nat>) returns (before: Rows, behind: Rows)
    requires x in rows
    ensures rows == before + [x] + behind
  {
    var j :| 0 <= j < |rows| && rows[j] == x;
    before, behind := rows[..j], rows[j + 1..];
  }

  lemma {:induction false} RowBetween(before: Rows, x: Row<nat>, behind: Rows)
    ensures multiset(IndexBlock(before + [x] + behind)) == multiset(IndexBlock(before + behind)) + multiset(IndexRow(x))
  {
    BlockConcat(before + [x], behind);
    BlockLast(before, x);
    BlockConcat(before, behind);
  }

  lemma {:induction false} FewerRows(c: Rows, x: Row<nat>, before: Rows, behind: Rows)
    requires multiset(c + [x]) == multiset(before + [x] + behind)
    ensures multiset(c) == multiset(before + behind)
  {
    Inserted(before, x, behind);
    Cancel(multiset(c), multiset{x}, multiset(before + behind));
  }

  lemma {:induction false} Cancel<T>(a: multiset<T>, b: multiset<T>, c: multiset<T>)
    requires a + b == c + b
    ensures a == c
  {
    forall x ensures a[x] == c[x] { assert (a + b)[x] == (c + b)[x]; }
  }

  /** The same rows in another order have the same bytes. */
  lemma {:induction false} BlockBytes(a: Rows, b: Rows)
    requires multiset(a) == multiset(b)
    ensures multiset(IndexBlock(a)) == multiset(IndexBlock(b))
    decreases |a|
  {
    PermutesIn(a, b);
    if a != [] {
      var c, last := a[..|a| - 1], a[|a| - 1];
      assert a == c + [last] && last in a;
      var before, behind := TakeOut(b, last);
      FewerRows(c, last, before, behind);
      BlockBytes(c, before + behind);
      BlockLast(c, last);
      RowBetween(before, last, behind);
    }
  }

  /** If a block's bytes in another order begin what stands before and in it, what stands before
      has the bytes of the block's end. */
  lemma {:induction false} Balance(before: Bytes, block: Bytes, other: Bytes)
    requires multiset(other) == multiset(block) && |before| <= |block| && |other| == |block|
    requires other == (before + block)[..|block|]
    ensures multiset(before) == multiset(block[|block| - |before|..])
  {
    var all, n := before + block, |block|;
    var end := block[n - |before|..];
    assert all == other + end;
    assert multiset(all) == multiset(before) + multiset(block);
    assert multiset(all) == multiset(other) + multiset(end);
    Cancel(multiset(before), multiset(block), multiset(end));
  }

  lemma {:induction false} AtPair(file: Bytes, off: nat, a: Bytes, b: Bytes, c: Bytes)
    requires At(file, off, a) && At(file, off + |a|, b) && At(file, off, c) && |c| <= |a| + |b|
    ensures c == (a + b)[..|c|]
  {
    AtJoin(file, off, a, b);
    assert c == file[off..off + |c|] == file[off..off + |a + b|][..|c|];
  }

  /** What open needs beforehand: with its bytes in some order, the bloom block is the end of the
      index block. */
  lemma {:induction false} StandsBalanced(file: Bytes, off: nat, bloom: Bytes, index: Rows)
    requires At(file, off, bloom) && At(file, off + |bloom|, IndexBlock(index)) && |bloom| <= |IndexBlock(index)|
    requires Stands(file, off, index)
    ensures multiset(bloom) == multiset(IndexBlock(index)[|IndexBlock(index)| - |bloom|..])
  {
    var rows: Rows :| Permutes(rows, index) && At(file, off, IndexBlock(rows));
    RowsBalanced(file, off, bloom, index, rows);
  }

  lemma {:induction false} RowsBalanced(file: Bytes, off: nat, bloom: Bytes, index: Rows, rows: Rows)
    requires At(file, off, bloom) && At(file, off + |bloom|, IndexBlock(index)) && |bloom| <= |IndexBlock(index)|
    requires Permutes(rows, index) && At(file, off, IndexBlock(rows))
    ensures multiset(bloom) == multiset(IndexBlock(index)[|IndexBlock(index)| - |bloom|..])
  {
    BlockBytes(rows, index);
    BytesBalanced(file, off, bloom, IndexBlock(index), IndexBlock(rows));
  }

  lemma {:induction false} BytesBalanced(file: Bytes, off: nat, bloom: Bytes, block: Bytes, other: Bytes)
    requires At(file, off, bloom) && At(file, off + |bloom|, block) && |bloom| <= |block|
    requires At(file, off, other) && multiset(other) == multiset(block)
    ensures multiset(bloom) == multiset(block[|block| - |bloom|..])
  {
    SameLength(other, block);
    AtPair(file, off, bloom, block, other);
    Balance(bloom, block, other);
  }

  lemma {:induction false} SameLength(a: Bytes, b: Bytes)
    requires multiset(a) == multiset(b)
    ensures |a| == |b|
  {
    assert |multiset(a)| == |a| && |multiset(b)| == |b|;
  }

  lemma {:induction false} SmallerPower(a: nat, b: nat)
    requires a <= b
    ensures Pow256(a) <= Pow256(b)
  {
    if a < b { SmallerPower(a, b - 1); }
  }

  predicate SomeSet(b: Bytes) { exists i :: 0 <= i < |b| && b[i] != 0 }

  lemma {:induction false} SetIn(a: Bytes, b: Bytes)
    requires SomeSet(a) && multiset(a) == multiset(b)
    ensures SomeSet(b)
  {
    var i :| 0 <= i < |a| && a[i] != 0;
    assert a[i] in multiset(a);
    assert a[i] in b;
  }

  /** No table of few entries comes back with its bloom filter, whatever the hash: its bloom block
      has at most eight bytes, one of them not zero, and the offset of its last entry leaves that
      many zeros at the end of the index block. */
  lemma {:induction false} FewNeverReopen(entries: seq<LsmEntry>, hash: Hash)
    requires entries != [] && KeysAscend(entries) && ShortRecords(entries, |entries|)
    requires |Created(entries, true, hash).file| < Bits.TWO_64
    requires |Created(entries, true, hash).bloom| <= 8
    requires Offset(entries, |entries| - 1) < Pow256(8 - |Created(entries, true, hash).bloom|)
    ensures var t := Created(entries, true, hash);
      Opened(t.file).Some? ==> Opened(t.file).value.index != t.index
  {
    var t, data := Created(entries, true, hash), Data(entries, |entries|);
    CreatedSpelled(entries, true, hash);
    CreatedSet(entries, hash);
    ReopenTable(entries, t, data);
    FewMissed(entries, t, data);
  }

  lemma {:induction false} CreatedSet(entries: seq<LsmEntry>, hash: Hash)
    requires entries != []
    ensures SomeSet(Created(entries, true, hash).bloom)
  {
    NotBlank(10 * |entries|, hash, Keys(entries), |entries|);
  }

  lemma {:induction false} ListingLast(entries: seq<LsmEntry>)
    requires entries != []
    ensures |Listing(entries)| == |entries| && Listing(entries)[|entries| - 1].value == Offset(entries, |entries| - 1)
  {
  }

  lemma {:induction false} FewMissed(entries: seq<LsmEntry>, t: Table, data: Bytes)
    requires entries != [] && t.index == Listing(entries) && SpelledOut(t, data, |data|) && |t.bloom| <= 8
    requires Offset(entries, |entries| - 1) < Pow256(8 - |t.bloom|) && SomeSet(t.bloom)
    ensures !Stands(t.file, |data|, t.index)
  {
    ListingLast(entries);
    SpelledParts(t, data, |data|);
    BlockMissed(t.file, |data|, t.bloom, t.index);
  }

  lemma {:induction false} SameEnd(a: Bytes, b: Bytes, n: nat)
    requires n <= |b|
    ensures (a + b)[|a + b| - n..] == b[|b| - n..]
  {
  }

  lemma {:induction false} ZeroWord(x: nat, n: nat)
    requires n <= 8 && x < Pow256(8 - n)
    ensures x < Bits.TWO_64 && !SomeSet(LE(x, 8)[8 - n..])
  {
    Pow256Values();
    SmallerPower(8 - n, 8);
    var end := LE(x, 8)[8 - n..];
    forall i | 0 <= i < |end| ensures end[i] == 0 { HighZero(x, 8 - n, 8 - n + i); }
  }

  lemma {:induction false} ZeroRow(row: Row<nat>, n: nat)
    requires n <= 8 && row.value < Pow256(8 - n)
    ensures |IndexRow(row)| >= 12 && !SomeSet(IndexRow(row)[|IndexRow(row)| - n..])
  {
    ZeroWord(row.value, n);
    SameEnd(Sized(row.key), LE(row.value, 8), n);
  }

  /** The index block ends in zeros as long as its last offset is small. */
  lemma {:induction false} ZeroEnd(rows: Rows, n: nat)
    requires rows != [] && n <= 8 && rows[|rows| - 1].value < Pow256(8 - n)
    ensures |IndexBlock(rows)| >= 12 && !SomeSet(IndexBlock(rows)[|IndexBlock(rows)| - n..])
  {
    var c, last := rows[..|rows| - 1], rows[|rows| - 1];
    assert rows == c + [last];
    BlockLast(c, last);
    ZeroRow(last, n);
    SameEnd(IndexBlock(c), IndexRow(last), n);
  }

  lemma {:induction false} BlockMissed(file: Bytes, off: nat, bloom: Bytes, index: Rows)
    requires At(file, off, bloom) && At(file, off + |bloom|, IndexBlock(index)) && |bloom| <= 8 && index != []
    requires index[|index| - 1].value < Pow256(8 - |bloom|) && SomeSet(bloom)
    ensures !Stands(file, off, index)
  {
    ZeroEnd(index, |bloom|);
    if Stands(file, off, index) {
      StandsBalanced(file, off, bloom, index);
      SetIn(bloom, IndexBlock(index)[|IndexBlock(index)| - |bloom|..]);
    }
  }

  /** In particular not one of a single entry. */
  lemma {:induction false} OneEntryNeverReopens(e: LsmEntry, hash: Hash)
    requires |EncodeEntry(e)| < Bits.TWO_32 && |Created([e], true, hash).file| < Bits.TWO_64
    ensures Created([e], true, hash).index == [Row(e.key, 0)]
    ensures var again := Opened(Created([e], true, hash).file); again.Some? ==> again.value.index != [Row(e.key, 0)]
  {
    IndexAscends([e]);
    SmallerPower(0, 6);
    FewNeverReopen([e], hash);
  }
}
