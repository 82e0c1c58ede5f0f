/** The bytes of one entry in an SSTable file, and reading them back. */
module Records {
  import Bits
  import opened Bytes
  import opened Clock
  import opened MemTables
  import opened Wrappers

  function Low32(b: Bytes): Bytes { b[..|b| % Bits.TWO_32] }

  function Tail(e: LsmEntry): Bytes {
    LE(e.sequenceNumber, 8) + ([if e.deleted then 1 else 0] + LE(Complement(Micros(e.timestamp)), 8))
  }

  /** A length cut to 32 bits, and that many bytes. */
  function Sized(b: Bytes): Bytes { LE(|b| % Bits.TWO_32, 4) + Low32(b) }

  function EncodeEntry(e: LsmEntry): Bytes { Sized(e.key) + (Sized(e.value) + Tail(e)) }

  /** What a record read back from the file says: lengths cut to 32 bits, whole microseconds. */
  function OnDisk(e: LsmEntry): LsmEntry {
    LsmEntry(Low32(e.key), Low32(e.value), Micros(e.timestamp) * 1000, e.sequenceNumber, e.deleted)
  }

  function UInt(file: Bytes, off: nat, n: nat): nat
    requires off + n <= |file|
  {
    FromLE(file[off..off + n])
  }

  function U64(file: Bytes, off: nat): u64
    requires off + 8 <= |file|
  {
    Pow256Values();
    FromLE(file[off..off + 8])
  }

  /** The sequence of reads in get and range; None when one runs past the end of the file. */
  function ReadRecord(file: Bytes, off: nat): Option<LsmEntry> {
    if off + 4 > |file| then None
    else
      var keyLen := UInt(file, off, 4);
      var afterKey := off + 4 + keyLen;
      if afterKey + 4 > |file| then None
      else
        var valueLen := UInt(file, afterKey, 4);
        var afterValue := afterKey + 4 + valueLen;
        if afterValue + 17 > |file| then None
        else Some(LsmEntry(file[off + 4..afterKey], file[afterKey + 4..afterValue],
                           FromComplement(U64(file, afterValue + 9)) * 1000,
                           U64(file, afterValue), file[afterValue + 8] != 0))
  }

  lemma {:induction false} ReadLE(file: Bytes, off: nat, x: nat, n: nat)
    requires x < Pow256(n) && At(file, off, LE(x, n))
    ensures off + n <= |file| && UInt(file, off, n) == x
  {
    LERoundTrip(x, n);
  }

  lemma {:induction false} ReadSized(file: Bytes, off: nat, b: Bytes)
    requires At(file, off, Sized(b))
    ensures off + 4 + |b| % Bits.TWO_32 <= |file| && |Sized(b)| == 4 + |b| % Bits.TWO_32
    ensures UInt(file, off, 4) == |b| % Bits.TWO_32
    ensures file[off + 4..off + 4 + |b| % Bits.TWO_32] == Low32(b)
  {
    Pow256Values();
    AtSplit(file, off, LE(|b| % Bits.TWO_32, 4), Low32(b));
    ReadLE(file, off, |b| % Bits.TWO_32, 4);
  }

  lemma {:induction false} ReadTail(file: Bytes, off: nat, e: LsmEntry)
    requires At(file, off, Tail(e))
    requires -0x8000_0000_0000_0000 <= e.timestamp < 0x8000_0000_0000_0000
    ensures off + 17 <= |file|
    ensures U64(file, off) == e.sequenceNumber && (file[off + 8] != 0 <==> e.deleted)
    ensures FromComplement(U64(file, off + 9)) == Micros(e.timestamp)
  {
    Pow256Values();
    var flag: Bytes := [if e.deleted then 1 else 0];
    var us := Micros(e.timestamp);
    AtSplit(file, off, LE(e.sequenceNumber, 8), flag + LE(Complement(us), 8));
    AtSplit(file, off + 8, flag, LE(Complement(us), 8));
    ReadLE(file, off, e.sequenceNumber, 8);
    ReadLE(file, off + 9, Complement(us), 8);
    assert file[off + 8] == flag[0] by { assert file[off + 8..off + 9] == flag; }
  }

  /** A record whose parts are known. */
  lemma {:induction false} RecordParts(file: Bytes, off: nat, k: Bytes, v: Bytes, micros: int, seqNo: u64,
      deleted: bool)
    requires var valueAt := off + 4 + |k|; var tailAt := valueAt + 4 + |v|;
      && tailAt + 17 <= |file|
      && UInt(file, off, 4) == |k| && file[off + 4..valueAt] == k
      && UInt(file, valueAt, 4) == |v| && file[valueAt + 4..tailAt] == v
      && U64(file, tailAt) == seqNo && (file[tailAt + 8] != 0 <==> deleted)
      && FromComplement(U64(file, tailAt + 9)) == micros
    ensures ReadRecord(file, off) == Some(LsmEntry(k, v, micros * 1000, seqNo, deleted))
  {
  }

  /** Reading a record where an entry was written gives the entry as the disk holds it. */
  lemma {:induction false} ReadWritten(file: Bytes, off: nat, e: LsmEntry)
    requires At(file, off, EncodeEntry(e))
    requires -0x8000_0000_0000_0000 <= e.timestamp < 0x8000_0000_0000_0000
    ensures ReadRecord(file, off) == Some(OnDisk(e))
    ensures var t := OnDisk(e).timestamp;
      if e.timestamp >= 0 then t <= e.timestamp < t + 1_000 else t - 1_000 < e.timestamp <= t
  {
    MicrosWithin(e.timestamp);
    var k, v := Low32(e.key), Low32(e.value);
    AtSplit(file, off, Sized(e.key), Sized(e.value) + Tail(e));
    ReadSized(file, off, e.key);
    AtSplit(file, off + 4 + |k|, Sized(e.value), Tail(e));
    ReadSized(file, off + 4 + |k|, e.value);
    ReadTail(file, off + 4 + |k| + 4 + |v|, e);
    RecordParts(file, off, k, v, Micros(e.timestamp), e.sequenceNumber, e.deleted);
  }
}
