/** What an exporter writes, and that the parser reads exactly that back. */
module NetFlowExport {
  import Bits
  import opened Bytes
  import opened NetFlow
  import opened Wrappers

  // Big-endian integers.

  function BE(x: nat, n: nat): (b: Bytes)
    ensures |b| == n
  {
    seq(n, i requires 0 <= i < n => Digit(x, n - 1 - i))
  }

  lemma {:induction false} BERoundTrip(x: nat, n: nat)
    requires x < Pow256(n)
    ensures FromBE(BE(x, n)) == x
  {
    if n > 0 {
      var b := BE(x, n);
      BERoundTrip(x / 256, n - 1);
      forall i | 0 <= i < n - 1 ensures b[i] == BE(x / 256, n - 1)[i] {
        assert Digit(x, n - 1 - i) == Digit(x / 256, n - 2 - i);
      }
      assert b[..n - 1] == BE(x / 256, n - 1);
      assert b[n - 1] == Digit(x, 0) == x % 256;
    }
  }

  lemma {:induction false} ReadU16(data: Bytes, off: nat, x: nat)
    requires x < 0x1_0000 && At(data, off, BE(x, 2))
    ensures off + 2 <= |data| && U16(data, off) == x
  {
    var c := data[off..off + 2];
    assert c[0] == data[off] && c[1] == data[off + 1];
    assert c[0] == Digit(x, 1) && c[1] == Digit(x, 0) == x % 256;
    assert Digit(x, 1) == Digit(x / 256, 0) == x / 256;
  }

  /** Items laid end to end. */
  function Flat<T>(enc: T -> Bytes, items: seq<T>): Bytes {
    if items == [] then [] else enc(items[0]) + Flat(enc, items[1..])
  }

  // What an exporter sends.

  /** A set of templates, or of records under a template in force, with padding behind; or any
      other set, as of options, with the number of items its exporter counts it for. */
  datatype Set =
    | TemplateSet(templates: seq<Template>, pad: Bytes)
    | DataSet(id: nat, records: seq<Record>, pad: Bytes)
    | OtherSet(id: nat, body: Bytes, items: nat)

  function EncodeField(f: Field): Bytes { BE(f.kind, 2) + BE(f.len, 2) }

  function EncodeFields(fields: seq<Field>): Bytes {
    if fields == [] then [] else EncodeField(fields[0]) + EncodeFields(fields[1..])
  }

  function EncodeTemplate(t: Template): Bytes { BE(t.id, 2) + (BE(|t.fields|, 2) + EncodeFields(t.fields)) }

  function EncodeTemplates(ts: seq<Template>): Bytes { Flat(EncodeTemplate, ts) }

  /** The value a record has for a field. */
  function ValueOf(d: Dialect, r: Record, f: Field): Bytes {
    match TargetOf(d, f.kind)
    case Octets => BE(r.dOctets, f.len)
    case Pkts => BE(r.dPkts, f.len)
    case Protocol => BE(r.protocol, f.len)
    case Flags => BE(r.tcpFlags, f.len)
    case SrcPort => BE(r.srcPort, f.len)
    case DstPort => BE(r.dstPort, f.len)
    case SrcAddr => if |r.srcAddr| == f.len then r.srcAddr else BE(0, f.len)
    case DstAddr => if |r.dstAddr| == f.len then r.dstAddr else BE(0, f.len)
    case SrcAs => BE(r.srcAs, f.len)
    case Tos => BE(r.tos, f.len)
    case Ignored => BE(0, f.len)
  }

  /** A record's value for a field, as bytes. */
  type Valuer = (Record, Field) -> Bytes

  function Values(d: Dialect): Valuer { (r: Record, f: Field) => ValueOf(d, r, f) }

  /** The record's first n fields laid end to end. */
  function EncodeRecord(value: Valuer, r: Record, fields: seq<Field>, n: nat): (b: Bytes)
    requires n <= |fields|
  {
    if n == 0 then [] else EncodeRecord(value, r, fields, n - 1) + value(r, fields[n - 1])
  }

  function RowOf(d: Dialect, fields: seq<Field>): Record -> Bytes {
    (r: Record) => EncodeRecord(Values(d), r, fields, |fields|)
  }

  function EncodeRecords(d: Dialect, rs: seq<Record>, fields: seq<Field>): Bytes { Flat(RowOf(d, fields), rs) }

  function Install(ts: seq<Template>, cache: Templates): Templates {
    if ts == [] then cache else Install(ts[1..], cache[ts[0].id := ts[0].fields])
  }

  function Body(d: Dialect, s: Set, cache: Templates): Bytes
    requires s.DataSet? ==> s.id in cache
  {
    match s
    case TemplateSet(ts, pad) => EncodeTemplates(ts) + pad
    case DataSet(id, rs, pad) => EncodeRecords(d, rs, cache[id]) + pad
    case OtherSet(_, body, _) => body
  }

  function SetId(d: Dialect, s: Set): nat {
    if !s.TemplateSet? then s.id else if d.V9? then 0 else 2
  }

  function EncodeSet(d: Dialect, s: Set, cache: Templates): Bytes
    requires s.DataSet? ==> s.id in cache
  {
    BE(SetId(d, s), 2) + (BE(4 + |Body(d, s, cache)|, 2) + Body(d, s, cache))
  }

  function NextCache(s: Set, cache: Templates): Templates
  {
    if s.TemplateSet? then Install(s.templates, cache) else cache
  }

  // What is asked of an exporter.

  /** The width of a field matches its type. */
  predicate Matching(d: Dialect, f: Field) {
    match TargetOf(d, f.kind)
    case Ignored => true
    case Protocol => f.len == 1
    case Flags => f.len == 1
    case Tos => f.len == 1
    case SrcAddr => f.len == 4
    case DstAddr => f.len == 4
    case _ => f.len == 1 || f.len == 2 || f.len == 4
  }

  predicate GoodTemplate(d: Dialect, t: Template) {
    && t.id < 0x1_0000 && |t.fields| < 0x1_0000 && RecordSize(t.fields) > 0
    && forall i :: 0 <= i < |t.fields| ==>
         t.fields[i].kind < 0x1_0000 && t.fields[i].len < 0x1_0000 && Matching(d, t.fields[i])
  }

  predicate GoodCache(d: Dialect, cache: Templates) {
    forall id :: id in cache ==> GoodTemplate(d, Template(id, cache[id]))
  }

  /** The record's value for a field goes into the field's width. */
  predicate Fits(d: Dialect, r: Record, f: Field) {
    match TargetOf(d, f.kind)
    case Octets => r.dOctets < Pow256(f.len)
    case Pkts => r.dPkts < Pow256(f.len)
    case Protocol => r.protocol < 256
    case Flags => r.tcpFlags < 256
    case SrcPort => r.srcPort < Pow256(f.len) && r.srcPort < 0x1_0000
    case DstPort => r.dstPort < Pow256(f.len) && r.dstPort < 0x1_0000
    case SrcAddr => |r.srcAddr| == 4
    case DstAddr => |r.dstAddr| == 4
    case SrcAs => r.srcAs < Pow256(f.len) && r.srcAs < 0x1_0000
    case Tos => r.tos < 256
    case Ignored => true
  }

  /** `acc` with the part a field sets taken from r. */
  function Copy(acc: Record, r: Record, t: Target): Record {
    match t
    case Octets => acc.(dOctets := r.dOctets)
    case Pkts => acc.(dPkts := r.dPkts)
    case Protocol => acc.(protocol := r.protocol)
    case Flags => acc.(tcpFlags := r.tcpFlags)
    case SrcPort => acc.(srcPort := r.srcPort)
    case DstPort => acc.(dstPort := r.dstPort)
    case SrcAddr => acc.(srcAddr := r.srcAddr)
    case DstAddr => acc.(dstAddr := r.dstAddr)
    case SrcAs => acc.(srcAs := r.srcAs)
    case Tos => acc.(tos := r.tos)
    case Ignored => acc
  }

  /** Taking over from a record what a field carries. */
  type Copier = (Record, Record, Field) -> Record

  function Copying(d: Dialect): Copier { (acc: Record, r: Record, f: Field) => Copy(acc, r, TargetOf(d, f.kind)) }

  /** What the first n fields carry of a record. */
  function Carried(copy: Copier, r: Record, fields: seq<Field>, n: nat): Record
    requires n <= |fields|
  {
    if n == 0 then Record(0, 0, 0, 0, 0, 0, [0, 0, 0, 0], [0, 0, 0, 0], 0, 0)
    else copy(Carried(copy, r, fields, n - 1), r, fields[n - 1])
  }

  predicate AllFit(d: Dialect, r: Record, fields: seq<Field>)
  {
    forall i :: 0 <= i < |fields| ==> Fits(d, r, fields[i])
  }

  /** The template carries the whole record, every value within its width. */
  predicate GoodRecord(d: Dialect, r: Record, fields: seq<Field>) {
    Carried(Copying(d), r, fields, |fields|) == r && AllFit(d, r, fields)
  }

  predicate AllGood(d: Dialect, rs: seq<Record>, fields: seq<Field>) {
    rs == [] || (GoodRecord(d, rs[0], fields) && AllGood(d, rs[1..], fields))
  }

  predicate AllGoodTemplates(d: Dialect, ts: seq<Template>) {
    ts == [] || (GoodTemplate(d, ts[0]) && AllGoodTemplates(d, ts[1..]))
  }

  /** A set id the parser passes over: neither that of templates nor that of a known template. */
  predicate Skipped(d: Dialect, id: nat, cache: Templates) {
    id != (if d.V9? then 0 else 2) && (id < 256 || id !in cache)
  }

  predicate GoodSet(d: Dialect, s: Set, cache: Templates) {
    match s
    case TemplateSet(ts, pad) =>
      ts != [] && |pad| < 4 && 4 + |EncodeTemplates(ts)| + |pad| < 0x1_0000
      && AllGoodTemplates(d, ts)
    case DataSet(id, rs, pad) =>
      rs != [] && 256 <= id < 0x1_0000 && id in cache && |pad| < RecordSize(cache[id])
      && 4 + |EncodeRecords(d, rs, cache[id])| + |pad| < 0x1_0000
      && AllGood(d, rs, cache[id])
    case OtherSet(id, body, _) => Skipped(d, id, cache) && id < 0x1_0000 && 4 + |body| < 0x1_0000
  }

  // Records.

  /** A number of n bytes: in network order for one, two and four of them; none of more than four. */
  function Number(n: nat, tail: Bytes): Option<nat>
    requires n <= |tail|
  {
    if n > 4 then None else Some(if n == 0 || n == 3 then FromLE(tail[..n]) else FromBE(tail[..n]))
  }

  lemma {:induction false} NumberIs(n: nat, tail: Bytes)
    requires n <= |tail| && n <= 4
    ensures Number(n, tail) == Some(ReadUInt(tail[..n]))
  {
    assert |tail[..n]| == n;
    if n == 0 { assert FromLE([]) == 0; }
  }

  /** A record with the member set, or none where there is nothing to set it to. */
  predicate Sets(after: Option<Record>, something: bool, r: Record) {
    if something then after == Some(r) else after == None
  }

  /** What the record is after a field of this number, for the fields that hold numbers. */
  predicate NumberSet(d: Dialect, r: Record, kind: nat, x: Option<nat>, after: Option<Record>) {
    var v := if x.Some? then x.value else 0;
    && (kind == 1 ==> Sets(after, x.Some?, r.(dOctets := v)))
    && (kind == 2 ==> Sets(after, x.Some?, r.(dPkts := v)))
    && (kind == 7 ==> Sets(after, x.Some?, r.(srcPort := v % 0x1_0000)))
    && (kind == 10 ==> Sets(after, x.Some?, r.(dstPort := v % 0x1_0000)))
    && (kind == 12 && d.V9? ==> Sets(after, x.Some?, r.(dOctets := v)))
    && (kind == 22 && d.V9? ==> Sets(after, x.Some?, r.(srcAs := v % 0x1_0000)))
  }

  /** And for the others: bytes and addresses; what is left sets nothing. */
  predicate BytesSet(d: Dialect, r: Record, kind: nat, tail: Bytes, after: Option<Record>)
    requires |tail| >= 1
  {
    && (kind == 4 ==> after == Some(r.(protocol := tail[0])))
    && (kind == 6 ==> after == Some(r.(tcpFlags := tail[0])))
    && (kind == 23 && d.V9? ==> after == Some(r.(tos := tail[0])))
    && (kind == 8 ==> if |tail| >= 4 then after == Some(r.(srcAddr := tail[..4])) else after == None)
    && (kind == 11 ==> if |tail| >= 4 then after == Some(r.(dstAddr := tail[..4])) else after == None)
    && (kind !in {1, 2, 4, 6, 7, 8, 10, 11, 12, 22, 23} ==> after == Some(r))
    && (kind in {12, 22, 23} && d.Ipfix? ==> after == Some(r))
  }

  /** The code's field table by number: which member of a record a field sets, and from what. */
  lemma {:induction false} FieldTable(d: Dialect, r: Record, f: Field, tail: Bytes)
    requires f.len <= |tail| && |tail| >= 1
    ensures NumberSet(d, r, f.kind, Number(f.len, tail), Setting(d)(r, f, tail))
    ensures BytesSet(d, r, f.kind, tail, Setting(d)(r, f, tail))
  {
    if f.len <= 4 { NumberIs(f.len, tail); }
    SettingIs(d, r, f, tail);
    NumberTable(d, r, f, tail);
    BytesTable(d, r, f, tail);
  }

  function After(d: Dialect, r: Record, f: Field, tail: Bytes): Option<Record> {
    if Readable(d, f, tail) then Some(SetField(d, r, f, tail)) else None
  }

  lemma {:induction false} SettingIs(d: Dialect, r: Record, f: Field, tail: Bytes)
    ensures Setting(d)(r, f, tail) == After(d, r, f, tail)
  {
  }

  lemma {:induction false} NumberTable(d: Dialect, r: Record, f: Field, tail: Bytes)
    requires f.len <= |tail| && (f.len <= 4 ==> Number(f.len, tail) == Some(ReadUInt(tail[..f.len])))
    ensures NumberSet(d, r, f.kind, Number(f.len, tail), After(d, r, f, tail))
  {
  }

  lemma {:induction false} BytesTable(d: Dialect, r: Record, f: Field, tail: Bytes)
    requires |tail| >= 1
    ensures BytesSet(d, r, f.kind, tail, After(d, r, f, tail))
  {
  }

  lemma {:induction false} ValueLength(d: Dialect, r: Record, f: Field)
    ensures |ValueOf(d, r, f)| == f.len
  {
  }

  lemma {:induction false} OneByte(b: Bytes, x: nat)
    requires x < 256 && b == BE(x, 1)
    ensures b[0] == x
  {
    assert Digit(x, 0) == x % 256;
  }

  lemma {:induction false} ReadUIntBack(x: nat, n: nat)
    requires (n == 1 || n == 2 || n == 4) && x < Pow256(n)
    ensures ReadUInt(BE(x, n)) == x
  {
    BERoundTrip(x, n);
  }

  lemma {:induction false} WholeValue(b: Bytes, n: nat)
    requires |b| == n
    ensures b[..n] == b
  {
  }

  lemma {:induction false} CountBack(d: Dialect, acc: Record, r: Record, f: Field)
    requires Matching(d, f) && Fits(d, r, f) && (TargetOf(d, f.kind).Octets? || TargetOf(d, f.kind).Pkts?)
    ensures Readable(d, f, ValueOf(d, r, f))
        && SetField(d, acc, f, ValueOf(d, r, f)) == Copy(acc, r, TargetOf(d, f.kind))
  {
    ReadUIntBack(if TargetOf(d, f.kind).Octets? then r.dOctets else r.dPkts, f.len);
    WholeValue(ValueOf(d, r, f), f.len);
  }

  lemma {:induction false} PortBack(d: Dialect, acc: Record, r: Record, f: Field, x: nat)
    requires Matching(d, f) && x < Pow256(f.len) && x < 0x1_0000 && ValueOf(d, r, f) == BE(x, f.len)
    requires match TargetOf(d, f.kind)
             case SrcPort => x == r.srcPort
             case DstPort => x == r.dstPort
             case SrcAs => x == r.srcAs
             case _ => false
    ensures Readable(d, f, ValueOf(d, r, f))
        && SetField(d, acc, f, ValueOf(d, r, f)) == Copy(acc, r, TargetOf(d, f.kind))
  {
    var b := ValueOf(d, r, f);
    ReadUIntBack(x, f.len);
    WholeValue(b, f.len);
    assert Low16(ReadUInt(b[..f.len])) == x;
  }

  lemma {:induction false} FieldBack(d: Dialect, acc: Record, r: Record, f: Field)
    requires Matching(d, f) && Fits(d, r, f)
    ensures Readable(d, f, ValueOf(d, r, f))
        && SetField(d, acc, f, ValueOf(d, r, f)) == Copy(acc, r, TargetOf(d, f.kind))
  {
    match TargetOf(d, f.kind)
    case Protocol => OneByte(BE(r.protocol, 1), r.protocol);
    case Flags => OneByte(BE(r.tcpFlags, 1), r.tcpFlags);
    case SrcAddr => assert r.srcAddr[..4] == r.srcAddr;
    case DstAddr => assert r.dstAddr[..4] == r.dstAddr;
    case Tos => OneByte(BE(r.tos, 1), r.tos);
    case Ignored =>
    case SrcPort => PortBack(d, acc, r, f, r.srcPort);
    case DstPort => PortBack(d, acc, r, f, r.dstPort);
    case SrcAs => PortBack(d, acc, r, f, r.srcAs);
    case _ => CountBack(d, acc, r, f);
  }

  predicate AllMatching(d: Dialect, fields: seq<Field>) { forall i :: 0 <= i < |fields| ==> Matching(d, fields[i]) }

  /** Whatever follows the value. */
  ghost predicate SetsBack(apply: Setter, value: Valuer, copy: Copier, r: Record, f: Field, acc: Record, rest: Bytes) {
    apply(acc, f, value(r, f) + rest) == Some(copy(acc, r, f))
  }

  /** A field that is read from its value is read from it whatever follows. */
  lemma {:induction false} ValueEnough(d: Dialect, acc: Record, f: Field, b: Bytes, rest: Bytes)
    requires Matching(d, f) && |b| == f.len && Readable(d, f, b)
    ensures Readable(d, f, b + rest) && SetField(d, acc, f, b + rest) == SetField(d, acc, f, b)
  {
    assert (b + rest)[..f.len] == b == b[..f.len];
    if f.len > 0 { assert (b + rest)[0] == b[0]; }
  }

  /** Setting a field from the record's own value copies what the field carries. */
  ghost predicate Inverse(apply: Setter, value: Valuer, copy: Copier, r: Record, f: Field) {
    |value(r, f)| == f.len && forall acc, rest :: SetsBack(apply, value, copy, r, f, acc, rest)
  }

  ghost predicate AllInverse(apply: Setter, value: Valuer, copy: Copier, r: Record, fields: seq<Field>) {
    forall i :: 0 <= i < |fields| ==> Inverse(apply, value, copy, r, fields[i])
  }

  lemma {:induction false} AtTail(data: Bytes, at: nat, b: Bytes)
    requires At(data, at, b)
    ensures data[at..] == b + data[at + |b|..]
  {
  }

  lemma {:induction false} DecodeBack(apply: Setter, value: Valuer, copy: Copier, data: Bytes, off: nat,
                                      fields: seq<Field>, n: nat, r: Record)
    requires n <= |fields| && AllInverse(apply, value, copy, r, fields)
        && At(data, off, EncodeRecord(value, r, fields, n))
    ensures |EncodeRecord(value, r, fields, n)| == Width(fields, n) && off + Width(fields, n) <= |data|
    ensures Decode(apply, data, off, fields, n) == Some(Carried(copy, r, fields, n))
  {
    if n > 0 {
      var f := fields[n - 1];
      assert Inverse(apply, value, copy, r, f);
      AtSplit(data, off, EncodeRecord(value, r, fields, n - 1), value(r, f));
      DecodeBack(apply, value, copy, data, off, fields, n - 1, r);
      var at := off + Width(fields, n - 1);
      AtTail(data, at, value(r, f));
      assert SetsBack(apply, value, copy, r, f, Carried(copy, r, fields, n - 1), data[at + f.len..]);
    }
  }

  lemma {:induction false} FieldsInverse(d: Dialect, r: Record, fields: seq<Field>)
    requires AllMatching(d, fields) && AllFit(d, r, fields)
    ensures AllInverse(Setting(d), Values(d), Copying(d), r, fields)
  {
    forall i | 0 <= i < |fields| ensures Inverse(Setting(d), Values(d), Copying(d), r, fields[i]) {
      var f := fields[i];
      ValueLength(d, r, f);
      forall acc, rest ensures SetsBack(Setting(d), Values(d), Copying(d), r, f, acc, rest) {
        FieldBack(d, acc, r, f);
        ValueEnough(d, acc, f, ValueOf(d, r, f), rest);
      }
    }
  }

  lemma {:induction false} OneRecordBack(d: Dialect, data: Bytes, off: nat, fields: seq<Field>, r: Record)
    requires AllMatching(d, fields) && GoodRecord(d, r, fields)
    requires At(data, off, EncodeRecord(Values(d), r, fields, |fields|))
    ensures |EncodeRecord(Values(d), r, fields, |fields|)| == RecordSize(fields)
    ensures off + RecordSize(fields) <= |data| && DecodeAt(d, data, fields)(off) == Some(r)
  {
    FieldsInverse(d, r, fields);
    DecodeBack(Setting(d), Values(d), Copying(d), data, off, fields, |fields|, r);
  }

  /** The records stand one after another from `off` on, and less than one more fits behind. */
  predicate Rows(read: Reader, off: nat, end: nat, size: nat, rs: seq<Record>)
    decreases |rs|
  {
    if rs == [] then off <= end < off + size else read(off) == Some(rs[0]) && Rows(read, off + size, end, size, rs[1..])
  }

  lemma {:induction false} RowsRead(read: Reader, off: nat, end: nat, size: nat, rs: seq<Record>)
    requires size > 0 && Rows(read, off, end, size, rs)
    ensures off <= end && ReadRecords(read, off, end, size) == Some(rs)
    decreases |rs|
  {
    if rs != [] {
      RowsRead(read, off + size, end, size, rs[1..]);
      assert [rs[0]] + rs[1..] == rs;
    }
  }

  /** A record written at an offset is read there. */
  ghost predicate RowAt(read: Reader, enc: Record -> Bytes, data: Bytes, size: nat, off: nat, r: Record) {
    At(data, off, enc(r)) ==> |enc(r)| == size && read(off) == Some(r)
  }

  ghost predicate AllRowsAt(read: Reader, enc: Record -> Bytes, data: Bytes, size: nat, rs: seq<Record>) {
    forall off: nat, i :: 0 <= i < |rs| ==> RowAt(read, enc, data, size, off, rs[i])
  }

  lemma {:induction false} RowsStand(read: Reader, enc: Record -> Bytes, data: Bytes, off: nat, end: nat, size: nat,
                                     rs: seq<Record>, pad: Bytes)
    requires AllRowsAt(read, enc, data, size, rs) && |pad| < size
    requires At(data, off, Flat(enc, rs) + pad) && end == off + |Flat(enc, rs) + pad|
    ensures Rows(read, off, end, size, rs)
    decreases |rs|
  {
    if rs != [] {
      var head, tail := enc(rs[0]), Flat(enc, rs[1..]);
      assert Flat(enc, rs) + pad == head + (tail + pad);
      AtSplit(data, off, head, tail + pad);
      assert RowAt(read, enc, data, size, off, rs[0]);
      RowsStand(read, enc, data, off + |head|, end, size, rs[1..], pad);
    }
  }

  lemma {:induction false} GoodRecordAt(d: Dialect, rs: seq<Record>, fields: seq<Field>, i: nat)
    requires AllGood(d, rs, fields) && i < |rs|
    ensures GoodRecord(d, rs[i], fields)
  {
    if i > 0 { GoodRecordAt(d, rs[1..], fields, i - 1); }
  }

  lemma {:induction false} RecordsBack(d: Dialect, data: Bytes, fields: seq<Field>, rs: seq<Record>)
    requires AllMatching(d, fields) && AllGood(d, rs, fields)
    ensures AllRowsAt(DecodeAt(d, data, fields), RowOf(d, fields), data, RecordSize(fields), rs)
  {
    forall off: nat, i | 0 <= i < |rs|
      ensures RowAt(DecodeAt(d, data, fields), RowOf(d, fields), data, RecordSize(fields), off, rs[i])
    {
      GoodRecordAt(d, rs, fields, i);
      if At(data, off, RowOf(d, fields)(rs[i])) { OneRecordBack(d, data, off, fields, rs[i]); }
    }
  }

  lemma {:induction false} DivStep(a: nat, size: nat)
    requires a >= size > 0
    ensures a / size == (a - size) / size + 1
  {
    var q, r := (a - size) / size, (a - size) % size;
    assert (q + 1) * size == q * size + size;
    Bits.DivModUnique(a, size, q + 1, r);
  }

  /** Whatever a data set holds, its loop yields as many records as fit, unless one of them has a
      field that cannot be read. */
  lemma {:induction false} RecordCount(read: Reader, off: nat, end: nat, size: nat)
    requires size > 0 && off <= end
    ensures match ReadRecords(read, off, end, size)
            case None => exists o :: off <= o <= end - size && read(o).None?
            case Some(rs) => |rs| == (end - off) / size
    decreases end - off
  {
    if off + size <= end {
      RecordCount(read, off + size, end, size);
      DivStep(end - off, size);
    }
  }

  // Templates.

  lemma {:induction false} FieldsBack(data: Bytes, off: nat, end: nat, fields: seq<Field>)
    requires At(data, off, EncodeFields(fields)) && off + |EncodeFields(fields)| <= end <= |data|
    requires forall i :: 0 <= i < |fields| ==> fields[i].kind < 0x1_0000 && fields[i].len < 0x1_0000
    ensures ReadFields(data, off, end, |fields|) == fields && |EncodeFields(fields)| == 4 * |fields|
    decreases |fields|
  {
    if fields != [] {
      var f, rest := fields[0], EncodeFields(fields[1..]);
      AtSplit(data, off, EncodeField(f), rest);
      AtSplit(data, off, BE(f.kind, 2), BE(f.len, 2));
      ReadU16(data, off, f.kind);
      ReadU16(data, off + 2, f.len);
      FieldsBack(data, off + 4, end, fields[1..]);
      assert fields == [fields[0]] + fields[1..];
    }
  }

  lemma {:induction false} TemplateBack(d: Dialect, data: Bytes, off: nat, end: nat, t: Template)
    requires GoodTemplate(d, t) && At(data, off, EncodeTemplate(t)) && off + |EncodeTemplate(t)| <= end <= |data|
    ensures |EncodeTemplate(t)| == 4 + 4 * |t.fields| && TemplateAt(data, end)(off) == t
  {
    AtSplit(data, off, BE(t.id, 2), BE(|t.fields|, 2) + EncodeFields(t.fields));
    AtSplit(data, off + 2, BE(|t.fields|, 2), EncodeFields(t.fields));
    ReadU16(data, off, t.id);
    ReadU16(data, off + 2, |t.fields|);
    FieldsBack(data, off + 4, end, t.fields);
  }

  /** The templates stand one after another from `off` on, with less than a header behind. */
  predicate Stand(at: nat -> Template, off: nat, end: nat, ts: seq<Template>)
    decreases |ts|
  {
    if ts == [] then end < off + 4
    else off + 4 <= end && at(off) == ts[0] && Stand(at, off + 4 + 4 * |ts[0].fields|, end, ts[1..])
  }

  /** A template set installs its templates in order, a later one over an earlier of its id. */
  lemma {:induction false} TemplatesRead(at: nat -> Template, off: nat, end: nat, ts: seq<Template>, cache: Templates)
    requires Stand(at, off, end, ts)
    ensures ReadTemplates(at, off, end, cache) == Install(ts, cache)
    decreases |ts|
  {
    if ts != [] { TemplatesRead(at, off + 4 + 4 * |ts[0].fields|, end, ts[1..], cache[ts[0].id := ts[0].fields]); }
  }

  /** A template written at an offset is found there. */
  ghost predicate FoundAt(at: nat -> Template, enc: Template -> Bytes, data: Bytes, end: nat, off: nat, t: Template) {
    At(data, off, enc(t)) && off + |enc(t)| <= end ==> |enc(t)| == 4 + 4 * |t.fields| && at(off) == t
  }

  ghost predicate AllFound(at: nat -> Template, enc: Template -> Bytes, data: Bytes, end: nat, ts: seq<Template>) {
    forall off: nat, i :: 0 <= i < |ts| ==> FoundAt(at, enc, data, end, off, ts[i])
  }

  lemma {:induction false} TemplatesStand(at: nat -> Template, enc: Template -> Bytes, data: Bytes, off: nat, end: nat,
                                          ts: seq<Template>, pad: Bytes)
    requires AllFound(at, enc, data, end, ts) && |pad| < 4
    requires At(data, off, Flat(enc, ts) + pad) && end == off + |Flat(enc, ts) + pad|
    ensures Stand(at, off, end, ts)
    decreases |ts|
  {
    if ts != [] {
      var head, tail := enc(ts[0]), Flat(enc, ts[1..]);
      assert Flat(enc, ts) + pad == head + (tail + pad);
      AtSplit(data, off, head, tail + pad);
      assert FoundAt(at, enc, data, end, off, ts[0]);
      TemplatesStand(at, enc, data, off + |head|, end, ts[1..], pad);
    }
  }

  lemma {:induction false} GoodTemplateAt(d: Dialect, ts: seq<Template>, i: nat)
    requires AllGoodTemplates(d, ts) && i < |ts|
    ensures GoodTemplate(d, ts[i])
  {
    if i > 0 { GoodTemplateAt(d, ts[1..], i - 1); }
  }

  lemma {:induction false} TemplatesFound(d: Dialect, data: Bytes, end: nat, ts: seq<Template>)
    requires AllGoodTemplates(d, ts) && end <= |data|
    ensures AllFound(TemplateAt(data, end), EncodeTemplate, data, end, ts)
  {
    forall off: nat, i | 0 <= i < |ts| ensures FoundAt(TemplateAt(data, end), EncodeTemplate, data, end, off, ts[i]) {
      GoodTemplateAt(d, ts, i);
      if At(data, off, EncodeTemplate(ts[i])) && off + |EncodeTemplate(ts[i])| <= end {
        TemplateBack(d, data, off, end, ts[i]);
      }
    }
  }

  lemma {:induction false} InstallGood(d: Dialect, ts: seq<Template>, cache: Templates)
    requires AllGoodTemplates(d, ts) && GoodCache(d, cache)
    ensures GoodCache(d, Install(ts, cache))
    decreases |ts|
  {
    if ts != [] {
      assert GoodTemplate(d, ts[0]) && ts[0] == Template(ts[0].id, ts[0].fields);
      InstallGood(d, ts[1..], cache[ts[0].id := ts[0].fields]);
    }
  }

  // Sets and packets.

  function RecordsIn(s: Set): seq<Record> { if s.DataSet? then s.records else [] }

  lemma {:induction false} HeadBack(data: Bytes, off: nat, id: nat, body: Bytes)
    requires id < 0x1_0000 && 4 + |body| < 0x1_0000 && At(data, off, BE(id, 2) + (BE(4 + |body|, 2) + body))
    ensures off + 4 + |body| <= |data| && U16(data, off) == id && U16(data, off + 2) == 4 + |body|
        && At(data, off + 4, body)
  {
    AtSplit(data, off, BE(id, 2), BE(4 + |body|, 2) + body);
    AtSplit(data, off + 2, BE(4 + |body|, 2), body);
    ReadU16(data, off, id);
    ReadU16(data, off + 2, 4 + |body|);
  }

  /** Readers that find in the body of a set what an exporter put there. */
  ghost predicate BodyRead(d: Dialect, templates: TemplateReader, records: RecordReader, s: Set, cache: Templates,
      off: nat, end: nat)
  {
    if s.TemplateSet? then templates(off, end, cache) == Install(s.templates, cache)
    else if s.OtherSet? then Skipped(d, s.id, cache)
    else && s.id >= 256 && s.id in cache && 0 < RecordSize(cache[s.id]) && off + RecordSize(cache[s.id]) <= end
         && records(cache[s.id], off, end) == Found(s.records)
  }

  lemma {:induction false} RowsOfSet(d: Dialect, data: Bytes, off: nat, rs: seq<Record>, pad: Bytes,
      fields: seq<Field>, end: nat)
    requires AllMatching(d, fields) && AllGood(d, rs, fields) && RecordSize(fields) > |pad| && rs != []
    requires end == off + |EncodeRecords(d, rs, fields) + pad| && At(data, off, EncodeRecords(d, rs, fields) + pad)
    ensures off + RecordSize(fields) <= end && RecordsOf(d, data)(fields, off, end) == Found(rs)
  {
    FirstFits(d, rs, fields);
    RecordsBack(d, data, fields, rs);
    RowsStand(DecodeAt(d, data, fields), RowOf(d, fields), data, off, end, RecordSize(fields), rs, pad);
    RowsRead(DecodeAt(d, data, fields), off, end, RecordSize(fields), rs);
  }

  lemma {:induction false} BodyBack(d: Dialect, data: Bytes, off: nat, s: Set, cache: Templates, end: nat)
    requires GoodSet(d, s, cache) && GoodCache(d, cache) && At(data, off, Body(d, s, cache))
        && end == off + |Body(d, s, cache)|
    ensures BodyRead(d, TemplatesOf(data), RecordsOf(d, data), s, cache, off, end)
  {
    match s
    case TemplateSet(ts, pad) =>
      TemplatesFound(d, data, end, ts);
      TemplatesStand(TemplateAt(data, end), EncodeTemplate, data, off, end, ts, pad);
      TemplatesRead(TemplateAt(data, end), off, end, ts, cache);
    case DataSet(id, rs, pad) =>
      assert GoodTemplate(d, Template(id, cache[id]));
      RowsOfSet(d, data, off, rs, pad, cache[id], end);
    case OtherSet(_, _, _) =>
  }

  lemma {:induction false} NextGood(d: Dialect, s: Set, cache: Templates)
    requires GoodSet(d, s, cache) && GoodCache(d, cache)
    ensures GoodCache(d, NextCache(s, cache))
  {
    if s.TemplateSet? { InstallGood(d, s.templates, cache); }
  }

  lemma {:induction false} EncodedWidth(value: Valuer, r: Record, fields: seq<Field>, n: nat)
    requires n <= |fields| && forall i :: 0 <= i < |fields| ==> |value(r, fields[i])| == fields[i].len
    ensures |EncodeRecord(value, r, fields, n)| == Width(fields, n)
  {
    if n > 0 { EncodedWidth(value, r, fields, n - 1); }
  }

  lemma {:induction false} FirstFits(d: Dialect, rs: seq<Record>, fields: seq<Field>)
    requires rs != []
    ensures |EncodeRecords(d, rs, fields)| >= RecordSize(fields)
  {
    forall i | 0 <= i < |fields|
      ensures |Values(d)(rs[0], fields[i])| == fields[i].len
    {
      ValueLength(d, rs[0], fields[i]);
    }
    EncodedWidth(Values(d), rs[0], fields, |fields|);
  }

  type Encoder = (Set, Templates) -> Bytes

  type Goodness = (Set, Templates) -> bool

  function Encoding(d: Dialect): Encoder {
    (s: Set, cache: Templates) => if s.DataSet? && s.id !in cache then [] else EncodeSet(d, s, cache)
  }

  function WellFormed(d: Dialect): Goodness
  {
    (s: Set, cache: Templates) => GoodSet(d, s, cache) && GoodCache(d, cache)
  }

  /** Every set is good for the templates in force when it comes. */
  predicate AllSets(good: Goodness, sets: seq<Set>, cache: Templates)
    decreases |sets|
  {
    sets == [] || (good(sets[0], cache) && AllSets(good, sets[1..], NextCache(sets[0], cache)))
  }

  predicate GoodSets(d: Dialect, sets: seq<Set>, cache: Templates) {
    AllSets((s: Set, c: Templates) => GoodSet(d, s, c), sets, cache)
  }

  function EncodeAll(enc: Encoder, sets: seq<Set>, cache: Templates): Bytes
    decreases |sets|
  {
    if sets == [] then [] else enc(sets[0], cache) + EncodeAll(enc, sets[1..], NextCache(sets[0], cache))
  }

  function EncodeSets(d: Dialect, sets: seq<Set>, cache: Templates): Bytes { EncodeAll(Encoding(d), sets, cache) }

  function AllRecords(sets: seq<Set>): seq<Record>
  {
    if sets == [] then [] else RecordsIn(sets[0]) + AllRecords(sets[1..])
  }

  function LastCache(sets: seq<Set>, cache: Templates): Templates {
    if sets == [] then cache else LastCache(sets[1..], NextCache(sets[0], cache))
  }

  /** The count in a v9 header: template and data records (section 5.1 of RFC 3954). */
  function Items(sets: seq<Set>): nat { if sets == [] then 0 else ItemsOf(sets[0]) + Items(sets[1..]) }

  function ItemsOf(s: Set): nat {
    match s
    case TemplateSet(ts, _) => |ts|
    case DataSet(_, rs, _) => |rs|
    case OtherSet(_, _, items) => items
  }

  /** The reader finds exactly these sets from `off` to `len`. */
  predicate Finds(read: SetReader, off: nat, len: nat, sets: seq<Set>, cache: Templates)
    decreases |sets|
  {
    if sets == [] then off == len && read(off, cache) == Stop
    else
      var r := read(off, cache);
      r.Done? && off < r.next <= len && r.records == RecordsIn(sets[0]) && r.templates == NextCache(sets[0], cache)
      && Finds(read, r.next, len, sets[1..], r.templates)
  }

  /** The reader reads this set whole where it stands. */
  ghost predicate ReadsAt(read: SetReader, enc: Encoder, good: Goodness, data: Bytes, len: nat, off: nat, s: Set,
      cache: Templates)
  {
    good(s, cache) && At(data, off, enc(s, cache)) && off + |enc(s, cache)| <= len
    ==> |enc(s, cache)| > 0 && read(off, cache) == Done(RecordsIn(s), off + |enc(s, cache)|, NextCache(s, cache))
  }

  ghost predicate ReadsAll(read: SetReader, enc: Encoder, good: Goodness, data: Bytes, len: nat) {
    && (forall off: nat, s, cache :: ReadsAt(read, enc, good, data, len, off, s, cache))
    && forall cache :: read(len, cache) == Stop
  }

  lemma {:induction false} SetAtRead(d: Dialect, data: Bytes, len: nat, off: nat, id: nat, end: nat, cache: Templates)
    requires off + 4 <= end <= len <= |data| && U16(data, off) == id && U16(data, off + 2) == end - off
    ensures SetAt(d, data, len)(off, cache) == ReadSet(d, TemplatesOf(data), RecordsOf(d, data), id, off, end, cache)
  {
  }

  /** A set whose body is read is read. */
  lemma {:induction false} BodyIsSet(d: Dialect, templates: TemplateReader, records: RecordReader, s: Set,
      cache: Templates, off: nat, end: nat)
    requires BodyRead(d, templates, records, s, cache, off + 4, end) && off < end
    ensures ReadSet(d, templates, records, SetId(d, s), off, end, cache) == Done(RecordsIn(s), end, NextCache(s, cache))
  {
  }

  lemma {:induction false} GoodHead(d: Dialect, s: Set, cache: Templates)
    requires GoodSet(d, s, cache)
    ensures SetId(d, s) < 0x1_0000 && 4 + |Body(d, s, cache)| < 0x1_0000
  {
  }

  lemma {:induction false} SetFound(d: Dialect, data: Bytes, len: nat, off: nat, s: Set, cache: Templates, end: nat)
    requires GoodSet(d, s, cache) && GoodCache(d, cache) && At(data, off, EncodeSet(d, s, cache))
    requires end == off + 4 + |Body(d, s, cache)| <= len <= |data|
    ensures SetAt(d, data, len)(off, cache) == Done(RecordsIn(s), end, NextCache(s, cache))
  {
    GoodHead(d, s, cache);
    HeadBack(data, off, SetId(d, s), Body(d, s, cache));
    BodyBack(d, data, off + 4, s, cache, end);
    BodyIsSet(d, TemplatesOf(data), RecordsOf(d, data), s, cache, off, end);
    SetAtRead(d, data, len, off, SetId(d, s), end, cache);
  }

  lemma {:induction false} SetAtReads(d: Dialect, data: Bytes, len: nat, off: nat, s: Set, cache: Templates,
      read: SetReader)
    requires len <= |data| && read == SetAt(d, data, len)
    ensures ReadsAt(read, Encoding(d), WellFormed(d), data, len, off, s, cache)
  {
    if WellFormed(d)(s, cache) && At(data, off, Encoding(d)(s, cache)) && off + |Encoding(d)(s, cache)| <= len {
      SetFound(d, data, len, off, s, cache, off + 4 + |Body(d, s, cache)|);
    }
  }

  lemma {:induction false} SetAtReadsAll(d: Dialect, data: Bytes, len: nat)
    requires len <= |data|
    ensures ReadsAll(SetAt(d, data, len), Encoding(d), WellFormed(d), data, len)
  {
    forall off: nat, s, cache
      ensures ReadsAt(SetAt(d, data, len), Encoding(d), WellFormed(d), data, len, off, s, cache)
    {
      SetAtReads(d, data, len, off, s, cache, SetAt(d, data, len));
    }
  }

  lemma {:induction false} ChainFrom(d: Dialect, sets: seq<Set>, cache: Templates)
    requires GoodSets(d, sets, cache) && GoodCache(d, cache)
    ensures AllSets(WellFormed(d), sets, cache)
    decreases |sets|
  {
    if sets != [] {
      NextGood(d, sets[0], cache);
      ChainFrom(d, sets[1..], NextCache(sets[0], cache));
    }
  }

  lemma {:induction false} SetsFound(read: SetReader, enc: Encoder, good: Goodness, data: Bytes, len: nat, off: nat,
                                     sets: seq<Set>, cache: Templates)
    requires ReadsAll(read, enc, good, data, len) && AllSets(good, sets, cache)
    requires At(data, off, EncodeAll(enc, sets, cache)) && len == off + |EncodeAll(enc, sets, cache)|
    ensures Finds(read, off, len, sets, cache)
    decreases |sets|
  {
    if sets != [] {
      var s := sets[0];
      var head, tail := enc(s, cache), EncodeAll(enc, sets[1..], NextCache(s, cache));
      AtSplit(data, off, head, tail);
      assert ReadsAt(read, enc, good, data, len, off, s, cache);
      SetsFound(read, enc, good, data, len, off + |head|, sets[1..], NextCache(s, cache));
    }
  }

  /** Every set of templates or records has one, so a v9 count of all items is not used up
      before the last of them. */
  predicate NoneEmpty(sets: seq<Set>) { forall i :: 0 <= i < |sets| ==> sets[i].OtherSet? || ItemsOf(sets[i]) > 0 }

  /** Sets without items have nothing to give. */
  lemma {:induction false} NoItems(sets: seq<Set>, cache: Templates)
    requires NoneEmpty(sets) && Items(sets) == 0
    ensures AllRecords(sets) == [] && LastCache(sets, cache) == cache
    decreases |sets|
  {
    if sets != [] {
      assert sets[0].OtherSet? && NoneEmpty(sets[1..]);
      NoItems(sets[1..], cache);
    }
  }

  lemma {:induction false} NextSet(read: SetReader, len: nat, limit: Option<nat>, off: nat, records: seq<Record>,
      cache: Templates, r: SetRead)
    requires read(off, cache) == r && r.Done? && off < r.next <= len && !Full(limit, |records|)
    ensures ReadSets(read, len, limit, off, records, cache)
        == ReadSets(read, len, limit, r.next, records + r.records, r.templates)
  {
  }

  lemma {:induction false} FirstItems(sets: seq<Set>)
    requires sets != [] && NoneEmpty(sets)
    ensures NoneEmpty(sets[1..]) && Items(sets) >= |RecordsIn(sets[0])| + Items(sets[1..])
  {
  }

  lemma {:induction false} Regroup(a: seq<Record>, b: seq<Record>, c: seq<Record>)
    ensures a + (b + c) == (a + b) + c
  {
  }

  lemma {:induction false} LastSet(read: SetReader, len: nat, limit: Option<nat>, off: nat, records: seq<Record>,
      cache: Templates)
    requires Full(limit, |records|) || read(off, cache) == Stop
    ensures ReadSets(read, len, limit, off, records, cache) == Parsed(records, cache)
  {
  }

  /** How many of the sets are read: those before which fewer records than the limit were found. */
  function Taken(sets: seq<Set>, limit: Option<nat>, found: nat): (k: nat)
    ensures k <= |sets|
  {
    if sets == [] || Full(limit, found) then 0 else 1 + Taken(sets[1..], limit, found + |RecordsIn(sets[0])|)
  }

  lemma {:induction false} FirstTaken(sets: seq<Set>, k: nat, records: seq<Record>, cache: Templates)
    requires 0 < k <= |sets|
    ensures records + AllRecords(sets[..k]) == (records + RecordsIn(sets[0])) + AllRecords(sets[1..][..k - 1])
    ensures LastCache(sets[..k], cache) == LastCache(sets[1..][..k - 1], NextCache(sets[0], cache))
  {
    assert sets[..k][0] == sets[0] && sets[..k][1..] == sets[1..][..k - 1];
    Regroup(records, RecordsIn(sets[0]), AllRecords(sets[1..][..k - 1]));
  }

  /** The sets found are read in order, each record by the latest template, until as many records
      are found as there may be. */
  lemma {:induction false} SetsRead(read: SetReader, len: nat, limit: Option<nat>, off: nat, records: seq<Record>,
                                    sets: seq<Set>, cache: Templates)
    requires Finds(read, off, len, sets, cache)
    ensures var k := Taken(sets, limit, |records|);
      ReadSets(read, len, limit, off, records, cache)
      == Parsed(records + AllRecords(sets[..k]), LastCache(sets[..k], cache))
    decreases |sets|
  {
    var k := Taken(sets, limit, |records|);
    if sets == [] || Full(limit, |records|) {
      LastSet(read, len, limit, off, records, cache);
      assert sets[..0] == [] && records + [] == records;
    } else {
      var r := read(off, cache);
      NextSet(read, len, limit, off, records, cache, r);
      SetsRead(read, len, limit, r.next, records + r.records, sets[1..], r.templates);
      FirstTaken(sets, k, records, cache);
    }
  }

  /** A count of all items leaves out only sets that have nothing to give. */
  lemma {:induction false} AllTaken(sets: seq<Set>, limit: Option<nat>, found: nat, cache: Templates)
    requires NoneEmpty(sets) && (limit.Some? ==> limit.value >= found + Items(sets))
    ensures var k := Taken(sets, limit, found);
      AllRecords(sets[..k]) == AllRecords(sets) && LastCache(sets[..k], cache) == LastCache(sets, cache)
    decreases |sets|
  {
    var k := Taken(sets, limit, found);
    if sets != [] && !Full(limit, found) {
      FirstItems(sets);
      AllTaken(sets[1..], limit, found + |RecordsIn(sets[0])|, NextCache(sets[0], cache));
      assert sets[..k][0] == sets[0] && sets[..k][1..] == sets[1..][..k - 1];
    } else if sets != [] {
      NoItems(sets, cache);
      assert sets[..0] == [];
    }
  }

  /** v9 puts the number of items into its header, IPFIX the length of the packet. */
  function HeaderField(d: Dialect, sets: seq<Set>, cache: Templates): nat {
    if d.V9? then Items(sets) else 16 + |EncodeSets(d, sets, cache)|
  }

  /** A packet with this header field; `rest` is what follows in the header (times, sequence number,
      source) and `behind` what follows an IPFIX packet of its length; neither is read. */
  function EncodeWith(d: Dialect, field: nat, sets: seq<Set>, cache: Templates, rest: Bytes, behind: Bytes): Bytes {
    BE(if d.V9? then 9 else 10, 2) + (BE(field, 2) + (rest + (EncodeSets(d, sets, cache) + behind)))
  }

  function EncodePacket(d: Dialect, sets: seq<Set>, cache: Templates, rest: Bytes, behind: Bytes): Bytes {
    EncodeWith(d, HeaderField(d, sets, cache), sets, cache, rest, behind)
  }

  lemma {:induction false} GoodNoneEmpty(d: Dialect, sets: seq<Set>, cache: Templates)
    requires GoodSets(d, sets, cache)
    ensures NoneEmpty(sets)
    decreases |sets|
  {
    if sets != [] { GoodNoneEmpty(d, sets[1..], NextCache(sets[0], cache)); }
  }

  lemma {:induction false} HeaderBack(d: Dialect, version: Bytes, field: nat, rest: Bytes, body: Bytes, data: Bytes)
    requires data == version + (BE(field, 2) + (rest + body))
    requires |version| == 2 && field < 0x1_0000 && |rest| == HeaderSize(d) - 4
    ensures |data| == HeaderSize(d) + |body| && U16(data, 2) == field && At(data, HeaderSize(d), body)
  {
    assert data[0..|data|] == data;
    AtSplit(data, 0, version, BE(field, 2) + (rest + body));
    AtSplit(data, 2, BE(field, 2), rest + body);
    AtSplit(data, 4, rest, body);
    ReadU16(data, 2, field);
  }

  /** What is asked of the header field and of what follows the packet: an IPFIX packet gives its
      length, a v9 packet ends where the data ends. */
  predicate Framed(d: Dialect, field: nat, sets: seq<Set>, cache: Templates, rest: Bytes, behind: Bytes) {
    && field < 0x1_0000 && |rest| == (if d.V9? then 16 else 12)
    && if d.V9? then behind == [] else field == 16 + |EncodeSets(d, sets, cache)|
  }

  /** Whatever an exporter sends, with templates in the packet or cached before and other sets
      anywhere between: the parser gives back its records in order and keeps the latest templates;
      of a v9 packet with any count, it reads the sets before which fewer records than the count
      were found; of an IPFIX packet, nothing behind its length. */
  lemma {:induction false} ParseCounted(d: Dialect, field: nat, sets: seq<Set>, cache: Templates, rest: Bytes,
      behind: Bytes)
    requires GoodSets(d, sets, cache) && GoodCache(d, cache) && Framed(d, field, sets, cache, rest, behind)
    ensures var k := Taken(sets, if d.V9? then Some(field) else None, 0);
      Parse(d, EncodeWith(d, field, sets, cache, rest, behind), cache)
      == Parsed(AllRecords(sets[..k]), LastCache(sets[..k], cache))
  {
    var data, body := EncodeWith(d, field, sets, cache, rest, behind), EncodeSets(d, sets, cache);
    HeaderBack(d, BE(if d.V9? then 9 else 10, 2), field, rest, body + behind, data);
    AtSplit(data, HeaderSize(d), body, behind);
    BodyParsed(d, data, HeaderSize(d) + |body|, field, sets, cache);
    HeaderRead(d, data, field, HeaderSize(d) + |body|, cache);
  }

  lemma {:induction false} HeaderRead(d: Dialect, data: Bytes, field: nat, len: nat, cache: Templates)
    requires HeaderSize(d) <= len <= |data| && U16(data, 2) == field && if d.V9? then len == |data| else len == field
    ensures Parse(d, data, cache)
         == ReadSets(SetAt(d, data, len), len, if d.V9? then Some(field) else None, HeaderSize(d), [], cache)
  {
  }

  lemma {:induction false} BodyParsed(d: Dialect, data: Bytes, len: nat, field: nat, sets: seq<Set>, cache: Templates)
    requires GoodSets(d, sets, cache) && GoodCache(d, cache)
    requires len == HeaderSize(d) + |EncodeSets(d, sets, cache)| <= |data|
        && At(data, HeaderSize(d), EncodeSets(d, sets, cache))
    ensures var limit := if d.V9? then Some(field) else None;
      var k := Taken(sets, limit, 0);
      ReadSets(SetAt(d, data, len), len, limit, HeaderSize(d), [], cache)
      == Parsed(AllRecords(sets[..k]), LastCache(sets[..k], cache))
  {
    var limit := if d.V9? then Some(field) else None;
    SetAtReadsAll(d, data, len);
    ChainFrom(d, sets, cache);
    SetsFound(SetAt(d, data, len), Encoding(d), WellFormed(d), data, len, HeaderSize(d), sets, cache);
    SetsRead(SetAt(d, data, len), len, limit, HeaderSize(d), [], sets, cache);
    assert [] + AllRecords(sets[..Taken(sets, limit, 0)]) == AllRecords(sets[..Taken(sets, limit, 0)]);
  }

  /** With the count of all its items, or the length of its packet, an exporter gets everything back. */
  lemma {:induction false} ParseBack(d: Dialect, sets: seq<Set>, cache: Templates, rest: Bytes, behind: Bytes)
    requires GoodSets(d, sets, cache) && GoodCache(d, cache)
    requires Framed(d, HeaderField(d, sets, cache), sets, cache, rest, behind)
    ensures Parse(d, EncodePacket(d, sets, cache, rest, behind), cache)
        == Parsed(AllRecords(sets), LastCache(sets, cache))
  {
    ParseCounted(d, HeaderField(d, sets, cache), sets, cache, rest, behind);
    GoodNoneEmpty(d, sets, cache);
    AllTaken(sets, if d.V9? then Some(Items(sets)) else None, 0, cache);
  }
}
