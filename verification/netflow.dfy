/** NetFlow v9 and IPFIX: templates, data sets and the template cache. */
module NetFlow {
  import opened Bytes
  import opened Wrappers

  /** The two template-based formats; they differ in header, set ids and field table. */
  datatype Dialect = V9 | Ipfix

  datatype Field = Field(kind: nat, len: nat)

  type Templates = map<nat, seq<Field>>

  datatype Record = Record(dOctets: nat, dPkts: nat, protocol: nat, tcpFlags: nat, srcPort: nat, dstPort: nat,
                           srcAddr: Bytes, dstAddr: Bytes, srcAs: nat, tos: nat)

  const EMPTY := Record(0, 0, 0, 0, 0, 0, [0, 0, 0, 0], [0, 0, 0, 0], 0, 0)

  /** How a packet ends: parsed; caught in a loop that makes no progress; or reading a field
      past the end of the packet, or into a variable too narrow for it. */
  datatype Outcome = Parsed(records: seq<Record>, templates: Templates) | Hangs | Undefined

  /** A big-endian 16-bit field: ntohs of two bytes. */
  function U16(data: Bytes, off: nat): (x: nat)
    requires off + 2 <= |data|
    ensures x < 0x1_0000
  {
    var high: int, low: int := data[off], data[off + 1];
    256 * high + low
  }

  // Fields.

  /** What a field sets, by the code's own table. */
  datatype Target = Octets | Pkts | Protocol | Flags | SrcPort | DstPort | SrcAddr | DstAddr | SrcAs | Tos | Ignored

  function TargetOf(d: Dialect, kind: nat): Target {
    match kind
    case 1 => Octets
    case 2 => Pkts
    case 4 => Protocol
    case 6 => Flags
    case 7 => SrcPort
    case 8 => SrcAddr
    case 10 => DstPort
    case 11 => DstAddr
    case 12 => if d.V9? then Octets else Ignored
    case 22 => if d.V9? then SrcAs else Ignored
    case 23 => if d.V9? then Tos else Ignored
    case _ => Ignored
  }

  /** What a field is read from, its offset to the end of the packet, can be read: one byte or
      four whatever the field's own length, and a counter or a port into four bytes. */
  predicate Readable(d: Dialect, f: Field, tail: Bytes) {
    match TargetOf(d, f.kind)
    case Ignored => true
    case Protocol => |tail| >= 1
    case Flags => |tail| >= 1
    case Tos => |tail| >= 1
    case SrcAddr => |tail| >= 4
    case DstAddr => |tail| >= 4
    case _ => f.len <= 4 && f.len <= |tail|
  }

  function FromBE(b: Bytes): nat { if b == [] then 0 else 256 * FromBE(b[..|b| - 1]) + b[|b| - 1] }

  /** read_uint: one, two or four bytes in network order; other widths in host order. */
  function ReadUInt(b: Bytes): nat {
    if |b| == 1 || |b| == 2 || |b| == 4 then FromBE(b) else FromLE(b)
  }

  function Low16(x: nat): nat { x % 0x1_0000 }

  function SetField(d: Dialect, r: Record, f: Field, tail: Bytes): Record
    requires Readable(d, f, tail)
  {
    match TargetOf(d, f.kind)
    case Octets => r.(dOctets := ReadUInt(tail[..f.len]))
    case Pkts => r.(dPkts := ReadUInt(tail[..f.len]))
    case Protocol => r.(protocol := tail[0])
    case Flags => r.(tcpFlags := tail[0])
    case SrcPort => r.(srcPort := Low16(ReadUInt(tail[..f.len])))
    case DstPort => r.(dstPort := Low16(ReadUInt(tail[..f.len])))
    case SrcAddr => r.(srcAddr := tail[..4])
    case DstAddr => r.(dstAddr := tail[..4])
    case SrcAs => r.(srcAs := Low16(ReadUInt(tail[..f.len])))
    case Tos => r.(tos := tail[0])
    case Ignored => r
  }

  /** The bytes of the first n fields. */
  function Width(fields: seq<Field>, n: nat): nat
    requires n <= |fields|
  {
    if n == 0 then 0 else Width(fields, n - 1) + fields[n - 1].len
  }

  function RecordSize(fields: seq<Field>): nat { Width(fields, |fields|) }

  /** What a field does to a record, read from its offset on; None where it cannot be read. */
  type Setter = (Record, Field, Bytes) -> Option<Record>

  function Setting(d: Dialect): Setter {
    (r: Record, f: Field, tail: Bytes) => if Readable(d, f, tail) then Some(SetField(d, r, f, tail)) else None
  }

  /** A record after its first n fields. */
  function Decode(apply: Setter, data: Bytes, off: nat, fields: seq<Field>, n: nat): Option<Record>
    requires n <= |fields| && off + Width(fields, n) <= |data|
  {
    if n == 0 then Some(EMPTY)
    else
      match Decode(apply, data, off, fields, n - 1)
      case None => None
      case Some(r) => apply(r, fields[n - 1], data[off + Width(fields, n - 1)..])
  }

  /** Every field of a record at this offset can be read. */
  predicate AllReadable(d: Dialect, data: Bytes, off: nat, fields: seq<Field>) {
    FirstReadable(d, data, off, fields, |fields|)
  }

  predicate FirstReadable(d: Dialect, data: Bytes, off: nat, fields: seq<Field>, n: nat)
    requires n <= |fields|
  {
    forall i :: 0 <= i < n ==> ReadableAt(d, data, off, fields, i)
  }

  predicate ReadableAt(d: Dialect, data: Bytes, off: nat, fields: seq<Field>, i: nat)
    requires i < |fields|
  {
    off + Width(fields, i) <= |data| && Readable(d, fields[i], data[off + Width(fields, i)..])
  }

  lemma {:induction false} DecodedIff(d: Dialect, data: Bytes, off: nat, fields: seq<Field>, n: nat)
    requires n <= |fields| && off + Width(fields, n) <= |data|
    ensures Decode(Setting(d), data, off, fields, n).Some? <==> FirstReadable(d, data, off, fields, n)
  {
    if n > 0 {
      DecodedIff(d, data, off, fields, n - 1);
      OneMore(d, data, off, fields, n);
      var before := Decode(Setting(d), data, off, fields, n - 1);
      if before.Some? {
        assert Setting(d)(before.value, fields[n - 1], data[off + Width(fields, n - 1)..]).Some?
            <==> ReadableAt(d, data, off, fields, n - 1);
      }
    }
  }

  lemma {:induction false} OneMore(d: Dialect, data: Bytes, off: nat, fields: seq<Field>, n: nat)
    requires 0 < n <= |fields|
    ensures FirstReadable(d, data, off, fields, n)
       <==> FirstReadable(d, data, off, fields, n - 1) && ReadableAt(d, data, off, fields, n - 1)
  {
  }

  // Sets.

  /** The field specifiers from `off` on, up to `count` and no further than `end`. */
  function ReadFields(data: Bytes, off: nat, end: nat, count: nat): seq<Field>
    requires end <= |data|
    decreases count
  {
    if count == 0 || off + 4 > end then []
    else [Field(U16(data, off), U16(data, off + 2))] + ReadFields(data, off + 4, end, count - 1)
  }

  datatype Template = Template(id: nat, fields: seq<Field>)

  /** The template at an offset, its fields up to `end`. */
  function TemplateAt(data: Bytes, end: nat): nat -> Template {
    (off: nat) =>
      if off + 4 <= end <= |data| then Template(U16(data, off), ReadFields(data, off + 4, end, U16(data, off + 2)))
      else Template(0, [])
  }

  /** The loop over a template set. */
  function ReadTemplates(at: nat -> Template, off: nat, end: nat, cache: Templates): Templates
    decreases end - off
  {
    if off + 4 > end then cache
    else ReadTemplates(at, off + 4 + 4 * |at(off).fields|, end, cache[at(off).id := at(off).fields])
  }

  /** The record at an offset, None where one of its fields cannot be read. */
  type Reader = nat -> Option<Record>

  function DecodeAt(d: Dialect, data: Bytes, fields: seq<Field>): Reader
  {
    (off: nat) => if off + RecordSize(fields) <= |data| then Decode(Setting(d), data, off, fields, |fields|) else None
  }

  /** The loop over a data set's records: one every `size` bytes while a whole one fits. */
  function ReadRecords(read: Reader, off: nat, end: nat, size: nat): Option<seq<Record>>
    requires size > 0
    decreases end - off
  {
    if off + size > end then Some([])
    else
      match read(off)
      case None => None
      case Some(r) =>
        match ReadRecords(read, off + size, end, size)
        case None => None
        case Some(rs) => Some([r] + rs)
  }

  function TemplateSetId(d: Dialect): nat { if d.V9? then 0 else 2 }

  /** What one set does: nothing to read there, a loop without progress, a field that cannot
      be read, or records, the cache after it and where the next set begins. */
  datatype SetRead = Stop | Stuck | Unreadable | Done(records: seq<Record>, next: nat, templates: Templates)

  /** Reading the templates between two offsets on top of a cache. */
  type TemplateReader = (nat, nat, Templates) -> Templates

  /** The records between two offsets; or the first again and again, when they have no bytes; or
      one with a field that cannot be read. */
  datatype RecordsRead = Found(records: seq<Record>) | Endlessly | Broken

  type RecordReader = (seq<Field>, nat, nat) -> RecordsRead

  function TemplatesOf(data: Bytes): TemplateReader {
    (off: nat, end: nat, cache: Templates) => ReadTemplates(TemplateAt(data, end), off, end, cache)
  }

  function RecordsOf(d: Dialect, data: Bytes): RecordReader {
    (fields: seq<Field>, off: nat, end: nat) => RecordsBetween(DecodeAt(d, data, fields), off, end, RecordSize(fields))
  }

  function RecordsBetween(read: Reader, off: nat, end: nat, size: nat): RecordsRead {
    if size == 0 then (if read(off).Some? then Endlessly else Broken)
    else
      match ReadRecords(read, off, end, size)
      case None => Broken
      case Some(rs) => Found(rs)
  }

  /** The set with this id from its header at `off` to `end`. */
  function ReadSet(d: Dialect, templates: TemplateReader, records: RecordReader, id: nat, off: nat, end: nat,
      cache: Templates): SetRead
  {
    if end == off then Stuck
    else if id == TemplateSetId(d) then Done([], end, templates(off + 4, end, cache))
    else if id < 256 || id !in cache || off + 4 + RecordSize(cache[id]) > end then Done([], end, cache)
    else
      match records(cache[id], off + 4, end)
      case Endlessly => Stuck
      case Broken => Unreadable
      case Found(rs) => Done(rs, end, cache)
  }

  type SetReader = (nat, Templates) -> SetRead

  function SetAt(d: Dialect, data: Bytes, len: nat): SetReader
    requires len <= |data|
  {
    (off: nat, cache: Templates) =>
      if off + 4 > len || off + U16(data, off + 2) > len then Stop
      else ReadSet(d, TemplatesOf(data), RecordsOf(d, data), U16(data, off), off, off + U16(data, off + 2), cache)
  }

  predicate Full(limit: Option<nat>, records: nat) { limit.Some? && records >= limit.value }

  /** The loop over sets with `records` found so far, at most until there are `limit` of them. */
  function ReadSets(read: SetReader, len: nat, limit: Option<nat>, off: nat, records: seq<Record>,
      cache: Templates): Outcome
    decreases len - off
  {
    if Full(limit, |records|) then Parsed(records, cache)
    else
      match read(off, cache)
      case Stop => Parsed(records, cache)
      case Stuck => Hangs
      case Unreadable => Undefined
      case Done(more, next, cache') =>
        if off < next <= len then ReadSets(read, len, limit, next, records + more, cache') else Hangs
  }

  function HeaderSize(d: Dialect): nat { if d.V9? then 20 else 16 }

  function Min(a: nat, b: nat): nat { if a <= b then a else b }

  /** How far a packet is read: a v9 packet to its end, an IPFIX one to its length field. */
  function Extent(d: Dialect, data: Bytes): (len: nat)
    requires |data| >= HeaderSize(d)
    ensures len <= |data|
  {
    if d.V9? then |data| else Min(U16(data, 2), |data|)
  }

  /** How many records a packet may give: the count field of a v9 packet. */
  function Limit(d: Dialect, data: Bytes): Option<nat>
    requires |data| >= HeaderSize(d)
  {
    if d.V9? then Some(U16(data, 2)) else None
  }

  function Parse(d: Dialect, data: Bytes, cache: Templates): Outcome {
    if |data| < HeaderSize(d) then Parsed([], cache)
    else
      var len := Extent(d, data);
      ReadSets(SetAt(d, data, len), len, Limit(d, data), HeaderSize(d), [], cache)
  }

  // The loops.

  method ReadFieldsLoop(data: Bytes, off: nat, end: nat, count: nat) returns (fields: seq<Field>)
    requires end <= |data|
    ensures fields == ReadFields(data, off, end, count)
  {
    fields := [];
    var at: nat, f: nat := off, 0;
    while f < count && at + 4 <= end
      invariant f <= count && fields + ReadFields(data, at, end, count - f) == ReadFields(data, off, end, count)
    {
      fields := fields + [Field(U16(data, at), U16(data, at + 2))];
      at, f := at + 4, f + 1;
    }
  }

  method ReadTemplatesLoop(data: Bytes, off: nat, end: nat, cache: Templates) returns (r: Templates)
    requires end <= |data|
    ensures r == ReadTemplates(TemplateAt(data, end), off, end, cache)
  {
    r := cache;
    var at := off;
    while at + 4 <= end
      invariant ReadTemplates(TemplateAt(data, end), at, end, r)
          == ReadTemplates(TemplateAt(data, end), off, end, cache)
      decreases end - at
    {
      var fields := ReadFieldsLoop(data, at + 4, end, U16(data, at + 2));
      r := r[U16(data, at) := fields];
      at := at + 4 + 4 * |fields|;
    }
  }

  lemma {:induction false} NextDecode(apply: Setter, data: Bytes, off: nat, fields: seq<Field>, n: nat)
    requires n < |fields| && off + Width(fields, n + 1) <= |data|
    ensures Decode(apply, data, off, fields, n + 1)
         == match Decode(apply, data, off, fields, n)
            case None => None
            case Some(r) => apply(r, fields[n], data[off + Width(fields, n)..])
  {
  }

  lemma {:induction false} DecodeStops(apply: Setter, data: Bytes, off: nat, fields: seq<Field>, n: nat, m: nat)
    requires n <= m <= |fields| && off + Width(fields, m) <= |data| && off + Width(fields, n) <= |data|
    requires Decode(apply, data, off, fields, n).None?
    ensures Decode(apply, data, off, fields, m).None?
  {
    if n < m { DecodeStops(apply, data, off, fields, n, m - 1); }
  }

  method SetOne(d: Dialect, r: Record, f: Field, tail: Bytes) returns (r': Option<Record>)
    ensures r' == Setting(d)(r, f, tail)
  {
    if !Readable(d, f, tail) { return None; }
    r' := Some(SetField(d, r, f, tail));
  }

  method DecodeLoop(d: Dialect, data: Bytes, off: nat, fields: seq<Field>) returns (r: Option<Record>)
    requires off + RecordSize(fields) <= |data|
    ensures r == Decode(Setting(d), data, off, fields, |fields|)
  {
    r := Some(EMPTY);
    var at := off;
    ghost var apply := Setting(d);
    for i := 0 to |fields|
      invariant at == off + Width(fields, i) <= |data| && r.Some? && r == Decode(apply, data, off, fields, i)
    {
      WidthUpTo(fields, i + 1);
      NextDecode(apply, data, off, fields, i);
      r := SetOne(d, r.value, fields[i], data[at..]);
      if r.None? {
        DecodeStops(apply, data, off, fields, i + 1, |fields|);
        return None;
      }
      at := at + fields[i].len;
    }
  }

  lemma {:induction false} WidthUpTo(fields: seq<Field>, n: nat)
    requires n <= |fields|
    ensures Width(fields, n) <= RecordSize(fields)
    decreases |fields| - n
  {
    if n < |fields| { WidthUpTo(fields, n + 1); }
  }

  /** The records from an offset on behind those already read. */
  function Onward(rs: seq<Record>, rest: Option<seq<Record>>): Option<seq<Record>> {
    if rest.None? then None else Some(rs + rest.value)
  }

  lemma {:induction false} NextRecord(read: Reader, rs: seq<Record>, at: nat, end: nat, size: nat)
    requires size > 0 && at + size <= end
    ensures Onward(rs, ReadRecords(read, at, end, size))
         == match read(at)
            case None => None
            case Some(r) => Onward(rs + [r], ReadRecords(read, at + size, end, size))
  {
    if read(at).Some? {
      var rest := ReadRecords(read, at + size, end, size);
      if rest.Some? { assert rs + ([read(at).value] + rest.value) == (rs + [read(at).value]) + rest.value; }
    }
  }

  lemma {:induction false} LastRecord(read: Reader, rs: seq<Record>, at: nat, end: nat, size: nat)
    requires size > 0 && at + size > end
    ensures Onward(rs, ReadRecords(read, at, end, size)) == Some(rs)
  {
    assert rs + [] == rs;
  }

  lemma {:induction false} NoneBefore(rest: Option<seq<Record>>)
    ensures Onward([], rest) == rest
  {
    if rest.Some? { assert [] + rest.value == rest.value; }
  }

  method ReadRecordsLoop(d: Dialect, data: Bytes, off: nat, end: nat, fields: seq<Field>)
      returns (rs: Option<seq<Record>>)
    requires end <= |data| && RecordSize(fields) > 0
    ensures rs == ReadRecords(DecodeAt(d, data, fields), off, end, RecordSize(fields))
  {
    var found, at, size := [], off, RecordSize(fields);
    ghost var read := DecodeAt(d, data, fields);
    ghost var whole := ReadRecords(read, off, end, size);
    NoneBefore(whole);
    while at + size <= end
      invariant Onward(found, ReadRecords(read, at, end, size)) == whole
      decreases end - at
    {
      NextRecord(read, found, at, end, size);
      var r := DecodeLoop(d, data, at, fields);
      if r.None? { return None; }
      found, at := found + [r.value], at + size;
    }
    LastRecord(read, found, at, end, size);
    return Some(found);
  }

  /** What the body of the loop over sets does with one set. */
  method ReadSetBody(d: Dialect, data: Bytes, off: nat, end: nat, cache: Templates) returns (r: SetRead)
    requires off + 4 <= |data| && end <= |data|
    ensures r == ReadSet(d, TemplatesOf(data), RecordsOf(d, data), U16(data, off), off, end, cache)
  {
    if end == off { return Stuck; }
    var id := U16(data, off);
    if id == TemplateSetId(d) {
      var templates := ReadTemplatesLoop(data, off + 4, end, cache);
      return Done([], end, templates);
    }
    if id < 256 || id !in cache { return Done([], end, cache); }
    var fields := cache[id];
    if off + 4 + RecordSize(fields) > end { return Done([], end, cache); }
    if RecordSize(fields) == 0 {
      var r := DecodeLoop(d, data, off + 4, fields);
      assert DecodeAt(d, data, fields)(off + 4) == r;
      return if r.Some? then Stuck else Unreadable;
    }
    var records := ReadRecordsLoop(d, data, off + 4, end, fields);
    return if records.Some? then Done(records.value, end, cache) else Unreadable;
  }

  /** The loop over sets never goes backwards or past the end. */
  ghost predicate Advances(read: SetReader, len: nat) {
    forall off: nat, cache :: read(off, cache).Done? ==> off < read(off, cache).next <= len
  }

  lemma {:induction false} SetEnds(d: Dialect, templates: TemplateReader, records: RecordReader, id: nat, off: nat,
      end: nat, cache: Templates)
    ensures var r := ReadSet(d, templates, records, id, off, end, cache); r.Done? ==> r.next == end && end != off
  {
  }

  lemma {:induction false} SetAtAdvances(d: Dialect, data: Bytes, len: nat)
    requires len <= |data|
    ensures Advances(SetAt(d, data, len), len)
  {
    forall off: nat, cache | SetAt(d, data, len)(off, cache).Done?
      ensures off < SetAt(d, data, len)(off, cache).next <= len
    {
      var end := off + U16(data, off + 2);
      SetEnds(d, TemplatesOf(data), RecordsOf(d, data), U16(data, off), off, end, cache);
    }
  }

  class NetFlowParser {
    /** The thread's template caches, kept from packet to packet. */
    var v9: Templates
    var ipfix: Templates

    constructor ()
      ensures v9 == map[] && ipfix == map[]
    {
      v9, ipfix := map[], map[];
    }

    function CacheOf(d: Dialect): Templates
      reads this
    {
      if d.V9? then v9 else ipfix
    }

    /** parse_v9 and parse_ipfix; a packet that would keep the loop going for ever, or read a
        field it cannot, is reported as such and leaves the caches alone. */
    method ParsePacket(d: Dialect, data: Bytes) returns (outcome: Outcome)
      modifies this
      ensures outcome == Parse(d, data, old(CacheOf(d)))
      ensures CacheOf(d) == if outcome.Parsed? then outcome.templates else old(CacheOf(d))
      ensures d.V9? ==> ipfix == old(ipfix)
      ensures d.Ipfix? ==> v9 == old(v9)
    {
      if |data| < HeaderSize(d) { return Parsed([], CacheOf(d)); }
      outcome := ParseSets(d, data, Extent(d, data), Limit(d, data), CacheOf(d));
      if outcome.Parsed? {
        if d.V9? { v9 := outcome.templates; } else { ipfix := outcome.templates; }
      }
    }
  }

  /** The loop condition, the length check and the body. */
  method SetStep(d: Dialect, data: Bytes, len: nat, off: nat, cache: Templates) returns (r: SetRead)
    requires len <= |data|
    ensures r == SetAt(d, data, len)(off, cache)
  {
    if off + 4 > len { return Stop; }
    var size := U16(data, off + 2);
    if off + size > len { return Stop; }
    r := ReadSetBody(d, data, off, off + size, cache);
  }

  method ParseSets(d: Dialect, data: Bytes, len: nat, limit: Option<nat>, cache: Templates) returns (outcome: Outcome)
    requires len <= |data|
    ensures outcome == ReadSets(SetAt(d, data, len), len, limit, HeaderSize(d), [], cache)
  {
    var off: nat, records: seq<Record>, templates := HeaderSize(d), [], cache;
    ghost var read := SetAt(d, data, len);
    SetAtAdvances(d, data, len);
    while limit.Some? ==> |records| < limit.value
      invariant ReadSets(read, len, limit, off, records, templates)
          == ReadSets(read, len, limit, HeaderSize(d), [], cache)
      decreases len - off
    {
      var r := SetStep(d, data, len, off, templates);
      match r
      case Stop => return Parsed(records, templates);
      case Stuck => return Hangs;
      case Unreadable => return Undefined;
      case Done(more, next, templates') => off, records, templates := next, records + more, templates';
    }
    return Parsed(records, templates);
  }
}
