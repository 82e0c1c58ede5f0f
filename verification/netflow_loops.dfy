/** The loops of the NetFlow parser, one iteration at a time: when they end, and with what. */
module NetFlowLoops {
  import opened Bytes
  import opened NetFlow
  import opened Wrappers

  /** Between two iterations: before a set, between the records of a data set, returned, or
      stopped by a field that cannot be read. */
  datatype Loop =
    | AtSet(off: nat, records: seq<Record>, cache: Templates)
    | InRecords(at: nat, end: nat, fields: seq<Field>, records: seq<Record>, cache: Templates)
    | Exited(records: seq<Record>, cache: Templates)
    | Faulted

  type Stepper = Loop -> Loop

  /** The outer loop's condition and body up to its inner loop. */
  function StepSet(d: Dialect, data: Bytes, len: nat, limit: Option<nat>, off: nat, records: seq<Record>,
      cache: Templates): Loop
    requires len <= |data|
  {
    if off + 4 > len || Full(limit, |records|) || off + U16(data, off + 2) > len then Exited(records, cache)
    else
      var id, end := U16(data, off), off + U16(data, off + 2);
      if id == TemplateSetId(d) then AtSet(end, records, TemplatesOf(data)(off + 4, end, cache))
      else if id < 256 || id !in cache then AtSet(end, records, cache)
      else InRecords(off + 4, end, cache[id], records, cache)
  }

  /** The inner loop's condition and body. */
  function StepRecord(d: Dialect, data: Bytes, at: nat, end: nat, fields: seq<Field>, records: seq<Record>,
      cache: Templates): Loop
  {
    if at + RecordSize(fields) > end then AtSet(end, records, cache)
    else
      match DecodeAt(d, data, fields)(at)
      case None => Faulted
      case Some(r) => InRecords(at + RecordSize(fields), end, fields, records + [r], cache)
  }

  function StepOf(d: Dialect, data: Bytes, len: nat, limit: Option<nat>): Stepper
    requires len <= |data|
  {
    (s: Loop) =>
      match s
      case AtSet(off, records, cache) => StepSet(d, data, len, limit, off, records, cache)
      case InRecords(at, end, fields, records, cache) => StepRecord(d, data, at, end, fields, records, cache)
      case _ => s
  }

  predicate Ended(s: Loop) { s.Exited? || s.Faulted? }

  function Iterate(step: Stepper, s: Loop, n: nat): Loop
    decreases n
  {
    if n == 0 then s else Iterate(step, step(s), n - 1)
  }

  /** The parser after n iterations, from its entry on. */
  function LoopAt(d: Dialect, data: Bytes, cache: Templates, n: nat): Loop {
    if |data| < HeaderSize(d) then Exited([], cache)
    else Iterate(StepOf(d, data, Extent(d, data), Limit(d, data)), AtSet(HeaderSize(d), [], cache), n)
  }

  lemma {:induction false} IterateAdd(step: Stepper, s: Loop, m: nat, n: nat)
    ensures Iterate(step, s, m + n) == Iterate(step, Iterate(step, s, m), n)
    decreases m
  {
    if m > 0 { IterateAdd(step, step(s), m - 1, n); }
  }

  lemma {:induction false} IterateOne(step: Stepper, s: Loop, t: Loop)
    requires step(s) == t
    ensures Iterate(step, s, 1) == t
  {
    assert Iterate(step, t, 0) == t;
  }

  /** Nothing happens after the end. */
  ghost predicate Final(step: Stepper) { forall s :: Ended(s) ==> step(s) == s }

  lemma {:induction false} EndedStays(step: Stepper, s: Loop, n: nat)
    requires Final(step) && Ended(s)
    ensures Iterate(step, s, n) == s
    decreases n
  {
    if n > 0 { EndedStays(step, s, n - 1); }
  }

  // One set.

  /** The inner loop over records of a positive size. */
  ghost predicate StepsBy(step: Stepper, read: Reader, size: nat, end: nat, fields: seq<Field>, cache: Templates) {
    forall at, records :: StepsAt(step, read, size, at, end, fields, records, cache)
  }

  predicate StepsAt(step: Stepper, read: Reader, size: nat, at: nat, end: nat, fields: seq<Field>,
      records: seq<Record>, cache: Templates)
  {
    step(InRecords(at, end, fields, records, cache))
    == if at + size > end then AtSet(end, records, cache)
       else match read(at)
            case None => Faulted
            case Some(r) => InRecords(at + size, end, fields, records + [r], cache)
  }

  /** Where the inner loop leaves off. */
  function Left(end: nat, rs: Option<seq<Record>>, cache: Templates): Loop {
    if rs.None? then Faulted else AtSet(end, rs.value, cache)
  }

  /** A whole data set: as many iterations as it has records, and one to leave; or it stops at
      the first record with a field that cannot be read. */
  lemma {:induction false} RecordsRun(step: Stepper, read: Reader, size: nat, at: nat, end: nat, fields: seq<Field>,
                                      records: seq<Record>, cache: Templates) returns (n: nat)
    requires size > 0 && StepsBy(step, read, size, end, fields, cache)
    ensures Iterate(step, InRecords(at, end, fields, records, cache), n)
         == Left(end, Onward(records, ReadRecords(read, at, end, size)), cache)
    ensures ReadRecords(read, at, end, size).Some? ==> n == |ReadRecords(read, at, end, size).value| + 1
    decreases end - at
  {
    var s := InRecords(at, end, fields, records, cache);
    assert StepsAt(step, read, size, at, end, fields, records, cache);
    n := 1;
    if at + size > end {
      LastRecord(read, records, at, end, size);
      IterateOne(step, s, AtSet(end, records, cache));
    } else {
      NextRecord(read, records, at, end, size);
      if read(at).None? {
        IterateOne(step, s, Faulted);
      } else {
        n := RecordsRun(step, read, size, at + size, end, fields, records + [read(at).value], cache);
        n := n + 1;
      }
    }
  }

  ghost predicate StepsRecords(d: Dialect, data: Bytes, step: Stepper) {
    forall at, end, fields, records, cache ::
      step(InRecords(at, end, fields, records, cache)) == StepRecord(d, data, at, end, fields, records, cache)
  }

  /** A set the loop cannot get past: of length zero, or a data set with room for its template's
      records, which have no bytes and whose fields can be read there. */
  predicate Endless(d: Dialect, data: Bytes, len: nat, limit: Option<nat>, s: Loop)
    requires len <= |data|
  {
    s.AtSet? && s.off + 4 <= len && !Full(limit, |s.records|)
    && var id, size := U16(data, s.off), U16(data, s.off + 2);
       && s.off + size <= len
       && (size == 0
           || (size >= 4 && id >= 256 && id != TemplateSetId(d) && id in s.cache
               && RecordSize(s.cache[id]) == 0 && AllReadable(d, data, s.off + 4, s.cache[id])))
  }

  /** The states the loop goes round in, once at such a set. */
  predicate Round(data: Bytes, h: Loop, s: Loop)
    requires h.AtSet? && h.off + 4 <= |data|
  {
    var id, size := U16(data, h.off), U16(data, h.off + 2);
    s == h
    || (s.InRecords? && s.at == h.off + 4 && s.end == h.off + size && id in h.cache && s.fields == h.cache[id]
        && s.cache == h.cache && (size == 0 ==> s.records == h.records))
  }

  lemma {:induction false} RoundGoesOn(d: Dialect, data: Bytes, len: nat, limit: Option<nat>, h: Loop, s: Loop)
    requires len <= |data| && Endless(d, data, len, limit, h) && Round(data, h, s)
    ensures Round(data, h, StepOf(d, data, len, limit)(s))
  {
    if s.InRecords? && RecordSize(s.fields) == 0 && s.at <= |data| { DecodedIff(d, data, s.at, s.fields, |s.fields|); }
  }

  lemma {:induction false} RoundForever(d: Dialect, data: Bytes, len: nat, limit: Option<nat>, h: Loop, s: Loop, n: nat)
    requires len <= |data| && Endless(d, data, len, limit, h) && Round(data, h, s)
    ensures !Ended(Iterate(StepOf(d, data, len, limit), s, n))
    decreases n
  {
    if n > 0 {
      RoundGoesOn(d, data, len, limit, h, s);
      RoundForever(d, data, len, limit, h, StepOf(d, data, len, limit)(s), n - 1);
    }
  }

  /** What reading one set means for the iterations: a return, a set that is never left, a field
      that cannot be read, or the next set. */
  predicate OneSetIs(d: Dialect, data: Bytes, len: nat, limit: Option<nat>, r: SetRead, s: Loop, t: Loop)
    requires len <= |data| && s.AtSet?
  {
    match r
    case Stop => t == Exited(s.records, s.cache)
    case Stuck => t == s && Endless(d, data, len, limit, s)
    case Unreadable => t == Faulted
    case Done(more, next, cache') => t == AtSet(next, s.records + more, cache')
  }

  /** The loop returns at this set: there is no room for it. */
  lemma {:induction false} StopSet(d: Dialect, data: Bytes, len: nat, limit: Option<nat>, s: Loop)
    requires len <= |data| && s.AtSet? && !Full(limit, |s.records|)
    requires s.off + 4 > len || s.off + U16(data, s.off + 2) > len
    ensures OneSetIs(d, data, len, limit, SetAt(d, data, len)(s.off, s.cache), s, StepOf(d, data, len, limit)(s))
  {
  }

  lemma {:induction false} EmptySet(d: Dialect, data: Bytes, len: nat, limit: Option<nat>, s: Loop)
    requires len <= |data| && s.AtSet? && !Full(limit, |s.records|)
    requires s.off + 4 <= len && U16(data, s.off + 2) == 0
    ensures OneSetIs(d, data, len, limit, SetAt(d, data, len)(s.off, s.cache), s, s)
  {
  }

  /** A set of templates, or one that is skipped. */
  lemma {:induction false} PlainSet(d: Dialect, data: Bytes, len: nat, limit: Option<nat>, s: Loop)
    requires len <= |data| && s.AtSet? && !Full(limit, |s.records|)
    requires s.off + 4 <= len && s.off < s.off + U16(data, s.off + 2) <= len
    requires U16(data, s.off) == TemplateSetId(d) || U16(data, s.off) < 256 || U16(data, s.off) !in s.cache
    ensures OneSetIs(d, data, len, limit, SetAt(d, data, len)(s.off, s.cache), s, StepOf(d, data, len, limit)(s))
  {
    assert s.records + [] == s.records;
  }

  lemma {:induction false} OneStep(d: Dialect, data: Bytes, len: nat, limit: Option<nat>, r: SetRead, s: Loop,
      step: Stepper)
    requires len <= |data| && s.AtSet? && OneSetIs(d, data, len, limit, r, s, step(s))
    ensures OneSetIs(d, data, len, limit, r, s, Iterate(step, s, 1))
  {
    IterateOne(step, s, step(s));
  }

  lemma {:induction false} KnownSet(d: Dialect, data: Bytes, len: nat, limit: Option<nat>, s: Loop) returns (n: nat)
    requires len <= |data| && s.AtSet? && !Full(limit, |s.records|) && KnownData(d, data, len, s.off, s.cache)
    ensures OneSetIs(d, data, len, limit, SetAt(d, data, len)(s.off, s.cache), s,
        Iterate(StepOf(d, data, len, limit), s, n))
  {
    DataSetRead(d, data, len, s);
    DataSetEntered(d, data, len, limit, s);
    n := OneDataSet(d, data, len, limit, s, StepOf(d, data, len, limit));
  }

  lemma {:induction false} OneSet(d: Dialect, data: Bytes, len: nat, limit: Option<nat>, s: Loop) returns (n: nat)
    requires len <= |data| && s.AtSet? && !Full(limit, |s.records|)
    ensures OneSetIs(d, data, len, limit, SetAt(d, data, len)(s.off, s.cache), s,
        Iterate(StepOf(d, data, len, limit), s, n))
  {
    var step, r := StepOf(d, data, len, limit), SetAt(d, data, len)(s.off, s.cache);
    if s.off + 4 > len || s.off + U16(data, s.off + 2) > len {
      StopSet(d, data, len, limit, s);
      OneStep(d, data, len, limit, r, s, step);
      n := 1;
    } else if U16(data, s.off + 2) == 0 {
      EmptySet(d, data, len, limit, s);
      n := 0;
    } else if KnownData(d, data, len, s.off, s.cache) {
      n := KnownSet(d, data, len, limit, s);
    } else {
      PlainSet(d, data, len, limit, s);
      OneStep(d, data, len, limit, r, s, step);
      n := 1;
    }
  }

  predicate KnownData(d: Dialect, data: Bytes, len: nat, off: nat, cache: Templates)
    requires len <= |data|
  {
    off + 4 <= len
    && var id, size := U16(data, off), U16(data, off + 2);
       0 < size <= len - off && id != TemplateSetId(d) && id >= 256 && id in cache
  }

  /** What a data set with these fields between two offsets does. */
  function DataSet(d: Dialect, data: Bytes, at: nat, end: nat, fields: seq<Field>, cache: Templates): SetRead {
    if at + RecordSize(fields) > end then Done([], end, cache)
    else
      match RecordsBetween(DecodeAt(d, data, fields), at, end, RecordSize(fields))
      case Endlessly => Stuck
      case Broken => Unreadable
      case Found(rs) => Done(rs, end, cache)
  }

  /** What the data set at s does. */
  function DataSetAt(d: Dialect, data: Bytes, len: nat, s: Loop): SetRead
    requires len <= |data| && s.AtSet? && KnownData(d, data, len, s.off, s.cache)
  {
    DataSet(d, data, s.off + 4, s.off + U16(data, s.off + 2), s.cache[U16(data, s.off)], s.cache)
  }

  /** The next iteration enters it. */
  ghost predicate Enters(d: Dialect, data: Bytes, len: nat, s: Loop, step: Stepper)
    requires len <= |data| && s.AtSet? && KnownData(d, data, len, s.off, s.cache)
  {
    && step(s) == InRecords(s.off + 4, s.off + U16(data, s.off + 2), s.cache[U16(data, s.off)], s.records, s.cache)
    && StepsRecords(d, data, step)
  }

  lemma {:induction false} ReadKnown(d: Dialect, data: Bytes, id: nat, off: nat, end: nat, cache: Templates)
    requires off < end <= |data| && id != TemplateSetId(d) && id >= 256 && id in cache
    ensures ReadSet(d, TemplatesOf(data), RecordsOf(d, data), id, off, end, cache)
        == DataSet(d, data, off + 4, end, cache[id], cache)
  {
  }

  lemma {:induction false} DataSetRead(d: Dialect, data: Bytes, len: nat, s: Loop)
    requires len <= |data| && s.AtSet? && KnownData(d, data, len, s.off, s.cache)
    ensures SetAt(d, data, len)(s.off, s.cache) == DataSetAt(d, data, len, s)
  {
    ReadKnown(d, data, U16(data, s.off), s.off, s.off + U16(data, s.off + 2), s.cache);
  }

  lemma {:induction false} DataSetEntered(d: Dialect, data: Bytes, len: nat, limit: Option<nat>, s: Loop)
    requires len <= |data| && s.AtSet? && !Full(limit, |s.records|) && KnownData(d, data, len, s.off, s.cache)
    ensures Enters(d, data, len, s, StepOf(d, data, len, limit))
  {
  }

  lemma {:induction false} DataSetSteps(d: Dialect, data: Bytes, step: Stepper, end: nat, fields: seq<Field>,
      cache: Templates)
    requires StepsRecords(d, data, step)
    ensures StepsBy(step, DecodeAt(d, data, fields), RecordSize(fields), end, fields, cache)
  {
    forall at: nat, records
      ensures StepsAt(step, DecodeAt(d, data, fields), RecordSize(fields), at, end, fields, records, cache)
    {
      assert step(InRecords(at, end, fields, records, cache)) == StepRecord(d, data, at, end, fields, records, cache);
    }
  }

  /** A data set that is not endless: its records, or a fault. */
  lemma {:induction false} DataSetRun(step: Stepper, read: Reader, size: nat, at: nat, end: nat, fields: seq<Field>,
                                      records: seq<Record>, cache: Templates) returns (n: nat)
    requires StepsBy(step, read, size, end, fields, cache)
    requires at + size > end || !RecordsBetween(read, at, end, size).Endlessly?
    ensures Iterate(step, InRecords(at, end, fields, records, cache), n)
         == if at + size > end then AtSet(end, records, cache)
            else match RecordsBetween(read, at, end, size)
                 case Found(rs) => AtSet(end, records + rs, cache)
                 case _ => Faulted
  {
    var s := InRecords(at, end, fields, records, cache);
    assert StepsAt(step, read, size, at, end, fields, records, cache);
    if at + size > end || size == 0 {
      IterateOne(step, s, step(s));
      n := 1;
    } else {
      n := RecordsRun(step, read, size, at, end, fields, records, cache);
    }
  }

  lemma {:induction false} StuckIsEndless(d: Dialect, data: Bytes, len: nat, limit: Option<nat>, s: Loop)
    requires len <= |data| && s.AtSet? && !Full(limit, |s.records|) && KnownData(d, data, len, s.off, s.cache)
    requires DataSetAt(d, data, len, s).Stuck?
    ensures Endless(d, data, len, limit, s)
  {
    var fields := s.cache[U16(data, s.off)];
    if s.off + 4 + RecordSize(fields) <= |data| { DecodedIff(d, data, s.off + 4, fields, |fields|); }
  }

  lemma {:induction false} OneDataSet(d: Dialect, data: Bytes, len: nat, limit: Option<nat>, s: Loop, step: Stepper)
      returns (n: nat)
    requires len <= |data| && s.AtSet? && !Full(limit, |s.records|) && KnownData(d, data, len, s.off, s.cache)
    requires Enters(d, data, len, s, step)
    ensures OneSetIs(d, data, len, limit, DataSetAt(d, data, len, s), s, Iterate(step, s, n))
  {
    if DataSetAt(d, data, len, s).Stuck? {
      StuckIsEndless(d, data, len, limit, s);
      n := 0;
    } else {
      n := RunToEnd(d, data, len, limit, s, step, DataSetAt(d, data, len, s));
    }
  }

  lemma {:induction false} RunToEnd(d: Dialect, data: Bytes, len: nat, limit: Option<nat>, s: Loop, step: Stepper,
      r: SetRead) returns (n: nat)
    requires len <= |data| && s.AtSet? && KnownData(d, data, len, s.off, s.cache)
    requires Enters(d, data, len, s, step) && r == DataSetAt(d, data, len, s) && !r.Stuck?
    ensures OneSetIs(d, data, len, limit, r, s, Iterate(step, s, n))
  {
    n := DataSetIterates(d, data, step, s, s.off + U16(data, s.off + 2), s.cache[U16(data, s.off)]);
  }

  lemma {:induction false} DataSetIterates(d: Dialect, data: Bytes, step: Stepper, s: Loop, end: nat,
      fields: seq<Field>) returns (n: nat)
    requires s.AtSet? && StepsRecords(d, data, step) && step(s) == InRecords(s.off + 4, end, fields, s.records, s.cache)
    requires !DataSet(d, data, s.off + 4, end, fields, s.cache).Stuck?
    ensures match DataSet(d, data, s.off + 4, end, fields, s.cache)
            case Unreadable => Iterate(step, s, n) == Faulted
            case Done(more, next, cache) => Iterate(step, s, n) == AtSet(next, s.records + more, cache)
            case _ => false
  {
    DataSetSteps(d, data, step, end, fields, s.cache);
    n := DataSetRun(step, DecodeAt(d, data, fields), RecordSize(fields), s.off + 4, end, fields, s.records, s.cache);
    assert s.records + [] == s.records;
    n := n + 1;
  }

  /** How the iterations end, for each outcome. */
  predicate EndsAs(d: Dialect, data: Bytes, len: nat, limit: Option<nat>, outcome: Outcome, t: Loop)
    requires len <= |data|
  {
    match outcome
    case Parsed(records, cache) => t == Exited(records, cache)
    case Undefined => t == Faulted
    case Hangs => Endless(d, data, len, limit, t)
  }

  lemma {:induction false} SetsRun(d: Dialect, data: Bytes, len: nat, limit: Option<nat>, s: Loop) returns (n: nat)
    requires len <= |data| && s.AtSet?
    ensures EndsAs(d, data, len, limit, ReadSets(SetAt(d, data, len), len, limit, s.off, s.records, s.cache),
                   Iterate(StepOf(d, data, len, limit), s, n))
    decreases len - s.off
  {
    var step := StepOf(d, data, len, limit);
    if Full(limit, |s.records|) {
      IterateOne(step, s, Exited(s.records, s.cache));
      n := 1;
    } else {
      n := OneSet(d, data, len, limit, s);
      var r := SetAt(d, data, len)(s.off, s.cache);
      if r.Done? {
        SetAtAdvances(d, data, len);
        var m := SetsRun(d, data, len, limit, AtSet(r.next, s.records + r.records, r.templates));
        IterateAdd(step, s, n, m);
        n := n + m;
      }
    }
  }

  // Whole packets.

  /** The parser is at a set it never leaves. */
  predicate EndlessAt(d: Dialect, data: Bytes, s: Loop) {
    |data| >= HeaderSize(d) && Endless(d, data, Extent(d, data), Limit(d, data), s)
  }

  /** The outcome names how the iterations go: they return it, they fault, or they come to a set
      they never leave. */
  lemma {:induction false} OutcomeReached(d: Dialect, data: Bytes, cache: Templates) returns (n: nat)
    ensures match Parse(d, data, cache)
            case Parsed(records, templates) => LoopAt(d, data, cache, n) == Exited(records, templates)
            case Undefined => LoopAt(d, data, cache, n) == Faulted
            case Hangs => EndlessAt(d, data, LoopAt(d, data, cache, n))
  {
    n := 0;
    if |data| >= HeaderSize(d) {
      n := SetsRun(d, data, Extent(d, data), Limit(d, data), AtSet(HeaderSize(d), [], cache));
    }
  }

  lemma {:induction false} EndedAfter(d: Dialect, data: Bytes, cache: Templates, m: nat, n: nat)
    requires m <= n && Ended(LoopAt(d, data, cache, m))
    ensures LoopAt(d, data, cache, n) == LoopAt(d, data, cache, m)
  {
    if |data| >= HeaderSize(d) {
      var step := StepOf(d, data, Extent(d, data), Limit(d, data));
      IterateAdd(step, AtSet(HeaderSize(d), [], cache), m, n - m);
      EndedStays(step, LoopAt(d, data, cache, m), n - m);
    }
  }

  lemma {:induction false} EndlessFrom(d: Dialect, data: Bytes, cache: Templates, m: nat, n: nat)
    requires EndlessAt(d, data, LoopAt(d, data, cache, m))
    ensures !Ended(LoopAt(d, data, cache, n))
  {
    var h := LoopAt(d, data, cache, m);
    if n >= m {
      IterateAdd(StepOf(d, data, Extent(d, data), Limit(d, data)), AtSet(HeaderSize(d), [], cache), m, n - m);
      RoundForever(d, data, Extent(d, data), Limit(d, data), h, h, n - m);
    } else if Ended(LoopAt(d, data, cache, n)) {
      EndedAfter(d, data, cache, n, m);
    }
  }

  /** The parser's loops run for ever if and only if they come to a set of length zero, or to a
      data set with room for records of its template that have no bytes and whose fields can be
      read behind the set's header; for every other packet they end. */
  lemma {:induction false} RunsForeverIff(d: Dialect, data: Bytes, cache: Templates)
    ensures (forall n: nat :: !Ended(LoopAt(d, data, cache, n)))
        <==> exists n: nat :: EndlessAt(d, data, LoopAt(d, data, cache, n))
    ensures Parse(d, data, cache).Hangs? <==> forall n: nat :: !Ended(LoopAt(d, data, cache, n))
  {
    var m := OutcomeReached(d, data, cache);
    if n: nat :| EndlessAt(d, data, LoopAt(d, data, cache, n)) {
      forall k: nat ensures !Ended(LoopAt(d, data, cache, k)) { EndlessFrom(d, data, cache, n, k); }
    }
  }

  /** And what they return is the outcome: nothing else is ever returned. */
  lemma {:induction false} ReturnsIff(d: Dialect, data: Bytes, cache: Templates, records: seq<Record>,
      templates: Templates)
    ensures Parse(d, data, cache) == Parsed(records, templates)
        <==> exists n: nat :: LoopAt(d, data, cache, n) == Exited(records, templates)
  {
    var m := OutcomeReached(d, data, cache);
    if n: nat :| LoopAt(d, data, cache, n) == Exited(records, templates) {
      if Ended(LoopAt(d, data, cache, m)) {
        EndedAfter(d, data, cache, if m <= n then m else n, if m <= n then n else m);
      } else {
        EndlessFrom(d, data, cache, m, n);
      }
    }
  }
}
