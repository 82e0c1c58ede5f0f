/** The statistics of one flow: what every packet does to them, and what they are. */
module FlowStatistics {
  import opened Bits
  import opened Clock
  import opened Statistics

  datatype Packet = Packet(len: nat, time: int, fwd: bool)

  datatype FlowStats = FlowStats(
    packetCount: nat, byteCount: nat, startTime: int, lastTime: int, size: Summary, iat: Summary,
    fwd: Direction, bwd: Direction)

  /** The fwd_ or bwd_ half of the statistics. */
  datatype Direction = Direction(packetCount: nat, byteCount: nat, size: Summary, iat: Summary, lastUs: int)

  const IDLE := Direction(0, 0, BLANK, BLANK, 0)

  /** A value-initialised FlowStats with its start time set. */
  function Fresh(start: int): FlowStats { FlowStats(0, 0, start, 0, BLANK, BLANK, IDLE, IDLE) }

  // What one packet does.

  /** A running statistic: its update with the count-th value, and what it stands for. */
  datatype Statistic = Statistic(push: (Summary, real, nat) -> Summary, batch: seq<real> -> Summary)

  function Welford(): Statistic {
    Statistic((s: Summary, x: real, count: nat) => if count > 0 then Push(s, x, count) else s,
      (xs: seq<real>) => Batch(xs))
  }

  lemma {:induction false} Pushed(s: Summary, x: real, count: nat, mean: real, m2: real)
    requires count > 1 && mean == Shifted(s.mean, x, count) && m2 == s.m2 + (x - s.mean) * (x - mean)
    ensures Welford().push(s, x, count) == Summary(mean, m2, Lesser(s.min, x), Greater(s.max, x))
  {
  }

  /** min, max and Welford's update; the first value fills the summary. */
  method Record(s: Summary, x: real, count: nat) returns (r: Summary)
    requires count > 0
    ensures r == Welford().push(s, x, count)
  {
    if count == 1 { return Summary(x, 0.0, x, x); }
    var min, max := s.min, s.max;
    if x < min { min := x; }
    if x > max { max := x; }
    var mean, m2 := WelfordUpdate(s.mean, s.m2, x, count, []);
    Pushed(s, x, count, mean, m2);
    return Summary(mean, m2, min, max);
  }

  function StepDirection(k: Statistic, d: Direction, len: nat, us: int): Direction {
    Direction(d.packetCount + 1, d.byteCount + len, k.push(d.size, len as real, d.packetCount + 1),
              if d.packetCount > 0 && d.lastUs > 0
              then k.push(d.iat, (us - d.lastUs) as real, d.packetCount) else d.iat,
              us)
  }

  function Update(k: Statistic, s: FlowStats, p: Packet): FlowStats {
    var us := Micros(p.time);
    FlowStats(s.packetCount + 1, s.byteCount + p.len, s.startTime, p.time,
              k.push(s.size, p.len as real, s.packetCount + 1),
              if s.packetCount > 0 then k.push(s.iat, (us - Micros(s.lastTime)) as real, s.packetCount) else s.iat,
              if p.fwd then StepDirection(k, s.fwd, p.len, us) else s.fwd,
              if p.fwd then s.bwd else StepDirection(k, s.bwd, p.len, us))
  }

  method UpdateDirection(d: Direction, len: nat, us: int) returns (r: Direction)
    ensures r == StepDirection(Welford(), d, len, us)
  {
    r := d.(packetCount := d.packetCount + 1, byteCount := d.byteCount + len);
    var size := Record(r.size, len as real, r.packetCount);
    r := r.(size := size);
    if r.packetCount > 1 && r.lastUs > 0 {
      var iat := Record(r.iat, (us - r.lastUs) as real, r.packetCount - 1);
      r := r.(iat := iat);
    }
    r := r.(lastUs := us);
  }

  method UpdateFlowStats(s: FlowStats, p: Packet) returns (r: FlowStats)
    ensures r == Update(Welford(), s, p)
  {
    var us := Micros(p.time);
    r := s.(packetCount := s.packetCount + 1, byteCount := s.byteCount + p.len);
    var size := Record(r.size, p.len as real, r.packetCount);
    r := r.(size := size);
    if r.packetCount > 1 {
      var iat := Record(r.iat, (us - Micros(r.lastTime)) as real, r.packetCount - 1);
      r := r.(iat := iat);
    }
    if p.fwd {
      var d := UpdateDirection(r.fwd, p.len, us);
      r := r.(fwd := d);
    } else {
      var d := UpdateDirection(r.bwd, p.len, us);
      r := r.(bwd := d);
    }
    r := r.(lastTime := p.time);
  }

  // What the statistics are: batch statistics over the flow's history.

  /** The packets a flow has seen, the latest last. */
  datatype History = Start | Then(past: History, last: Packet)

  function Count(h: History): nat { if h.Start? then 0 else Count(h.past) + 1 }

  function Bytes(h: History): nat { if h.Start? then 0 else Bytes(h.past) + h.last.len }

  function Sizes(h: History): seq<real> { if h.Start? then [] else Sizes(h.past) + [h.last.len as real] }

  function Us(p: Packet): int { Micros(p.time) }

  /** The times between consecutive packets, in microseconds. */
  function Gaps(h: History): seq<real> {
    if h.Start? || h.past.Start? then [] else Gaps(h.past) + [(Us(h.last) - Us(h.past.last)) as real]
  }

  /** The packets of one direction. */
  function Way(h: History, fwd: bool): History {
    if h.Start? then Start else if h.last.fwd == fwd then Then(Way(h.past, fwd), h.last) else Way(h.past, fwd)
  }

  /** What the code keeps of one direction's inter-arrival times: a gap counts only when the
      earlier packet's time is positive. */
  function GuardedIat(k: Statistic, h: History): Summary {
    if h.Start? || h.past.Start? then k.batch([])
    else
      var before := GuardedIat(k, h.past);
      if Us(h.past.last) > 0 then k.push(before, (Us(h.last) - Us(h.past.last)) as real, Count(h.past)) else before
  }

  function DescribedWay(k: Statistic, h: History): Direction {
    Direction(Count(h), Bytes(h), k.batch(Sizes(h)), GuardedIat(k, h), if h.Start? then 0 else Us(h.last))
  }

  /** The statistics of a flow that saw these packets. */
  function Described(k: Statistic, h: History, start: int): FlowStats {
    FlowStats(Count(h), Bytes(h), start, if h.Start? then 0 else h.last.time, k.batch(Sizes(h)), k.batch(Gaps(h)),
              DescribedWay(k, Way(h, true)), DescribedWay(k, Way(h, false)))
  }

  /** The update keeps what the statistic stands for. */
  ghost predicate SoundAt(k: Statistic, xs: seq<real>, x: real)
  {
    k.push(k.batch(xs), x, |xs| + 1) == k.batch(xs + [x])
  }

  ghost predicate Sound(k: Statistic) { forall xs, x :: SoundAt(k, xs, x) }

  lemma {:induction false} WelfordSound()
    ensures Sound(Welford())
  {
    forall xs, x ensures SoundAt(Welford(), xs, x) { PushBatch(xs, x); }
  }

  lemma {:induction false} Counts(h: History)
    ensures |Sizes(h)| == Count(h) && |Gaps(h)| == if h.Start? then 0 else Count(h) - 1
  {
    if !h.Start? { Counts(h.past); }
  }

  lemma {:induction false} DirectionNext(k: Statistic, h: History, p: Packet)
    requires Sound(k)
    ensures StepDirection(k, DescribedWay(k, h), p.len, Us(p)) == DescribedWay(k, Then(h, p))
  {
    Counts(h);
    assert SoundAt(k, Sizes(h), p.len as real);
  }

  /** Every update turns the description of a history into that of the longer history. */
  lemma {:induction false} UpdateDescribes(k: Statistic, h: History, start: int, p: Packet)
    requires Sound(k)
    ensures Update(k, Described(k, h, start), p) == Described(k, Then(h, p), start)
  {
    Counts(h);
    assert SoundAt(k, Sizes(h), p.len as real);
    if !h.Start? { assert SoundAt(k, Gaps(h), (Us(p) - Us(h.last)) as real); }
    DirectionNext(k, Way(h, p.fwd), p);
  }

  /** Welford refined: whatever packets a flow has seen, updating its batch statistics online
      gives the batch statistics of all its packets. */
  lemma {:induction false} OnlineIsBatch(h: History, start: int, p: Packet)
    ensures Update(Welford(), Described(Welford(), h, start), p) == Described(Welford(), Then(h, p), start)
    ensures Fresh(start) == Described(Welford(), Start, start)
  {
    WelfordSound();
    UpdateDescribes(Welford(), h, start, p);
  }

  // Directional inter-arrival times.

  /** Every packet but the last has a positive time. */
  predicate PositiveBefore(h: History) { h.Start? || h.past.Start? || (Us(h.past.last) > 0 && PositiveBefore(h.past)) }

  lemma {:induction false} GuardedBatch(k: Statistic, h: History)
    requires Sound(k) && PositiveBefore(h)
    ensures GuardedIat(k, h) == k.batch(Gaps(h))
  {
    if !h.Start? && !h.past.Start? {
      GuardedBatch(k, h.past);
      Counts(h.past);
      assert SoundAt(k, Gaps(h.past), (Us(h.last) - Us(h.past.last)) as real);
    }
  }

  /** They are the batch statistics of the direction's gaps whenever every packet of the
      direction but the last has a positive time. */
  lemma {:induction false} GuardedExact(h: History)
    requires PositiveBefore(h)
    ensures GuardedIat(Welford(), h) == Batch(Gaps(h))
  {
    WelfordSound();
    GuardedBatch(Welford(), h);
  }

  /** The packets come in the order of their times. */
  predicate Ordered(h: History) { h.Start? || h.past.Start? || (Us(h.past.last) <= Us(h.last) && Ordered(h.past)) }

  /** The gaps with a zero for every one whose earlier packet's time is not positive. */
  function MaskedGaps(h: History): seq<real> {
    if h.Start? || h.past.Start? then []
    else MaskedGaps(h.past) + [if Us(h.past.last) > 0 then (Us(h.last) - Us(h.past.last)) as real else 0.0]
  }

  lemma {:induction false} BatchZeros(xs: seq<real>)
    requires forall i :: 0 <= i < |xs| ==> xs[i] == 0.0
    ensures Batch(xs) == BLANK
  {
    if xs != [] {
      var init := xs[..|xs| - 1];
      BatchZeros(init);
      assert xs == init + [0.0];
      PushBatch(init, 0.0);
    }
  }

  lemma {:induction false} MaskedZeros(h: History)
    requires Ordered(h) && !h.Start? && Us(h.last) <= 0
    ensures forall i :: 0 <= i < |MaskedGaps(h)| ==> MaskedGaps(h)[i] == 0.0
  {
    if !h.past.Start? { MaskedZeros(h.past); }
  }

  lemma {:induction false} MaskedCount(h: History)
    ensures |MaskedGaps(h)| == |Gaps(h)|
  {
    if !h.Start? { MaskedCount(h.past); }
  }

  /** With packets in order, the skipped gaps are averaged in as zeros. */
  lemma {:induction false} GuardedIsMasked(h: History)
    requires Ordered(h)
    ensures GuardedIat(Welford(), h) == Batch(MaskedGaps(h))
  {
    if !h.Start? && !h.past.Start? {
      GuardedIsMasked(h.past);
      Counts(h.past);
      MaskedCount(h.past);
      if Us(h.past.last) > 0 {
        PushBatch(MaskedGaps(h.past), (Us(h.last) - Us(h.past.last)) as real);
      } else {
        MaskedZeros(h.past);
        BatchZeros(MaskedGaps(h.past));
        BatchZeros(MaskedGaps(h));
      }
    }
  }

  lemma {:induction false} SumDominated(xs: seq<real>, ys: seq<real>)
    requires |xs| == |ys| && forall i :: 0 <= i < |xs| ==> xs[i] <= ys[i]
    ensures Sum(xs) <= Sum(ys) && (Sum(xs) == Sum(ys) ==> xs == ys)
  {
    if xs != [] {
      var n := |xs| - 1;
      SumDominated(xs[..n], ys[..n]);
      assert xs == xs[..n] + [xs[n]] && ys == ys[..n] + [ys[n]];
    }
  }

  lemma {:induction false} SameBatch(xs: seq<real>, ys: seq<real>)
    requires |xs| == |ys| && forall i :: 0 <= i < |xs| ==> xs[i] <= ys[i]
    ensures Batch(xs) == Batch(ys) <==> xs == ys
  {
    SumDominated(xs, ys);
    if xs != [] {
      MeanSum(xs);
      MeanSum(ys);
    }
  }

  lemma {:induction false} MaskedBelow(h: History)
    requires Ordered(h)
    ensures |MaskedGaps(h)| == |Gaps(h)| && forall i :: 0 <= i < |Gaps(h)| ==> MaskedGaps(h)[i] <= Gaps(h)[i]
  {
    if !h.Start? { MaskedBelow(h.past); }
  }

  /** No gap that is not zero follows a packet whose time is not positive. */
  predicate NoGapLost(h: History) {
    h.Start? || h.past.Start? || ((Us(h.past.last) > 0 || Us(h.last) == Us(h.past.last)) && NoGapLost(h.past))
  }

  lemma {:induction false} MaskedIff(h: History)
    ensures MaskedGaps(h) == Gaps(h) <==> NoGapLost(h)
  {
    if !h.Start? && !h.past.Start? {
      MaskedIff(h.past);
      MaskedCount(h.past);
      var m, g := MaskedGaps(h), Gaps(h);
      assert m[..|m| - 1] == MaskedGaps(h.past) && g[..|g| - 1] == Gaps(h.past);
      assert m == m[..|m| - 1] + [m[|m| - 1]] && g == g[..|g| - 1] + [g[|g| - 1]];
    }
  }

  /** With a direction's packets in order, its inter-arrival summary is that of its gaps exactly
      when no gap is lost to the `last time > 0` guard. */
  lemma {:induction false} GuardedIff(h: History)
    requires Ordered(h)
    ensures GuardedIat(Welford(), h) == Batch(Gaps(h)) <==> NoGapLost(h)
  {
    GuardedIsMasked(h);
    MaskedBelow(h);
    SameBatch(MaskedGaps(h), Gaps(h));
    MaskedIff(h);
  }

  // Consequences.

  function First(h: History): Packet
    requires !h.Start?
  {
    if h.past.Start? then h.last else First(h.past)
  }

  /** The gaps add up to the time from the first packet to the last. */
  lemma {:induction false} GapsTelescope(h: History)
    requires !h.Start?
    ensures Sum(Gaps(h)) == Span(h)
  {
    if !h.past.Start? {
      GapsTelescope(h.past);
      TotalNext(Identity(), Gaps(h.past), (Us(h.last) - Us(h.past.last)) as real);
    }
  }

  /** The time from the first packet to the last, in microseconds. */
  function Span(h: History): real
    requires !h.Start?
  {
    (Us(h.last) - Us(First(h))) as real
  }

  lemma {:induction false} BatchMean(xs: seq<real>)
    requires xs != []
    ensures Batch(xs).mean == Sum(xs) / |xs| as real
  {
  }

  /** mean_iat is the time from the first packet to the last over the number of gaps. */
  lemma {:induction false} MeanIatTelescopes(h: History)
    requires Count(h) > 1
    ensures |Gaps(h)| == Count(h) - 1 && Batch(Gaps(h)).mean == Span(h) / |Gaps(h)| as real
  {
    Counts(h);
    GapsTelescope(h);
    BatchMean(Gaps(h));
  }

  /** Every packet counts in exactly one direction. */
  lemma {:induction false} WaysPartition(h: History)
    ensures Count(h) == Count(Way(h, true)) + Count(Way(h, false))
    ensures Bytes(h) == Bytes(Way(h, true)) + Bytes(Way(h, false))
  {
    if !h.Start? { WaysPartition(h.past); }
  }

  // Finalization.

  datatype Final = Final(durationMs: int, varPacketSize: real, iatVariance: real,
                         fwdSizeVariance: real, bwdSizeVariance: real, fwdIatVariance: real, bwdIatVariance: real,
                         meanHeaderLen: real)

  /** What stands under each root in finalize_stats: m2 over one less than the number of
      values, where there are at least two; the members keep their zero otherwise. */
  function Variance(s: Summary, n: int): real { if n > 1 then s.m2 / (n - 1) as real else 0.0 }

  /** a - b on uint64. */
  function Sub(a: int, b: int): nat { (a - b) % TWO_64 }

  function HeaderBytes(s: FlowStats): nat {
    Sub(Sub(s.byteCount, Sub(s.fwd.byteCount, s.fwd.packetCount * 20)), Sub(s.bwd.byteCount, s.bwd.packetCount * 20))
  }

  /** A span of nanoseconds in whole milliseconds, the rest left off. */
  predicate WholeMillis(ns: int, ms: int) {
    if ns >= 0 then ms * 1_000_000 <= ns < (ms + 1) * 1_000_000 else (ms - 1) * 1_000_000 < ns <= ms * 1_000_000
  }

  /** What finalize_stats leaves for these accumulators. */
  predicate FinalOf(s: FlowStats, f: Final) {
    && WholeMillis(s.lastTime - s.startTime, f.durationMs)
    && f.varPacketSize == Variance(s.size, s.packetCount) && f.iatVariance == Variance(s.iat, s.packetCount - 1)
    && f.fwdSizeVariance == Variance(s.fwd.size, s.fwd.packetCount)
    && f.bwdSizeVariance == Variance(s.bwd.size, s.bwd.packetCount)
    && f.fwdIatVariance == Variance(s.fwd.iat, s.fwd.packetCount - 1)
    && f.bwdIatVariance == Variance(s.bwd.iat, s.bwd.packetCount - 1)
    && f.meanHeaderLen == if s.packetCount > 0 then HeaderBytes(s) as real / s.packetCount as real else 0.0
  }

  method FinalizeStats(s: FlowStats) returns (f: Final)
    ensures FinalOf(s, f)
  {
    f := Final(0, 0.0, 0.0, 0.0, 0.0, 0.0, 0.0, 0.0);
    if s.packetCount > 1 { f := f.(varPacketSize := s.size.m2 / (s.packetCount - 1) as real); }
    if s.packetCount > 2 { f := f.(iatVariance := s.iat.m2 / (s.packetCount - 2) as real); }
    if s.fwd.packetCount > 1 { f := f.(fwdSizeVariance := s.fwd.size.m2 / (s.fwd.packetCount - 1) as real); }
    if s.bwd.packetCount > 1 { f := f.(bwdSizeVariance := s.bwd.size.m2 / (s.bwd.packetCount - 1) as real); }
    if s.fwd.packetCount > 2 { f := f.(fwdIatVariance := s.fwd.iat.m2 / (s.fwd.packetCount - 2) as real); }
    if s.bwd.packetCount > 2 { f := f.(bwdIatVariance := s.bwd.iat.m2 / (s.bwd.packetCount - 2) as real); }
    MillisWithin(s.lastTime - s.startTime);
    f := f.(durationMs := Millis(s.lastTime - s.startTime));
    var header := Sub(s.byteCount, Sub(s.fwd.byteCount, s.fwd.packetCount * 20));
    header := Sub(header, Sub(s.bwd.byteCount, s.bwd.packetCount * 20));
    f := f.(meanHeaderLen := if s.packetCount > 0 then header as real / s.packetCount as real else 0.0);
  }

  /** The sample variance of a list of values. */
  function SampleVariance(xs: seq<real>): real {
    if |xs| > 1 then Spread(xs, Mean(xs)) / (|xs| - 1) as real else 0.0
  }

  /** Every packet before the last has a positive time, or the packets are in order and no gap
      is lost to the guard. */
  predicate GapsKept(h: History) { PositiveBefore(h) || (Ordered(h) && NoGapLost(h)) }

  lemma {:induction false} WayVariance(h: History)
    requires GapsKept(h)
    ensures Variance(GuardedIat(Welford(), h), Count(h) - 1) == SampleVariance(Gaps(h))
  {
    Counts(h);
    if PositiveBefore(h) { GuardedExact(h); } else { GuardedIff(h); }
  }

  /** With packets in order, the variance of a direction's gaps always is that of the gaps with
      the lost ones as zeros. */
  lemma {:induction false} MaskedVariance(h: History)
    requires Ordered(h)
    ensures Variance(GuardedIat(Welford(), h), Count(h) - 1) == SampleVariance(MaskedGaps(h))
  {
    Counts(h);
    MaskedCount(h);
    GuardedIsMasked(h);
  }

  /** The finalized variances are the sample variances of the packet sizes, overall and per
      direction, of the gaps, and of a direction's gaps where the guard keeps them. */
  lemma {:induction false} VariancesExact(h: History, start: int, f: Final)
    requires FinalOf(Described(Welford(), h, start), f)
    ensures f.varPacketSize == SampleVariance(Sizes(h)) && f.iatVariance == SampleVariance(Gaps(h))
    ensures f.fwdSizeVariance == SampleVariance(Sizes(Way(h, true)))
        && f.bwdSizeVariance == SampleVariance(Sizes(Way(h, false)))
    ensures GapsKept(Way(h, true)) ==> f.fwdIatVariance == SampleVariance(Gaps(Way(h, true)))
    ensures GapsKept(Way(h, false)) ==> f.bwdIatVariance == SampleVariance(Gaps(Way(h, false)))
  {
    Counts(h);
    Counts(Way(h, true));
    Counts(Way(h, false));
    if GapsKept(Way(h, true)) { WayVariance(Way(h, true)); }
    if GapsKept(Way(h, false)) { WayVariance(Way(h, false)); }
  }

  lemma {:induction false} WrapTwice(x: int, y: int, z: int)
    ensures Sub(Sub(x, y % TWO_64), z % TWO_64) == (x - y - z) % TWO_64
  {
  }

  lemma {:induction false} HeaderBytesTwenty(s: FlowStats, n: nat)
    requires s.byteCount == s.fwd.byteCount + s.bwd.byteCount && n == s.fwd.packetCount + s.bwd.packetCount
    ensures HeaderBytes(s) == (20 * n) % TWO_64
  {
    WrapTwice(s.byteCount, s.fwd.byteCount - s.fwd.packetCount * 20, s.bwd.byteCount - s.bwd.packetCount * 20);
  }

  lemma {:induction false} TwentyEach(x: nat, n: nat)
    requires n > 0
    ensures x as real / n as real == 20.0 <==> x == 20 * n
  {
    if x == 20 * n { DivideBack(20.0, x as real, n as real); }
  }

  lemma {:induction false} HeaderMean(s: FlowStats, n: nat)
    requires s.byteCount == s.fwd.byteCount + s.bwd.byteCount
        && s.packetCount == n == s.fwd.packetCount + s.bwd.packetCount && n > 0
    ensures HeaderBytes(s) as real / s.packetCount as real == 20.0 <==> 20 * n < TWO_64
  {
    HeaderBytesTwenty(s, n);
    TwentyEach(HeaderBytes(s), n);
  }

  /** The finalized mean header length is the constant 20 exactly while 20 bytes a packet fit in
      64 bits. */
  lemma {:induction false} HeaderLenTwenty(s: FlowStats, h: History, start: int)
    requires s == Described(Welford(), h, start) && !h.Start?
    ensures HeaderBytes(s) as real / s.packetCount as real == 20.0 <==> 20 * Count(h) < TWO_64
  {
    WaysPartition(h);
    HeaderMean(s, Count(h));
  }
}
