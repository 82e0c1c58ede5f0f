/** The flow table: both directions of a conversation in one flow, eviction and expiry. */
module FlowTracking {
  import Bits
  import opened Clock
  import opened FlowStatistics
  import opened MapSums
  import opened Wrappers

  datatype FlowKey = FlowKey(srcIp: nat, dstIp: nat, srcPort: nat, dstPort: nat, protocol: nat)

  datatype Normal = Normal(key: FlowKey, forward: bool)

  function Reversed(k: FlowKey): FlowKey { FlowKey(k.dstIp, k.srcIp, k.dstPort, k.srcPort, k.protocol) }

  /** Lower address first, then lower port. */
  function Normalize(k: FlowKey): Normal {
    if k.srcIp < k.dstIp || (k.srcIp == k.dstIp && k.srcPort <= k.dstPort) then Normal(k, true)
    else Normal(Reversed(k), false)
  }

  /** Both directions of a conversation share one key, which normalizes to itself, and they
      are told apart unless the two ends are the same. */
  lemma {:induction false} NormalizeBothWays(k: FlowKey)
    ensures Normalize(Reversed(k)).key == Normalize(k).key
    ensures Normalize(Normalize(k).key) == Normal(Normalize(k).key, true)
    ensures Normalize(Reversed(k)).forward == Normalize(k).forward <==> Reversed(k) == k
    ensures forall j :: Normalize(j).key == Normalize(k).key <==> j == k || j == Reversed(k)
    ensures var n := Normalize(k).key;
      && n.protocol == k.protocol && (n.srcIp < n.dstIp || (n.srcIp == n.dstIp && n.srcPort <= n.dstPort))
      && if Normalize(k).forward
         then n.srcIp == k.srcIp && n.srcPort == k.srcPort && n.dstIp == k.dstIp && n.dstPort == k.dstPort
         else n.srcIp == k.dstIp && n.srcPort == k.dstPort && n.dstIp == k.srcIp && n.dstPort == k.srcPort
  {
  }

  function PacketsOf(s: FlowStats): int { s.packetCount }

  function BytesOf(s: FlowStats): int { s.byteCount }

  function TotalOf(f: FlowStats -> int, flows: seq<FlowStats>): int {
    if flows == [] then 0 else TotalOf(f, flows[..|flows| - 1]) + f(flows[|flows| - 1])
  }

  lemma {:induction false} TotalOfNext(f: FlowStats -> int, flows: seq<FlowStats>, s: FlowStats)
    ensures TotalOf(f, flows + [s]) == TotalOf(f, flows) + f(s)
  {
    assert (flows + [s])[..|flows|] == flows;
  }

  /** A flow's statistics are those of the packets it has seen, from its first one on. */
  ghost predicate Tells(s: FlowStats, h: History) { !h.Start? && s == Described(Welford(), h, First(h).time) }

  lemma {:induction false} TellsBalanced(s: FlowStats, h: History)
    requires Tells(s, h)
    ensures s.packetCount == s.fwd.packetCount + s.bwd.packetCount && s.byteCount == s.fwd.byteCount + s.bwd.byteCount
  {
    WaysPartition(h);
  }

  lemma {:induction false} TellsNext(s: FlowStats, h: History, p: Packet)
    requires if h.Start? then s == Fresh(p.time) else Tells(s, h)
    ensures Tells(Update(Welford(), s, p), Then(h, p))
  {
    OnlineIsBatch(h, if h.Start? then p.time else First(h).time, p);
  }

  /** The flows now in the table, and all that have left it. */
  ghost predicate Conserved(f: FlowStats -> int, processed: int, flows: map<FlowKey, FlowStats>,
                            expired: seq<FlowStats>, evicted: seq<FlowStats>)
  {
    processed == Sum(flows, f) + TotalOf(f, expired) + TotalOf(f, evicted)
  }

  lemma {:induction false} ConservedEvict(f: FlowStats -> int, processed: int, flows: map<FlowKey, FlowStats>,
                                          expired: seq<FlowStats>, evicted: seq<FlowStats>, k: FlowKey)
    requires Conserved(f, processed, flows, expired, evicted) && k in flows
    ensures Conserved(f, processed, flows - {k}, expired, evicted + [flows[k]])
    ensures Conserved(f, processed, flows - {k}, expired + [flows[k]], evicted)
  {
    SumRemove(flows, f, k);
    TotalOfNext(f, evicted, flows[k]);
    TotalOfNext(f, expired, flows[k]);
  }

  lemma {:induction false} ConservedPut(f: FlowStats -> int, processed: int, flows: map<FlowKey, FlowStats>,
                                        expired: seq<FlowStats>, evicted: seq<FlowStats>, k: FlowKey, s: FlowStats)
    requires Conserved(f, processed, flows, expired, evicted)
    ensures Conserved(f, processed + f(s) - (if k in flows then f(flows[k]) else 0), flows[k := s], expired, evicted)
  {
    SumPut(flows, f, k, s);
  }

  /** The tracker's maps and counters, and the flows that have left, as one value. */
  datatype Table = Table(flows: map<FlowKey, FlowStats>, histories: map<FlowKey, History>,
                         created: int, packets: int, bytes: int, expired: seq<FlowStats>, evicted: seq<FlowStats>)

  /** What is asked of every flow in the table. */
  type Check = (FlowKey, FlowStats, History) -> bool

  ghost predicate EachFlow(t: Table, ok: Check) {
    t.flows.Keys == t.histories.Keys && forall k :: k in t.flows ==> ok(k, t.flows[k], t.histories[k])
  }

  /** Resident flows never exceed the bound; every flow created, and every packet and byte
      processed, is in a resident, an expired or an evicted flow. */
  ghost predicate Balanced(t: Table, maxFlows: nat) {
    && |t.flows| <= maxFlows
    && t.created == |t.flows| + |t.expired| + |t.evicted|
    && Conserved(PacketsOf, t.packets, t.flows, t.expired, t.evicted)
    && Conserved(BytesOf, t.bytes, t.flows, t.expired, t.evicted)
  }

  function HistoryOf(t: Table, k: FlowKey): History { if k in t.histories then t.histories[k] else Start }

  function StatsOf(t: Table, k: FlowKey, start: int): FlowStats { if k in t.flows then t.flows[k] else Fresh(start) }

  function Evicted(t: Table, k: FlowKey): Table
    requires k in t.flows
  {
    t.(flows := t.flows - {k}, histories := t.histories - {k}, evicted := t.evicted + [t.flows[k]])
  }

  function Expired(t: Table, k: FlowKey): Table
    requires k in t.flows
  {
    t.(flows := t.flows - {k}, histories := t.histories - {k}, expired := t.expired + [t.flows[k]])
  }

  /** A packet counted into the flow under this normalized key, whose statistics become s. */
  function Counted(t: Table, k: FlowKey, p: Packet, s: FlowStats): Table {
    Table(t.flows[k := s], t.histories[k := Then(HistoryOf(t, k), p)],
          t.created + (if k in t.flows then 0 else 1), t.packets + 1, t.bytes + p.len, t.expired, t.evicted)
  }

  lemma {:induction false} EachLeaves(t: Table, ok: Check, k: FlowKey)
    requires EachFlow(t, ok) && k in t.flows
    ensures EachFlow(Evicted(t, k), ok) && EachFlow(Expired(t, k), ok)
  {
  }

  lemma {:induction false} BalancedLeaves(t: Table, maxFlows: nat, k: FlowKey)
    requires Balanced(t, maxFlows) && k in t.flows
    ensures Balanced(Evicted(t, k), maxFlows) && Balanced(Expired(t, k), maxFlows)
    ensures |Evicted(t, k).flows| == |t.flows| - 1
  {
    ConservedEvict(PacketsOf, t.packets, t.flows, t.expired, t.evicted, k);
    ConservedEvict(BytesOf, t.bytes, t.flows, t.expired, t.evicted, k);
    assert (t.flows - {k}).Keys == t.flows.Keys - {k};
  }

  lemma {:induction false} BalancedCounted(t: Table, maxFlows: nat, k: FlowKey, p: Packet, s: FlowStats)
    requires Balanced(t, maxFlows) && (k in t.flows || |t.flows| < maxFlows)
    requires s.packetCount == StatsOf(t, k, p.time).packetCount + 1
        && s.byteCount == StatsOf(t, k, p.time).byteCount + p.len
    ensures Balanced(Counted(t, k, p, s), maxFlows)
  {
    ConservedPut(PacketsOf, t.packets, t.flows, t.expired, t.evicted, k, s);
    ConservedPut(BytesOf, t.bytes, t.flows, t.expired, t.evicted, k, s);
    assert t.flows[k := s].Keys == t.flows.Keys + {k};
  }

  /** Every resident flow stands under a normalized key and tells its packets' statistics. */
  ghost function Telling(): Check
  {
    (k: FlowKey, s: FlowStats, h: History) => Tells(s, h) && Normalize(k) == Normal(k, true)
  }

  ghost predicate Sane(t: Table, maxFlows: nat) { EachFlow(t, Telling()) && Balanced(t, maxFlows) }

  ghost function Keeping(maxFlows: nat): Table -> bool { (t: Table) => Sane(t, maxFlows) }

  ghost predicate ClosedAt(keep: Table -> bool, t: Table, k: FlowKey)
  {
    keep(t) && k in t.flows ==> keep(Expired(t, k))
  }

  /** Losing a flow to expiry preserves it. */
  ghost predicate Closed(keep: Table -> bool) { forall t, k :: ClosedAt(keep, t, k) }

  lemma {:induction false} SaneClosed(maxFlows: nat)
    ensures Closed(Keeping(maxFlows))
  {
    forall t, k ensures ClosedAt(Keeping(maxFlows), t, k) {
      if Keeping(maxFlows)(t) && k in t.flows {
        EachLeaves(t, Telling(), k);
        BalancedLeaves(t, maxFlows, k);
      }
    }
  }

  lemma {:induction false} EachCounted(t: Table, ok: Check, k: FlowKey, p: Packet, s: FlowStats)
    requires EachFlow(t, ok) && ok(k, s, Then(HistoryOf(t, k), p))
    ensures EachFlow(Counted(t, k, p, s), ok)
  {
  }

  lemma {:induction false} SaneCounted(t: Table, maxFlows: nat, k: FlowKey, p: Packet)
    requires Sane(t, maxFlows) && Normalize(k) == Normal(k, true) && (k in t.flows || |t.flows| < maxFlows)
    ensures Sane(Counted(t, k, p, Update(Welford(), StatsOf(t, k, p.time), p)), maxFlows)
  {
    var s := StatsOf(t, k, p.time);
    assert k in t.flows ==> Telling()(k, t.flows[k], t.histories[k]);
    TellsNext(s, HistoryOf(t, k), p);
    EachCounted(t, Telling(), k, p, Update(Welford(), s, p));
    BalancedCounted(t, maxFlows, k, p, Update(Welford(), s, p));
  }

  /** Age or idle time over its timeout. */
  predicate Due(s: FlowStats, now: int, active: int, idle: int) {
    now - s.startTime > active * NS_PER_S || now - s.lastTime > idle * NS_PER_S
  }

  datatype ExpiredFlow = ExpiredFlow(stats: FlowStats, final: Final)

  predicate DueKey(flows: map<FlowKey, FlowStats>, k: FlowKey, now: int, active: int, idle: int) {
    k in flows && Due(flows[k], now, active, idle)
  }

  predicate Distinct(keys: seq<FlowKey>) { forall i, j :: 0 <= i < j < |keys| ==> keys[i] != keys[j] }

  /** `order` names every flow that is due, once. */
  ghost predicate Enumerates(flows: map<FlowKey, FlowStats>, order: seq<FlowKey>, now: int, active: int, idle: int) {
    && Distinct(order)
    && (forall i :: 0 <= i < |order| ==> DueKey(flows, order[i], now, active, idle))
    && forall k :: DueKey(flows, k, now, active, idle) ==> k in order
  }

  /** The flows left by a loop with these keys before it. */
  ghost predicate Leaves(was: map<FlowKey, FlowStats>, now: map<FlowKey, FlowStats>, todo: set<FlowKey>, time: int,
      active: int, idle: int)
  {
    now == map k | k in was && (k in todo || !Due(was[k], time, active, idle)) :: was[k]
  }

  /** `order` names once every flow that is due and not still to come. */
  ghost predicate Walked(was: map<FlowKey, FlowStats>, order: seq<FlowKey>, todo: set<FlowKey>, time: int,
      active: int, idle: int)
  {
    && Distinct(order)
    && (forall i :: 0 <= i < |order| ==> DueKey(was, order[i], time, active, idle) && order[i] !in todo)
    && forall k :: DueKey(was, k, time, active, idle) ==> k in order || k in todo
  }

  lemma {:induction false} LeaveDue(was: map<FlowKey, FlowStats>, now: map<FlowKey, FlowStats>, todo: set<FlowKey>,
      k: FlowKey, time: int, active: int, idle: int)
    requires Leaves(was, now, todo, time, active, idle) && k in todo && k in was
    ensures Leaves(was, if Due(was[k], time, active, idle) then now - {k} else now, todo - {k}, time, active, idle)
  {
  }

  lemma {:induction false} WalkDue(was: map<FlowKey, FlowStats>, order: seq<FlowKey>, todo: set<FlowKey>, k: FlowKey,
      time: int, active: int, idle: int)
    requires Walked(was, order, todo, time, active, idle) && k in todo && k in was
    ensures Walked(was, if Due(was[k], time, active, idle) then order + [k] else order, todo - {k}, time, active, idle)
  {
    if Due(was[k], time, active, idle) {
      assert forall j :: j in order + [k] <==> j in order || j == k;
    }
  }

  /** The flows expired in one call, in that order, with what finalize_stats made of them. */
  ghost predicate Reports(flows: map<FlowKey, FlowStats>, order: seq<FlowKey>, result: seq<ExpiredFlow>) {
    && |result| == |order|
    && forall i :: 0 <= i < |order| ==> order[i] in flows && result[i].stats == flows[order[i]] && Finalized(result[i])
  }

  predicate Finalized(r: ExpiredFlow) { FinalOf(r.stats, r.final) }

  /** The table once there is room for the flow: as it was, or, when a new flow meets a full
      table, without some victim. */
  ghost predicate Room(was: Table, before: Table, maxFlows: nat, k: FlowKey) {
    if k in was.flows || |was.flows| < maxFlows then before == was
    else exists victim :: victim in was.flows && before == Evicted(was, victim)
  }

  ghost predicate Processed(was: Table, now: Table, maxFlows: nat, k: FlowKey, p: Packet) {
    exists before: Table ::
      Room(was, before, maxFlows, k) && now == Counted(before, k, p, Update(Welford(), StatsOf(before, k, p.time), p))
  }

  /** What process_packet makes of a packet: the key it was counted under, if any. */
  datatype Outcome = Counts(key: Option<FlowKey>) | Undefined

  class FlowTracker {
    const maxFlows: nat
    const activeTimeout: int
    const idleTimeout: int
    var flows: map<FlowKey, FlowStats>
    var flowsCreated: nat
    var flowsExpired: nat
    var packetsProcessed: nat
    var bytesProcessed: nat
    ghost var histories: map<FlowKey, History>
    ghost var expired: seq<FlowStats>
    ghost var evicted: seq<FlowStats>

    ghost function State(): Table
      reads this
    {
      Table(flows, histories, flowsCreated, packetsProcessed, bytesProcessed, expired, evicted)
    }

    ghost predicate Valid()
      reads this
    {
      Sane(State(), maxFlows) && flowsExpired == |expired|
    }

    constructor (maxFlows: nat, activeTimeout: int, idleTimeout: int)
      ensures Valid() && State() == Table(map[], map[], 0, 0, 0, [], [])
      ensures this.maxFlows == maxFlows && this.activeTimeout == activeTimeout && this.idleTimeout == idleTimeout
    {
      this.maxFlows, this.activeTimeout, this.idleTimeout := maxFlows, activeTimeout, idleTimeout;
      flows, histories, expired, evicted := map[], map[], [], [];
      flowsCreated, flowsExpired, packetsProcessed, bytesProcessed := 0, 0, 0, 0;
    }

    /** Evicts whichever flow the map lists first when a new flow meets a full table. A table
        for no flows is full and empty: the code then erases at the end of the map, which is
        undefined, and so there is no room. */
    method MakeRoom(k: FlowKey, ghost ok: Check) returns (room: bool)
      requires EachFlow(State(), ok) && Balanced(State(), maxFlows)
      modifies this`flows, this`histories, this`evicted
      ensures EachFlow(State(), ok) && Balanced(State(), maxFlows)
      ensures room == (maxFlows > 0)
      ensures if room then Room(old(State()), State(), maxFlows, k) && (k in flows || |flows| < maxFlows)
              else State() == old(State())
    {
      room := true;
      if k !in flows && |flows| >= maxFlows {
        if flows == map[] { return false; }
        ghost var was := State();
        var victim :| victim in flows;
        EachLeaves(was, ok, victim);
        BalancedLeaves(was, maxFlows, victim);
        evicted := evicted + [flows[victim]];
        flows, histories := flows - {victim}, histories - {victim};
        assert State() == Evicted(was, victim);
      }
    }

    method CountPacket(k: FlowKey, p: Packet)
      modifies this
      ensures State() == Counted(old(State()), k, p, Update(Welford(), StatsOf(old(State()), k, p.time), p))
      ensures flowsExpired == old(flowsExpired)
    {
      histories := histories[k := Then(HistoryOf(State(), k), p)];
      if k !in flows {
        var s := UpdateFlowStats(Fresh(p.time), p);
        flows := flows[k := s];
        flowsCreated := flowsCreated + 1;
      } else {
        var s := UpdateFlowStats(flows[k], p);
        flows := flows[k := s];
      }
      packetsProcessed, bytesProcessed := packetsProcessed + 1, bytesProcessed + p.len;
    }

    /** process_packet on a parsed packet: Counts(None) when no 5-tuple could be read, Undefined
        exactly for a packet of some flow in a tracker for no flows. */
    method ProcessPacket(parsed: Option<FlowKey>, len: nat, time: int) returns (key: Outcome)
      requires Valid()
      modifies this
      ensures Valid()
      ensures parsed.None? ==> key == Counts(None)
      ensures parsed.Some? ==> key == if maxFlows > 0 then Counts(Some(Normalize(parsed.value).key)) else Undefined
      ensures if key.Undefined? || key.key.None? then State() == old(State())
              else var n := Normalize(parsed.value);
                Processed(old(State()), State(), maxFlows, n.key, Packet(len, time, n.forward))
    {
      if parsed.None? { return Counts(None); }
      var n := Normalize(parsed.value);
      NormalizeBothWays(parsed.value);
      var room := MakeRoom(n.key, Telling());
      if !room { return Undefined; }
      SaneCounted(State(), maxFlows, n.key, Packet(len, time, n.forward));
      CountPacket(n.key, Packet(len, time, n.forward));
      return Counts(Some(n.key));
    }

    method ExpireFlow(k: FlowKey, ghost keep: Table -> bool) returns (r: ExpiredFlow)
      requires k in flows && keep(State()) && Closed(keep) && flowsExpired == |expired|
      modifies this`flows, this`histories, this`expired, this`flowsExpired
      ensures keep(State()) && flowsExpired == |expired|
      ensures flows == old(flows) - {k} && expired == old(expired) + [old(flows)[k]]
      ensures r.stats == old(flows)[k] && Finalized(r)
    {
      var final := FinalizeStats(flows[k]);
      r := ExpiredFlow(flows[k], final);
      assert ClosedAt(keep, State(), k);
      ghost var next := Expired(State(), k);
      expired := expired + [flows[k]];
      flows, histories := flows - {k}, histories - {k};
      flowsExpired := flowsExpired + 1;
      assert State() == next;
    }

    /** The loop of expire_flows; `order` is the order the map was walked in, `keep` whatever
        losing one flow to expiry preserves. */
    method ExpireDue(now: int, ghost keep: Table -> bool) returns (result: seq<ExpiredFlow>, ghost order: seq<FlowKey>)
      requires keep(State()) && flowsExpired == |expired|
      requires Closed(keep)
      modifies this`flows, this`histories, this`expired, this`flowsExpired
      ensures keep(State()) && flowsExpired == |expired|
      ensures flows == map k | k in old(flows) && !Due(old(flows)[k], now, activeTimeout, idleTimeout) :: old(flows)[k]
      ensures Enumerates(old(flows), order, now, activeTimeout, idleTimeout) && Reports(old(flows), order, result)
    {
      ghost var was := flows;
      var todo := flows.Keys;
      result, order := [], [];
      while todo != {}
        invariant keep(State()) && flowsExpired == |expired| && todo <= was.Keys
        invariant Leaves(was, flows, todo, now, activeTimeout, idleTimeout)
        invariant Walked(was, order, todo, now, activeTimeout, idleTimeout)
        invariant Reports(was, order, result)
        decreases |todo|
      {
        var k :| k in todo;
        LeaveDue(was, flows, todo, k, now, activeTimeout, idleTimeout);
        WalkDue(was, order, todo, k, now, activeTimeout, idleTimeout);
        todo := todo - {k};
        if Due(flows[k], now, activeTimeout, idleTimeout) {
          var r := ExpireFlow(k, keep);
          result, order := result + [r], order + [k];
        }
      }
    }

    method ExpireFlows(now: int) returns (result: seq<ExpiredFlow>, ghost order: seq<FlowKey>)
      requires Valid()
      modifies this`flows, this`histories, this`expired, this`flowsExpired
      ensures Valid()
      ensures flows == map k | k in old(flows) && !Due(old(flows)[k], now, activeTimeout, idleTimeout) :: old(flows)[k]
      ensures Enumerates(old(flows), order, now, activeTimeout, idleTimeout) && Reports(old(flows), order, result)
      ensures forall k :: k in flows <==>
          && k in old(flows)
          && now - old(flows)[k].startTime <= activeTimeout * 1_000_000_000
          && now - old(flows)[k].lastTime <= idleTimeout * 1_000_000_000
      ensures forall i :: 0 <= i < |result| ==> var s := result[i].stats;
          now - s.startTime > activeTimeout * 1_000_000_000 || now - s.lastTime > idleTimeout * 1_000_000_000
    {
      ghost var keep := Keeping(maxFlows);
      SaneClosed(maxFlows);
      result, order := ExpireDue(now, keep);
    }

    method ActiveFlowCount() returns (n: nat)
      requires Valid()
      ensures n == |flows| == flowsCreated - flowsExpired - |evicted| && n <= maxFlows
    {
      n := |flows|;
    }
  }

  /** In every valid state: each resident flow counts its packets and bytes in exactly one
      direction each, and its finalized mean header length would be 20 while 20 bytes a packet
      fit in 64 bits. */
  lemma {:induction false} ResidentFlows(t: Table, k: FlowKey)
    requires EachFlow(t, Telling()) && k in t.flows
    ensures var s := t.flows[k];
      && s.packetCount == s.fwd.packetCount + s.bwd.packetCount && s.byteCount == s.fwd.byteCount + s.bwd.byteCount
      && s.startTime == First(t.histories[k]).time && s.lastTime == t.histories[k].last.time
      && s.packetCount > 0
      && (HeaderBytes(s) as real / s.packetCount as real == 20.0 <==> 20 * s.packetCount < Bits.TWO_64)
  {
    assert Telling()(k, t.flows[k], t.histories[k]);
    TellsBalanced(t.flows[k], t.histories[k]);
    HeaderLenTwenty(t.flows[k], t.histories[k], First(t.histories[k]).time);
  }
}
