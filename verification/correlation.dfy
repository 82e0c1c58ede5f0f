/** CorrelationEngine over a fixed rule set.

    process_event takes state_mutex_ once per matching rule, and cleanup_expired once, so the
    atomic actions of concurrent processor threads and of the checkpoint thread are: one rule
    applied to one event, and one cleanup.  The run theorems hold for every order of these. */
module Correlation {
  import Bits
  import opened CorrelationKey

  /** system_clock counts nanoseconds. */
  const TICKS_PER_MS: int := 1_000_000
  const MAX_EVENTS: nat := 100

  type u32 = x: nat | x < 0x1_0000_0000

  datatype Event = Event(id: nat, timestamp: int, fields: map<string, string>)

  /** `conditions` stands for matches_conditions, any predicate on events. */
  datatype Rule = Rule(
    id: string, timeWindowMs: int, threshold: u32, aggregationField: string, conditions: Event -> bool)

  datatype KeyState = KeyState(firstSeen: int, lastSeen: int, timestamps: seq<int>, events: seq<Event>)

  datatype Alert = Alert(
    serial: nat, ruleId: string, key: string, timestamp: int, matchCount: nat, triggering: seq<Event>)

  type RuleState = map<string, KeyState>

  /** state_ and alerts_generated. */
  datatype Engine = Engine(state: map<string, RuleState>, generated: nat)

  datatype Action = Match(rule: nat, event: Event) | Cleanup(now: int)

  function WindowTicks(rule: Rule): int { rule.timeWindowMs * TICKS_PER_MS }

  function FieldOf(e: Event, field: string): string {
    if field in e.fields then e.fields[field] else ""
  }

  /** The key an event counts under: the value of the rule's field, if there is one that is not
      empty. */
  predicate Under(rule: Rule, e: Event, key: string) {
    var field := rule.aggregationField;
    if field != "" && field in e.fields && e.fields[field] != "" then key == e.fields[field] else key == "_global_"
  }

  function AggregationKey(rule: Rule, e: Event): (r: string)
    ensures Under(rule, e, r)
  {
    var key := if rule.aggregationField == "" then "" else FieldOf(e, rule.aggregationField);
    if key == "" then "_global_" else key
  }

  const Blank: KeyState := KeyState(0, 0, [], [])

  /** operator[] on the outer and the inner map of state_. */
  function RuleStateOf(engine: Engine, id: string): RuleState {
    if id in engine.state then engine.state[id] else map[]
  }

  function KeyStateOf(engine: Engine, id: string, key: string): KeyState {
    var m := RuleStateOf(engine, id);
    if key in m then m[key] else Blank
  }

  /** The body of the loop in process_event for a matching rule. */
  function Updated(rule: Rule, was: KeyState, e: Event): KeyState {
    var first := if was.timestamps == [] then e.timestamp else was.firstSeen;
    var ts := Window(was.timestamps, e.timestamp, WindowTicks(rule));
    if |ts| >= rule.threshold then KeyState(first, e.timestamp, [], [])
    else KeyState(first, e.timestamp, ts, Stored(was, e))
  }

  function Stored(was: KeyState, e: Event): seq<Event> {
    if |was.events| < MAX_EVENTS then was.events + [e] else was.events
  }

  function Raised(rule: Rule, was: KeyState, e: Event, serial: nat): seq<Alert> {
    var ts := Window(was.timestamps, e.timestamp, WindowTicks(rule));
    if |ts| >= rule.threshold
    then [Alert(serial, rule.id, AggregationKey(rule, e), e.timestamp, |ts| % Bits.TWO_32, Stored(was, e))]
    else []
  }

  function ApplyRule(engine: Engine, rule: Rule, e: Event): Engine {
    if !rule.conditions(e) then engine
    else
      var key := AggregationKey(rule, e);
      var was := KeyStateOf(engine, rule.id, key);
      Engine(engine.state[rule.id := RuleStateOf(engine, rule.id)[key := Updated(rule, was, e)]],
             engine.generated + |Raised(rule, was, e, 0)|)
  }

  function AlertsOf(engine: Engine, rule: Rule, e: Event): seq<Alert> {
    if !rule.conditions(e) then []
    else Raised(rule, KeyStateOf(engine, rule.id, AggregationKey(rule, e)), e, engine.generated + 1)
  }

  /** The window of the rule in state_, or 60 s when it is no longer in rules_. */
  function TimeoutMs(rules: seq<Rule>, id: string): int {
    if rules == [] then 60000
    else if rules[0].id == id then rules[0].timeWindowMs
    else TimeoutMs(rules[1..], id)
  }

  function Cutoff(rules: seq<Rule>, id: string, now: int): int { now - TimeoutMs(rules, id) * TICKS_PER_MS }

  predicate Expired(k: KeyState, cutoff: int) { k.lastSeen < cutoff }

  function SweepKeys(m: RuleState, cutoff: int): RuleState {
    map key | key in m && !Expired(m[key], cutoff) :: m[key]
  }

  function Sweep(rules: seq<Rule>, engine: Engine, now: int): Engine {
    engine.(state := map id | id in engine.state :: SweepKeys(engine.state[id], Cutoff(rules, id, now)))
  }

  predicate DistinctIds(rules: seq<Rule>) {
    forall i, j :: 0 <= i < j < |rules| ==> rules[i].id != rules[j].id
  }

  /** One atomic action: the engine after it, and the alerts it returns. */
  function Act(rules: seq<Rule>, engine: Engine, action: Action): (Engine, seq<Alert>)
    requires action.Match? ==> action.rule < |rules|
  {
    match action
    case Match(i, e) => (ApplyRule(engine, rules[i], e), AlertsOf(engine, rules[i], e))
    case Cleanup(now) => (Sweep(rules, engine, now), [])
  }

  predicate WellFormed(rules: seq<Rule>, actions: seq<Action>) {
    forall i :: 0 <= i < |actions| && actions[i].Match? ==> actions[i].rule < |rules|
  }

  function Run(rules: seq<Rule>, engine: Engine, actions: seq<Action>): (Engine, seq<Alert>)
    requires WellFormed(rules, actions)
  {
    if actions == [] then (engine, [])
    else
      var n := |actions| - 1;
      var before := Run(rules, engine, actions[..n]);
      var last := Act(rules, before.0, actions[n]);
      (last.0, before.1 + last.1)
  }

  /** What one thread's process_event does: each rule once, in iteration order. */
  function EventActions(n: nat, e: Event): (actions: seq<Action>)
    ensures |actions| == n
    ensures forall i :: 0 <= i < n ==> actions[i] == Match(i, e)
  {
    if n == 0 then [] else EventActions(n - 1, e) + [Match(n - 1, e)]
  }

  // The engine object.

  method PruneFront(ts: seq<int>, start: int) returns (r: seq<int>)
    ensures r == Prune(ts, start)
  {
    r := ts;
    while r != [] && r[0] < start
      invariant Prune(r, start) == Prune(ts, start)
      decreases |r|
    {
      r := r[1..];
    }
  }

  class CorrelationEngine {
    const rules: seq<Rule>
    var state: map<string, RuleState>
    var eventsProcessed: nat
    var rulesEvaluated: nat
    var alertsGenerated: nat
    var rulesMatched: nat

    ghost function View(): Engine
      reads this
    {
      Engine(state, alertsGenerated)
    }

    constructor (rules: seq<Rule>)
      ensures this.rules == rules && View() == Engine(map[], 0)
      ensures eventsProcessed == rulesEvaluated == rulesMatched == 0
    {
      this.rules := rules;
      state := map[];
      eventsProcessed, rulesEvaluated, alertsGenerated, rulesMatched := 0, 0, 0, 0;
    }

    /** The part of the loop body that runs under state_mutex_. */
    method MatchRule(rule: Rule, e: Event) returns (alerts: seq<Alert>)
      requires rule.conditions(e)
      modifies this`state, this`alertsGenerated, this`rulesMatched
      ensures View() == ApplyRule(old(View()), rule, e) && alerts == AlertsOf(old(View()), rule, e)
      ensures alertsGenerated == old(alertsGenerated) + |alerts| && rulesMatched == old(rulesMatched) + |alerts|
      ensures forall a :: a in alerts ==>
          a.ruleId == rule.id && Under(rule, e, a.key) && a.timestamp == e.timestamp && a.serial == alertsGenerated
    {
      alerts := [];
      var key := AggregationKey(rule, e);
      var ruleState := if rule.id in state then state[rule.id] else map[];
      var k := if key in ruleState then ruleState[key] else Blank;
      if k.timestamps == [] { k := k.(firstSeen := e.timestamp); }
      k := k.(lastSeen := e.timestamp, timestamps := k.timestamps + [e.timestamp]);
      var ts := PruneFront(k.timestamps, e.timestamp - rule.timeWindowMs * TICKS_PER_MS);
      k := k.(timestamps := ts);
      if |k.events| < MAX_EVENTS { k := k.(events := k.events + [e]); }
      if |k.timestamps| >= rule.threshold {
        alerts := [Alert(alertsGenerated + 1, rule.id, key, e.timestamp, |k.timestamps| % Bits.TWO_32, k.events)];
        alertsGenerated, rulesMatched := alertsGenerated + 1, rulesMatched + 1;
        k := k.(timestamps := [], events := []);
      }
      state := state[rule.id := ruleState[key := k]];
    }

    method ProcessEvent(e: Event) returns (alerts: seq<Alert>)
      modifies this
      ensures (View(), alerts) == Run(rules, old(View()), EventActions(|rules|, e))
      ensures alertsGenerated == old(alertsGenerated) + |alerts| && rulesMatched == old(rulesMatched) + |alerts|
      ensures eventsProcessed == old(eventsProcessed) + 1 && rulesEvaluated == old(rulesEvaluated) + |rules|
    {
      alerts := [];
      eventsProcessed, rulesEvaluated := eventsProcessed + 1, rulesEvaluated + |rules|;
      for i := 0 to |rules|
        invariant (View(), alerts) == Run(rules, old(View()), EventActions(i, e))
        invariant alertsGenerated == old(alertsGenerated) + |alerts| && rulesMatched == old(rulesMatched) + |alerts|
        invariant eventsProcessed == old(eventsProcessed) + 1 && rulesEvaluated == old(rulesEvaluated) + |rules|
      {
        assert EventActions(i + 1, e)[..i] == EventActions(i, e);
        if rules[i].conditions(e) {
          var raised := MatchRule(rules[i], e);
          alerts := alerts + raised;
        } else {
          assert alerts + [] == alerts;
        }
      }
    }

    method CleanupExpired(now: int)
      modifies this`state
      ensures View() == Sweep(rules, old(View()), now)
    {
      var ids := state.Keys;
      while ids != {}
        invariant ids <= state.Keys == old(state).Keys
        invariant forall id :: id in ids ==> state[id] == old(state)[id]
        invariant forall id :: id in state && id !in ids ==>
                    state[id] == SweepKeys(old(state)[id], Cutoff(rules, id, now))
        decreases |ids|
      {
        var id :| id in ids;
        var swept := SweepRule(state[id], Cutoff(rules, id, now));
        state := state[id := swept];
        ids := ids - {id};
      }
      assert state == Sweep(rules, old(View()), now).state;
    }
  }

  /** The erase loop over the keys of one rule. */
  method SweepRule(m: RuleState, cutoff: int) returns (r: RuleState)
    ensures r == SweepKeys(m, cutoff)
  {
    r := m;
    var keys := m.Keys;
    while keys != {}
      invariant keys <= m.Keys && keys <= r.Keys
      invariant forall key :: key in r ==> key in m && r[key] == m[key]
      invariant forall key :: key in m && key !in keys ==> (key in r <==> !Expired(m[key], cutoff))
      decreases |keys|
    {
      var key :| key in keys;
      if Expired(r[key], cutoff) { r := r - {key}; }
      keys := keys - {key};
    }
  }
}
