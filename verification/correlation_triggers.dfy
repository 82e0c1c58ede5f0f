/** The events an alert carries, and what a cleanup removes, in the terms of rules and events. */
module CorrelationTriggers {
  import opened CorrelationKey
  import opened Correlation
  import opened CorrelationRuns

  // Alerts never mix keys.

  /** An event that matches the rule and counts under the key. */
  predicate MatchOf(rule: Rule, key: string, e: Event) { rule.conditions(e) && Under(rule, e, key) }

  /** Everything stored for a rule and key is a match of the rule under that key. */
  ghost predicate AllStored(rules: seq<Rule>, engine: Engine) {
    forall i, key, e :: 0 <= i < |rules| && e in KeyStateOf(engine, rules[i].id, key).events
      ==> MatchOf(rules[i], key, e)
  }

  predicate AllMatch(rule: Rule, a: Alert) { forall e :: e in a.triggering ==> MatchOf(rule, a.key, e) }

  ghost predicate OfOneKey(rules: seq<Rule>, a: Alert) {
    exists i :: 0 <= i < |rules| && a.ruleId == rules[i].id && AllMatch(rules[i], a)
  }

  lemma {:induction false} MatchStores(rules: seq<Rule>, engine: Engine, i: nat, e: Event)
    requires DistinctIds(rules) && i < |rules| && AllStored(rules, engine)
    ensures AllStored(rules, ApplyRule(engine, rules[i], e))
    ensures forall a :: a in AlertsOf(engine, rules[i], e) ==> OfOneKey(rules, a)
  {
    var engine', at := ApplyRule(engine, rules[i], e), AggregationKey(rules[i], e);
    forall j, key, x | 0 <= j < |rules| && x in KeyStateOf(engine', rules[j].id, key).events
      ensures MatchOf(rules[j], key, x)
    {
      if rules[i].conditions(e) && j == i && key == at {
        assert x in Stored(KeyStateOf(engine, rules[i].id, at), e);
      } else {
        if i != j { OtherId(rules, i, j); }
        assert KeyStateOf(engine', rules[j].id, key) == KeyStateOf(engine, rules[j].id, key);
      }
    }
    forall a | a in AlertsOf(engine, rules[i], e) ensures OfOneKey(rules, a) {
      assert AllMatch(rules[i], a);
    }
  }

  lemma {:induction false} CleanupStores(rules: seq<Rule>, engine: Engine, now: int)
    requires AllStored(rules, engine)
    ensures AllStored(rules, Sweep(rules, engine, now))
  {
    forall i, key, e | 0 <= i < |rules| && e in KeyStateOf(Sweep(rules, engine, now), rules[i].id, key).events
      ensures MatchOf(rules[i], key, e)
    {
      assert e in KeyStateOf(engine, rules[i].id, key).events;
    }
  }

  lemma {:induction false} RunStores(rules: seq<Rule>, actions: seq<Action>)
    requires DistinctIds(rules) && WellFormed(rules, actions)
    ensures AllStored(rules, Run(rules, Fresh, actions).0)
    ensures forall a :: a in Run(rules, Fresh, actions).1 ==> OfOneKey(rules, a)
  {
    if actions != [] {
      var n := |actions| - 1;
      RunStores(rules, actions[..n]);
      var before := Run(rules, Fresh, actions[..n]).0;
      match actions[n]
      case Match(i, e) => MatchStores(rules, before, i, e);
      case Cleanup(now) => CleanupStores(rules, before, now);
    }
  }

  /** In any run, cleanups included: the events of an alert of a rule with a field all have the
      same value of that field, or all have none.  So matches with different values never count
      towards one alert. */
  lemma {:induction false} AlertsNeverMix(rules: seq<Rule>, actions: seq<Action>, a: Alert, i: nat, x: Event, y: Event)
    requires DistinctIds(rules) && WellFormed(rules, actions) && a in Run(rules, Fresh, actions).1
    requires i < |rules| && a.ruleId == rules[i].id && x in a.triggering && y in a.triggering
    ensures rules[i].conditions(x) && rules[i].conditions(y)
    ensures var field := rules[i].aggregationField;
      field != "" && field in x.fields && field in y.fields && x.fields[field] != "" && y.fields[field] != ""
      ==> x.fields[field] == y.fields[field] == a.key
    ensures var field := rules[i].aggregationField;
      field != "" && field in x.fields && x.fields[field] != "" && x.fields[field] != "_global_"
      ==> field in y.fields && y.fields[field] == x.fields[field]
  {
    RunStores(rules, actions);
    var j :| 0 <= j < |rules| && a.ruleId == rules[j].id && AllMatch(rules[j], a);
    if i != j { OtherId(rules, i, j); }
    assert MatchOf(rules[i], a.key, x) && MatchOf(rules[i], a.key, y);
  }

  // Which events an alert carries.

  /** The matches of one rule and key, in order. */
  function MatchesOf(rules: seq<Rule>, actions: seq<Action>, i: nat, key: string): seq<Event>
    requires i < |rules|
  {
    if actions == [] then []
    else
      var n := |actions| - 1;
      MatchesOf(rules, actions[..n], i, key) + (if Feeds(rules, actions[n], i, key) then [actions[n].event] else [])
  }

  function Times(events: seq<Event>): seq<int> {
    seq(|events|, k requires 0 <= k < |events| => events[k].timestamp)
  }

  lemma {:induction false} TimesAreStream(rules: seq<Rule>, actions: seq<Action>, i: nat, key: string)
    requires i < |rules|
    ensures Times(MatchesOf(rules, actions, i, key)) == SubStream(rules, actions, i, key)
  {
    if actions != [] { TimesAreStream(rules, actions[..|actions| - 1], i, key); }
  }

  /** The first hundred events of a list. */
  function Hundred(events: seq<Event>): seq<Event> { if |events| <= 100 then events else events[..100] }

  lemma {:induction false} FiresOfPrefix(w: int, threshold: nat, stream: seq<int>, t: int, i: nat)
    requires i < |stream|
    ensures FiresAt(w, threshold, stream + [t], i) <==> FiresAt(w, threshold, stream, i)
  {
    KeptOfPrefix(w, threshold, stream, t, i);
    assert (stream + [t])[i] == stream[i];
  }

  lemma {:induction false} SinceOfPrefix(w: int, threshold: nat, stream: seq<int>, t: int, i: nat)
    requires i <= |stream|
    ensures Since(w, threshold, stream + [t], i) == Since(w, threshold, stream, i)
  {
    if i > 0 {
      SinceOfPrefix(w, threshold, stream, t, i - 1);
      FiresOfPrefix(w, threshold, stream, t, i - 1);
    }
  }

  /** The events since the last alert. */
  function Recent(w: int, threshold: nat, events: seq<Event>): seq<Event> {
    events[Since(w, threshold, Times(events), |events|)..]
  }

  /** The events stored after these matches. */
  function Held(w: int, threshold: nat, events: seq<Event>): seq<Event> {
    Hundred(Recent(w, threshold, events))
  }

  lemma {:induction false} RecentNext(w: int, threshold: nat, events: seq<Event>, e: Event)
    ensures Recent(w, threshold, events + [e])
      == if FiresAt(w, threshold, Times(events) + [e.timestamp], |events|) then []
         else Recent(w, threshold, events) + [e]
  {
    var next, from := events + [e], Since(w, threshold, Times(events), |events|);
    assert Times(next) == Times(events) + [e.timestamp];
    SinceOfPrefix(w, threshold, Times(events), e.timestamp, |events|);
    assert next[from..] == events[from..] + [e];
    assert next[|next|..] == [];
  }

  lemma {:induction false} StoredHundred(events: seq<Event>, was: KeyState, e: Event)
    requires was.events == Hundred(events)
    ensures Stored(was, e) == Hundred(events + [e])
  {
    assert |events| >= 100 ==> (events + [e])[..100] == events[..100];
  }

  /** A match of a key that the engine tracks raises an alert when its stream says so, and stores what
      else it leaves. */
  lemma {:induction false} FiresOrStores(rules: seq<Rule>, engine: Engine, i: nat, e: Event, key: string, sub: seq<int>)
    requires i < |rules| && MatchOf(rules[i], key, e) && Tracks(rules, engine, i, key, sub)
    ensures var w, threshold, was := WindowTicks(rules[i]), rules[i].threshold, KeyStateOf(engine, rules[i].id, key);
      && KeyStateOf(ApplyRule(engine, rules[i], e), rules[i].id, key).events
         == (if FiresAt(w, threshold, sub + [e.timestamp], |sub|) then [] else Stored(was, e))
      && forall a :: a in AlertsOf(engine, rules[i], e) ==> a.triggering == Stored(was, e)
  {
    KeptOfPrefix(WindowTicks(rules[i]), rules[i].threshold, sub, e.timestamp, |sub|);
  }

  /** One match of the key: what is stored and what an alert carries. */
  lemma {:induction false} HeldStep(rules: seq<Rule>, engine: Engine, i: nat, e: Event, key: string, events: seq<Event>)
    requires i < |rules| && MatchOf(rules[i], key, e) && Tracks(rules, engine, i, key, Times(events))
    requires KeyStateOf(engine, rules[i].id, key).events == Held(WindowTicks(rules[i]), rules[i].threshold, events)
    ensures KeyStateOf(ApplyRule(engine, rules[i], e), rules[i].id, key).events
         == Held(WindowTicks(rules[i]), rules[i].threshold, events + [e])
    ensures forall a :: a in AlertsOf(engine, rules[i], e) ==>
      a.triggering == Hundred(Recent(WindowTicks(rules[i]), rules[i].threshold, events) + [e])
  {
    var w, threshold := WindowTicks(rules[i]), rules[i].threshold;
    FiresOrStores(rules, engine, i, e, key, Times(events));
    RecentNext(w, threshold, events, e);
    StoredHundred(Recent(w, threshold, events), KeyStateOf(engine, rules[i].id, key), e);
  }

  lemma {:induction false} HeldExactly(rules: seq<Rule>, actions: seq<Action>, i: nat, key: string)
    requires DistinctIds(rules) && WellFormed(rules, actions) && i < |rules| && NoCleanups(actions)
    ensures KeyStateOf(Run(rules, Fresh, actions).0, rules[i].id, key).events
         == Held(WindowTicks(rules[i]), rules[i].threshold, MatchesOf(rules, actions, i, key))
  {
    if actions != [] {
      var n := |actions| - 1;
      var before, events := Run(rules, Fresh, actions[..n]).0, MatchesOf(rules, actions[..n], i, key);
      HeldExactly(rules, actions[..n], i, key);
      if Feeds(rules, actions[n], i, key) {
        RunTracks(rules, actions[..n], i, key);
        TimesAreStream(rules, actions[..n], i, key);
        HeldStep(rules, before, i, actions[n].event, key, events);
      } else {
        OtherKeeps(rules, before, i, key, actions[n].rule, actions[n].event);
        assert events + [] == events;
      }
    }
  }

  /** Without cleanups, for times in any order: an alert carries the first hundred matches of its
      rule and key since the last alert, the one that raised it among them. */
  lemma {:induction false} TriggeringExact(rules: seq<Rule>, actions: seq<Action>, i: nat, e: Event, key: string)
    requires DistinctIds(rules) && WellFormed(rules, actions) && i < |rules| && NoCleanups(actions)
    requires rules[i].conditions(e) && Under(rules[i], e, key)
    ensures var events := MatchesOf(rules, actions, i, key);
      forall a :: a in AlertsOf(Run(rules, Fresh, actions).0, rules[i], e) ==>
        a.triggering == Hundred(Recent(rules[i].timeWindowMs * 1_000_000, rules[i].threshold, events) + [e])
  {
    RunTracks(rules, actions, i, key);
    TimesAreStream(rules, actions, i, key);
    HeldExactly(rules, actions, i, key);
    HeldStep(rules, Run(rules, Fresh, actions).0, i, e, key, MatchesOf(rules, actions, i, key));
  }

  // What a cleanup removes.

  /** A cleanup at `now` removes a key of a rule exactly when its last match is older than the
      rule's window, leaves every other as it is, and gives windows of rules that are gone a minute. */
  lemma {:induction false} CleanupRemoves(rules: seq<Rule>, engine: Engine, id: string, key: string, now: int)
    requires DistinctIds(rules)
    ensures var m, m' := RuleStateOf(engine, id), RuleStateOf(Sweep(rules, engine, now), id);
      && (key in m' <==> key in m && m[key].lastSeen >= now - TimeoutMs(rules, id) * 1_000_000)
      && (key in m' ==> m'[key] == m[key])
    ensures forall i :: 0 <= i < |rules| && rules[i].id == id ==> TimeoutMs(rules, id) == rules[i].timeWindowMs
    ensures (forall i :: 0 <= i < |rules| ==> rules[i].id != id) ==> TimeoutMs(rules, id) == 60_000
  {
    forall i | 0 <= i < |rules| && rules[i].id == id ensures TimeoutMs(rules, id) == rules[i].timeWindowMs {
      TimeoutOfRule(rules, i);
    }
    if forall i :: 0 <= i < |rules| ==> rules[i].id != id { TimeoutOfNone(rules, id); }
  }

  lemma {:induction false} TimeoutOfNone(rules: seq<Rule>, id: string)
    requires forall i :: 0 <= i < |rules| ==> rules[i].id != id
    ensures TimeoutMs(rules, id) == 60_000
  {
    if rules != [] { TimeoutOfNone(rules[1..], id); }
  }
}
