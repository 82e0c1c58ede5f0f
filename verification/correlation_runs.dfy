/** Whole runs of the correlation engine, over any order of rule applications by concurrent
    processor threads and of cleanups. */
module CorrelationRuns {
  import opened CorrelationKey
  import opened Correlation

  const Fresh: Engine := Engine(map[], 0)

  function TimeOf(action: Action): int {
    match action
    case Match(_, e) => e.timestamp
    case Cleanup(now) => now
  }

  /** Does the action add a match to the stream of rule i and this key? */
  predicate Feeds(rules: seq<Rule>, action: Action, i: nat, key: string)
    requires i < |rules|
  {
    && action.Match? && action.rule == i
    && rules[i].conditions(action.event) && Under(rules[i], action.event, key)
  }

  /** The actions that bear on one rule and key: its own matches, and the cleanups. */
  predicate Relevant(rules: seq<Rule>, action: Action, i: nat, key: string)
    requires i < |rules|
  {
    action.Cleanup? || Feeds(rules, action, i, key)
  }

  /** The clock does not run backwards over those actions; nothing is asked of the others. */
  predicate Clocked(rules: seq<Rule>, actions: seq<Action>, i: nat, key: string)
    requires i < |rules|
  {
    forall a, b :: 0 <= a < b < |actions| && Relevant(rules, actions[a], i, key) && Relevant(rules, actions[b], i, key)
      ==> TimeOf(actions[a]) <= TimeOf(actions[b])
  }

  predicate Before(rules: seq<Rule>, actions: seq<Action>, i: nat, key: string, t: int)
    requires i < |rules|
  {
    forall a :: 0 <= a < |actions| && Relevant(rules, actions[a], i, key) ==> TimeOf(actions[a]) <= t
  }

  /** The match times of one rule and key. */
  function SubStream(rules: seq<Rule>, actions: seq<Action>, i: nat, key: string): seq<int>
    requires i < |rules|
  {
    if actions == [] then []
    else
      var n := |actions| - 1;
      SubStream(rules, actions[..n], i, key) + (if Feeds(rules, actions[n], i, key) then [TimeOf(actions[n])] else [])
  }

  function TimesOf(engine: Engine, rule: Rule, key: string): seq<int> {
    KeyStateOf(engine, rule.id, key).timestamps
  }

  lemma {:induction false} KeptOfPrefix(w: int, threshold: nat, stream: seq<int>, t: int, i: nat)
    requires i <= |stream|
    ensures Kept(w, threshold, stream + [t], i) == Kept(w, threshold, stream, i)
  {
    if i > 0 { KeptOfPrefix(w, threshold, stream, t, i - 1); }
  }

  lemma {:induction false} PruneLater(a: seq<int>, early: int, late: int)
    requires early <= late
    ensures Prune(Prune(a, early), late) == Prune(a, late)
  {
    if a != [] && a[0] < early { PruneLater(a[1..], early, late); }
  }

  /** Two lists that agree once pruned give the same window to any later match. */
  lemma {:induction false} SameWindow(a: seq<int>, b: seq<int>, clock: int, t: int, w: int)
    requires clock <= t && Prune(a, clock - w) == Prune(b, clock - w)
    ensures Window(a, t, w) == Window(b, t, w)
    ensures Prune(a, t - w) == Prune(b, t - w)
  {
    PruneAgain(a, [t], clock - w, t - w);
    PruneAgain(b, [t], clock - w, t - w);
    PruneLater(a, clock - w, t - w);
    PruneLater(b, clock - w, t - w);
  }

  lemma {:induction false} PrunedAway(ts: seq<int>, start: int)
    requires forall i :: 0 <= i < |ts| ==> ts[i] < start
    ensures Prune(ts, start) == []
  {
    if ts != [] { PrunedAway(ts[1..], start); }
  }

  lemma {:induction false} TimeoutOfRule(rules: seq<Rule>, i: nat)
    requires DistinctIds(rules) && i < |rules|
    ensures TimeoutMs(rules, rules[i].id) == rules[i].timeWindowMs
  {
    if i > 0 {
      assert rules[0].id != rules[i].id;
      assert DistinctIds(rules[1..]) by {
        forall j, k | 0 <= j < k < |rules| - 1 ensures rules[1..][j].id != rules[1..][k].id {
          assert rules[j + 1].id != rules[k + 1].id;
        }
      }
      TimeoutOfRule(rules[1..], i - 1);
    }
  }

  /** What the engine holds for a rule and key, against the key's own stream: pruned to the
      window of the present clock they are the same, and nothing held is later than last_seen. */
  ghost predicate Agrees(rules: seq<Rule>, engine: Engine, i: nat, key: string, stream: seq<int>, clock: int)
    requires i < |rules|
  {
    var w, ks := WindowTicks(rules[i]), KeyStateOf(engine, rules[i].id, key);
    && Prune(ks.timestamps, clock - w) == Prune(Kept(w, rules[i].threshold, stream, |stream|), clock - w)
    && AtMost(ks.timestamps, ks.lastSeen)
    && (ks != Blank ==> ks.lastSeen <= clock)
  }

  lemma {:induction false} WindowAgrees(rules: seq<Rule>, engine: Engine, i: nat, key: string, stream: seq<int>,
      clock: int, t: int)
    requires i < |rules| && Agrees(rules, engine, i, key, stream, clock) && clock <= t
    ensures var w := WindowTicks(rules[i]);
            Window(TimesOf(engine, rules[i], key), t, w)
            == Window(Kept(w, rules[i].threshold, stream + [t], |stream|), t, w)
  {
    var w := WindowTicks(rules[i]);
    SameWindow(TimesOf(engine, rules[i], key), Kept(w, rules[i].threshold, stream, |stream|), clock, t, w);
    KeptOfPrefix(w, rules[i].threshold, stream, t, |stream|);
  }

  lemma {:induction false} MatchStored(rules: seq<Rule>, engine: Engine, i: nat, e: Event)
    requires i < |rules| && rules[i].conditions(e)
    ensures var ks, ks' := KeyStateOf(engine, rules[i].id, AggregationKey(rules[i], e)),
                           KeyStateOf(ApplyRule(engine, rules[i], e), rules[i].id, AggregationKey(rules[i], e));
      && ks'.timestamps == After(ks.timestamps, e.timestamp, WindowTicks(rules[i]), rules[i].threshold)
      && ks'.lastSeen == e.timestamp
  {
  }

  lemma {:induction false} AgreesAfterMatch(rules: seq<Rule>, engine: Engine, i: nat, key: string, stream: seq<int>,
      clock: int, e: Event)
    requires DistinctIds(rules) && i < |rules| && Agrees(rules, engine, i, key, stream, clock) && clock <= e.timestamp
    requires Feeds(rules, Match(i, e), i, key)
    ensures Agrees(rules, ApplyRule(engine, rules[i], e), i, key, stream + [e.timestamp], e.timestamp)
  {
    var w, t, ks := WindowTicks(rules[i]), e.timestamp, KeyStateOf(engine, rules[i].id, key);
    WindowAgrees(rules, engine, i, key, stream, clock, t);
    MatchStored(rules, engine, i, e);
    assert After(ks.timestamps, t, w, rules[i].threshold) == Kept(w, rules[i].threshold, stream + [t], |stream| + 1);
    PruneAtMost(ks.timestamps + [t], t - w, t);
  }

  lemma {:induction false} OtherId(rules: seq<Rule>, i: nat, j: nat)
    requires DistinctIds(rules) && i < |rules| && j < |rules| && i != j
    ensures rules[i].id != rules[j].id
  {
    if j < i { assert rules[j].id != rules[i].id; }
  }

  /** Another rule or key leaves what is held for this one as it is. */
  lemma {:induction false} OtherKeeps(rules: seq<Rule>, engine: Engine, i: nat, key: string, j: nat, e: Event)
    requires DistinctIds(rules) && i < |rules| && j < |rules| && !Feeds(rules, Match(j, e), i, key)
    ensures KeyStateOf(ApplyRule(engine, rules[j], e), rules[i].id, key) == KeyStateOf(engine, rules[i].id, key)
  {
    if i != j { OtherId(rules, i, j); }
  }

  lemma {:induction false} AgreesAfterCleanup(rules: seq<Rule>, engine: Engine, i: nat, key: string,
      stream: seq<int>, clock: int, now: int)
    requires DistinctIds(rules) && i < |rules| && Agrees(rules, engine, i, key, stream, clock) && clock <= now
    ensures Agrees(rules, Sweep(rules, engine, now), i, key, stream, now)
  {
    var w, ks := WindowTicks(rules[i]), KeyStateOf(engine, rules[i].id, key);
    SameWindow(ks.timestamps, Kept(w, rules[i].threshold, stream, |stream|), clock, now, w);
    TimeoutOfRule(rules, i);
    if Expired(ks, now - w) { PrunedAway(ks.timestamps, now - w); }
  }

  lemma {:induction false} AgreesLater(rules: seq<Rule>, engine: Engine, i: nat, key: string, stream: seq<int>,
      clock: int, t: int)
    requires i < |rules| && Agrees(rules, engine, i, key, stream, clock) && clock <= t
    ensures Agrees(rules, engine, i, key, stream, t)
  {
    var w := WindowTicks(rules[i]);
    SameWindow(TimesOf(engine, rules[i], key), Kept(w, rules[i].threshold, stream, |stream|), clock, t, w);
  }

  lemma {:induction false} AgreesAfterAct(rules: seq<Rule>, engine: Engine, i: nat, key: string, stream: seq<int>,
      clock: int, action: Action)
    requires DistinctIds(rules) && i < |rules| && Agrees(rules, engine, i, key, stream, clock)
    requires (action.Match? ==> action.rule < |rules|) && (Relevant(rules, action, i, key) ==> clock <= TimeOf(action))
    ensures Agrees(rules, Act(rules, engine, action).0, i, key,
                   stream + (if Feeds(rules, action, i, key) then [TimeOf(action)] else []),
                   if Relevant(rules, action, i, key) then TimeOf(action) else clock)
  {
    assert stream + [] == stream;
    if action.Cleanup? {
      AgreesAfterCleanup(rules, engine, i, key, stream, clock, action.now);
    } else if Feeds(rules, action, i, key) {
      AgreesAfterMatch(rules, engine, i, key, stream, clock, action.event);
    } else {
      OtherKeeps(rules, engine, i, key, action.rule, action.event);
    }
  }

  lemma {:induction false} ClockedPrefix(rules: seq<Rule>, actions: seq<Action>, i: nat, key: string, t: int)
    requires i < |rules| && actions != [] && Clocked(rules, actions, i, key) && Before(rules, actions, i, key, t)
    ensures var n := |actions| - 1; var a := actions[n];
      && Clocked(rules, actions[..n], i, key)
      && Before(rules, actions[..n], i, key, if Relevant(rules, a, i, key) then TimeOf(a) else t)
      && (Relevant(rules, a, i, key) ==> TimeOf(a) <= t)
  {
  }

  /** After any run that is clocked for a rule and key, cleanups included, the engine agrees
      with the key's stream, whatever the order of all other matches. */
  lemma {:induction false} RunAgrees(rules: seq<Rule>, actions: seq<Action>, i: nat, key: string, t: int)
    requires DistinctIds(rules) && WellFormed(rules, actions) && i < |rules|
    requires Clocked(rules, actions, i, key) && Before(rules, actions, i, key, t)
    ensures Agrees(rules, Run(rules, Fresh, actions).0, i, key, SubStream(rules, actions, i, key), t)
  {
    if actions != [] {
      var n := |actions| - 1;
      var clock := if Relevant(rules, actions[n], i, key) then TimeOf(actions[n]) else t;
      ClockedPrefix(rules, actions, i, key, t);
      RunAgrees(rules, actions[..n], i, key, clock);
      var before, sub := Run(rules, Fresh, actions[..n]).0, SubStream(rules, actions[..n], i, key);
      AgreesAfterAct(rules, before, i, key, sub, clock, actions[n]);
      AgreesLater(rules, Act(rules, before, actions[n]).0, i, key, SubStream(rules, actions, i, key), clock, t);
    }
  }

  lemma {:induction false} SubStreamOrdered(rules: seq<Rule>, actions: seq<Action>, i: nat, key: string, bound: int)
    requires i < |rules| && Clocked(rules, actions, i, key) && Before(rules, actions, i, key, bound)
    ensures NonDecreasing(SubStream(rules, actions, i, key) + [bound])
  {
    if actions != [] {
      var n := |actions| - 1;
      ClockedPrefix(rules, actions, i, key, bound);
      var t := if Relevant(rules, actions[n], i, key) then TimeOf(actions[n]) else bound;
      SubStreamOrdered(rules, actions[..n], i, key, t);
      if Feeds(rules, actions[n], i, key) {
        AppendOrdered(SubStream(rules, actions[..n], i, key) + [t], bound);
      } else {
        RaiseLast(SubStream(rules, actions[..n], i, key), t, bound);
        assert SubStream(rules, actions, i, key) == SubStream(rules, actions[..n], i, key);
      }
    }
  }

  lemma {:induction false} AppendOrdered(ts: seq<int>, t: int)
    requires NonDecreasing(ts) && ts != [] && ts[|ts| - 1] <= t
    ensures NonDecreasing(ts + [t])
  {
    forall k | 0 <= k < |ts| ensures ts[k] <= t { if k < |ts| - 1 { assert ts[k] <= ts[|ts| - 1]; } }
  }

  lemma {:induction false} RaiseLast(ts: seq<int>, a: int, b: int)
    requires NonDecreasing(ts + [a]) && a <= b
    ensures NonDecreasing(ts + [b])
  {
    forall i, j | 0 <= i < j < |ts + [b]| ensures (ts + [b])[i] <= (ts + [b])[j] {
      assert (ts + [a])[i] <= (ts + [a])[j];
    }
  }

  predicate NoCleanups(actions: seq<Action>) { forall a :: 0 <= a < |actions| ==> actions[a].Match? }

  /** The engine holds exactly what the key's own stream leaves. */
  predicate Tracks(rules: seq<Rule>, engine: Engine, i: nat, key: string, sub: seq<int>)
    requires i < |rules|
  {
    TimesOf(engine, rules[i], key) == Kept(WindowTicks(rules[i]), rules[i].threshold, sub, |sub|)
  }

  lemma {:induction false} TracksFed(rules: seq<Rule>, engine: Engine, i: nat, e: Event, sub: seq<int>)
    requires i < |rules| && rules[i].conditions(e) && Tracks(rules, engine, i, AggregationKey(rules[i], e), sub)
    ensures Tracks(rules, ApplyRule(engine, rules[i], e), i, AggregationKey(rules[i], e), sub + [e.timestamp])
  {
    MatchStored(rules, engine, i, e);
    KeptOfPrefix(WindowTicks(rules[i]), rules[i].threshold, sub, e.timestamp, |sub|);
  }

  /** Without cleanups no order is needed at all: the engine holds exactly what the key's own
      stream leaves. */
  lemma {:induction false} RunTracks(rules: seq<Rule>, actions: seq<Action>, i: nat, key: string)
    requires DistinctIds(rules) && WellFormed(rules, actions) && i < |rules| && NoCleanups(actions)
    ensures Tracks(rules, Run(rules, Fresh, actions).0, i, key, SubStream(rules, actions, i, key))
  {
    if actions != [] {
      var n := |actions| - 1;
      RunTracks(rules, actions[..n], i, key);
      var engine, sub, e := Run(rules, Fresh, actions[..n]).0, SubStream(rules, actions[..n], i, key), actions[n].event;
      if Feeds(rules, actions[n], i, key) {
        TracksFed(rules, engine, i, e, sub);
      } else {
        OtherKeeps(rules, engine, i, key, actions[n].rule, e);
        assert sub + [] == sub;
      }
    }
  }

  /** When a key's alerts are those of its own stream: without cleanups for times in any order,
      and otherwise when the clock does not run backwards over the key's matches and cleanups. */
  predicate Faithful(rules: seq<Rule>, actions: seq<Action>, i: nat, key: string)
    requires i < |rules|
  {
    NoCleanups(actions) || Clocked(rules, actions, i, key)
  }

  /** The next match of the key, at time t, has the window that its stream gives it. */
  predicate NextWindow(rules: seq<Rule>, engine: Engine, i: nat, key: string, sub: seq<int>, t: int)
    requires i < |rules|
  {
    var w := WindowTicks(rules[i]);
    Window(TimesOf(engine, rules[i], key), t, w) == Window(Kept(w, rules[i].threshold, sub + [t], |sub|), t, w)
  }

  lemma {:induction false} RunWindow(rules: seq<Rule>, actions: seq<Action>, i: nat, key: string, t: int)
    requires DistinctIds(rules) && WellFormed(rules, actions) && i < |rules|
    requires NoCleanups(actions) || (Clocked(rules, actions, i, key) && Before(rules, actions, i, key, t))
    ensures NextWindow(rules, Run(rules, Fresh, actions).0, i, key, SubStream(rules, actions, i, key), t)
  {
    var sub := SubStream(rules, actions, i, key);
    if NoCleanups(actions) {
      RunTracks(rules, actions, i, key);
      KeptOfPrefix(WindowTicks(rules[i]), rules[i].threshold, sub, t, |sub|);
    } else {
      RunAgrees(rules, actions, i, key, t);
      WindowAgrees(rules, Run(rules, Fresh, actions).0, i, key, sub, t, t);
    }
  }

  /** Exactly one alert when `fires`, none otherwise, and what it carries. */
  ghost predicate Reports(alerts: seq<Alert>, rule: Rule, key: string, t: int, fires: bool, count: nat) {
    && |alerts| == (if fires then 1 else 0)
    && forall a :: a in alerts ==> a.ruleId == rule.id && a.key == key && a.timestamp == t && a.matchCount == count
  }

  lemma {:induction false} StepRaises(rules: seq<Rule>, engine: Engine, i: nat, e: Event, sub: seq<int>)
    requires i < |rules| && rules[i].conditions(e)
    requires NextWindow(rules, engine, i, AggregationKey(rules[i], e), sub, e.timestamp)
    ensures var w, threshold, stream := WindowTicks(rules[i]), rules[i].threshold, sub + [e.timestamp];
            Reports(AlertsOf(engine, rules[i], e), rules[i], AggregationKey(rules[i], e), e.timestamp,
                    FiresAt(w, threshold, stream, |sub|), MatchCount(w, threshold, stream, |sub|))
  {
    MatchCountBounded(WindowTicks(rules[i]), rules[i].threshold, sub + [e.timestamp], |sub|);
  }

  /** The declarative reading of the alerts that the last match of a key's stream raises:
      one alert if the matches since the last one, within the window, reach the threshold. */
  ghost predicate Exact(alerts: seq<Alert>, rule: Rule, key: string, stream: seq<int>)
    requires stream != []
  {
    var n, w, threshold := |stream| - 1, rule.timeWindowMs * 1_000_000, rule.threshold;
    var recent := CountFrom(stream[Since(w, threshold, stream, n)..], stream[n] - w);
    && Reports(alerts, rule, key, stream[n], recent >= threshold, recent)
    && (recent >= threshold
        ==> (recent == (if threshold == 0 then 1 else threshold) <==> threshold > 0 || rule.timeWindowMs >= 0))
  }

  lemma {:induction false} StepExact(rules: seq<Rule>, engine: Engine, i: nat, e: Event, sub: seq<int>)
    requires i < |rules| && rules[i].conditions(e)
    requires NextWindow(rules, engine, i, AggregationKey(rules[i], e), sub, e.timestamp)
    requires NonDecreasing(sub + [e.timestamp])
    ensures Exact(AlertsOf(engine, rules[i], e), rules[i], AggregationKey(rules[i], e), sub + [e.timestamp])
  {
    StepRaises(rules, engine, i, e, sub);
    LastMatchExact(WindowTicks(rules[i]), rules[i].threshold, sub + [e.timestamp]);
  }

  /** Alert exactness for the engine, whatever other rules, keys and cleanups the run holds, and
      in whatever order other keys' matches come: the event raises one alert for the rule exactly
      when the key's matches since its last alert, this one included, within the window number
      at least the threshold. */
  lemma {:induction false} EngineAlertExact(rules: seq<Rule>, actions: seq<Action>, i: nat, e: Event, key: string)
    requires DistinctIds(rules) && i < |rules| && rules[i].conditions(e) && Under(rules[i], e, key)
    requires WellFormed(rules, actions) && Clocked(rules, actions, i, key)
        && Before(rules, actions, i, key, e.timestamp)
    ensures Exact(AlertsOf(Run(rules, Fresh, actions).0, rules[i], e), rules[i], key,
                  SubStream(rules, actions, i, key) + [e.timestamp])
  {
    RunWindow(rules, actions, i, key, e.timestamp);
    SubStreamOrdered(rules, actions, i, key, e.timestamp);
    StepExact(rules, Run(rules, Fresh, actions).0, i, e, SubStream(rules, actions, i, key));
  }

  /** The alerts of one rule and key, as (timestamp, match_count), out of a list of alerts. */
  function Of(alerts: seq<Alert>, id: string, key: string): seq<(int, nat)> {
    if alerts == [] then []
    else
      var last := alerts[|alerts| - 1];
      Of(alerts[..|alerts| - 1], id, key)
      + (if last.ruleId == id && last.key == key then [(last.timestamp, last.matchCount)] else [])
  }

  /** The alerts that one key's stream raises by itself. */
  function KeyAlerts(w: int, threshold: nat, stream: seq<int>): seq<(int, nat)> {
    if stream == [] then []
    else
      var n := |stream| - 1;
      KeyAlerts(w, threshold, stream[..n])
      + (if FiresAt(w, threshold, stream, n) then [(stream[n], MatchCount(w, threshold, stream, n))] else [])
  }

  lemma {:induction false} OfAppend(alerts: seq<Alert>, more: seq<Alert>, id: string, key: string)
    requires |more| <= 1
    ensures Of(alerts + more, id, key) == Of(alerts, id, key) + Of(more, id, key)
  {
    if more == [] {
      assert alerts + more == alerts;
    } else {
      assert (alerts + more)[..|alerts|] == alerts;
      assert more[..0] == [];
    }
  }

  lemma {:induction false} FaithfulPrefix(rules: seq<Rule>, actions: seq<Action>, i: nat, key: string)
    requires i < |rules| && actions != [] && Faithful(rules, actions, i, key)
    ensures var n := |actions| - 1;
      && Faithful(rules, actions[..n], i, key)
      && (Feeds(rules, actions[n], i, key) ==>
            NoCleanups(actions[..n])
            || (Clocked(rules, actions[..n], i, key) && Before(rules, actions[..n], i, key, TimeOf(actions[n]))))
  {
  }

  /** Alerts for a rule and key depend only on that key's stream: other keys, other rules,
      their interleaving and their order leave them unchanged, and so does every cleanup that
      is in order with the key's matches. */
  lemma {:induction false} AlertsDependOnStreamOnly(rules: seq<Rule>, actions: seq<Action>, i: nat, key: string)
    requires DistinctIds(rules) && WellFormed(rules, actions) && i < |rules| && Faithful(rules, actions, i, key)
    ensures Of(Run(rules, Fresh, actions).1, rules[i].id, key)
            == KeyAlerts(rules[i].timeWindowMs * 1_000_000, rules[i].threshold, SubStream(rules, actions, i, key))
  {
    if actions != [] {
      var n := |actions| - 1;
      var before := Run(rules, Fresh, actions[..n]);
      var sub := SubStream(rules, actions[..n], i, key);
      FaithfulPrefix(rules, actions, i, key);
      AlertsDependOnStreamOnly(rules, actions[..n], i, key);
      if Feeds(rules, actions[n], i, key) { RunWindow(rules, actions[..n], i, key, TimeOf(actions[n])); }
      LastAlert(rules, before.0, before.1, actions[n], i, key, sub);
    }
  }

  lemma {:induction false} LastAlert(rules: seq<Rule>, engine: Engine, alerts: seq<Alert>, action: Action, i: nat,
      key: string, sub: seq<int>)
    requires DistinctIds(rules) && i < |rules| && (action.Match? ==> action.rule < |rules|)
    requires Feeds(rules, action, i, key) ==> NextWindow(rules, engine, i, key, sub, TimeOf(action))
    requires Of(alerts, rules[i].id, key) == KeyAlerts(WindowTicks(rules[i]), rules[i].threshold, sub)
    ensures Of(alerts + Act(rules, engine, action).1, rules[i].id, key)
            == KeyAlerts(WindowTicks(rules[i]), rules[i].threshold,
                         sub + if Feeds(rules, action, i, key) then [TimeOf(action)] else [])
  {
    var last := Act(rules, engine, action).1;
    if Feeds(rules, action, i, key) {
      StepRaises(rules, engine, i, action.event, sub);
      ReportedAlert(rules[i], key, alerts, last, sub, TimeOf(action));
    } else {
      assert sub + [] == sub;
      OtherAlert(rules, engine, action, i, key);
      OfAppend(alerts, last, rules[i].id, key);
    }
  }

  lemma {:induction false} ReportedAlert(rule: Rule, key: string, alerts: seq<Alert>, last: seq<Alert>,
      sub: seq<int>, t: int)
    requires Of(alerts, rule.id, key) == KeyAlerts(WindowTicks(rule), rule.threshold, sub)
    requires var w, stream := WindowTicks(rule), sub + [t];
             Reports(last, rule, key, t, FiresAt(w, rule.threshold, stream, |sub|),
               MatchCount(w, rule.threshold, stream, |sub|))
    ensures Of(alerts + last, rule.id, key) == KeyAlerts(WindowTicks(rule), rule.threshold, sub + [t])
  {
    OfAppend(alerts, last, rule.id, key);
    OfOne(last, rule.id, key);
    KeyAlertsAppend(WindowTicks(rule), rule.threshold, sub, t);
  }

  lemma {:induction false} KeyAlertsAppend(w: int, threshold: nat, sub: seq<int>, t: int)
    ensures KeyAlerts(w, threshold, sub + [t]) == KeyAlerts(w, threshold, sub) +
            if FiresAt(w, threshold, sub + [t], |sub|) then [(t, MatchCount(w, threshold, sub + [t], |sub|))] else []
  {
    assert (sub + [t])[..|sub|] == sub;
  }

  lemma {:induction false} OfOne(alerts: seq<Alert>, id: string, key: string)
    requires |alerts| <= 1 && forall a :: a in alerts ==> a.ruleId == id && a.key == key
    ensures Of(alerts, id, key) == if alerts == [] then [] else [(alerts[0].timestamp, alerts[0].matchCount)]
  {
    if alerts != [] {
      assert alerts[..0] == [] && alerts[0] in alerts;
    }
  }

  lemma {:induction false} OtherAlert(rules: seq<Rule>, engine: Engine, action: Action, i: nat, key: string)
    requires DistinctIds(rules) && i < |rules| && (action.Match? ==> action.rule < |rules|)
    requires !Feeds(rules, action, i, key)
    ensures |Act(rules, engine, action).1| <= 1
    ensures Of(Act(rules, engine, action).1, rules[i].id, key) == []
  {
    var last := Act(rules, engine, action).1;
    if last != [] {
      var j := action.rule;
      assert last[..0] == [];
      assert j != i ==> rules[j].id != rules[i].id by {
        if j < i { assert rules[j].id != rules[i].id; } else if i < j { assert rules[i].id != rules[j].id; }
      }
    }
  }

  /** The run without its cleanups. */
  function Strip(actions: seq<Action>): seq<Action> {
    if actions == [] then []
    else
      var n := |actions| - 1;
      Strip(actions[..n]) + (if actions[n].Match? then [actions[n]] else [])
  }

  /** Equal but for the stored triggering events. */
  predicate Same(a: seq<Alert>, b: seq<Alert>) {
    |a| == |b| && forall k :: 0 <= k < |a| ==> a[k].(triggering := []) == b[k].(triggering := [])
  }

  lemma {:induction false} StripKeeps(rules: seq<Rule>, actions: seq<Action>)
    requires WellFormed(rules, actions)
    ensures WellFormed(rules, Strip(actions)) && NoCleanups(Strip(actions))
    ensures forall i, key {:trigger SubStream(rules, actions, i, key)} ::
              0 <= i < |rules| ==> SubStream(rules, Strip(actions), i, key) == SubStream(rules, actions, i, key)
  {
    if actions != [] {
      var n := |actions| - 1;
      var s := Strip(actions[..n]);
      StripKeeps(rules, actions[..n]);
      forall i, key | 0 <= i < |rules|
        ensures SubStream(rules, Strip(actions), i, key) == SubStream(rules, actions, i, key)
      {
        var sub := SubStream(rules, actions[..n], i, key);
        if actions[n].Match? {
          assert Strip(actions)[..|s|] == s;
        } else {
          assert s + [] == s && sub + [] == sub;
        }
      }
    }
  }

  lemma {:induction false} GeneratedIsCount(rules: seq<Rule>, actions: seq<Action>)
    requires WellFormed(rules, actions)
    ensures Run(rules, Fresh, actions).0.generated == |Run(rules, Fresh, actions).1|
  {
    if actions != [] { GeneratedIsCount(rules, actions[..|actions| - 1]); }
  }

  lemma {:induction false} SameAct(rules: seq<Rule>, e1: Engine, e2: Engine, i: nat, e: Event, sub: seq<int>)
    requires i < |rules| && rules[i].conditions(e) && e1.generated == e2.generated
    requires NextWindow(rules, e1, i, AggregationKey(rules[i], e), sub, e.timestamp)
    requires NextWindow(rules, e2, i, AggregationKey(rules[i], e), sub, e.timestamp)
    ensures Same(AlertsOf(e1, rules[i], e), AlertsOf(e2, rules[i], e))
  {
  }

  /** The clock does not run backwards for any rule and key; matches of different keys, or of
      different rules, may come in any order between two cleanups. */
  ghost predicate AllClocked(rules: seq<Rule>, actions: seq<Action>) {
    forall a, b :: 0 <= a < b < |actions| ==> Ordered(rules, actions[a], actions[b])
  }

  ghost predicate Ordered(rules: seq<Rule>, a: Action, b: Action) { Together(rules, a, b) ==> TimeOf(a) <= TimeOf(b) }

  /** Two actions bear on one rule and key. */
  ghost predicate Together(rules: seq<Rule>, a: Action, b: Action) {
    if a.Cleanup? then b.Cleanup? || Matches(rules, b)
    else if b.Cleanup? then Matches(rules, a)
    else Matches(rules, a) && Matches(rules, b) && a.rule == b.rule
         && exists key :: Under(rules[a.rule], a.event, key) && Under(rules[b.rule], b.event, key)
  }

  predicate Matches(rules: seq<Rule>, a: Action) { a.Match? && a.rule < |rules| && rules[a.rule].conditions(a.event) }

  lemma {:induction false} ClockedEach(rules: seq<Rule>, actions: seq<Action>, i: nat, e: Event)
    requires AllClocked(rules, actions + [Match(i, e)]) && i < |rules| && rules[i].conditions(e)
    ensures var key := AggregationKey(rules[i], e);
      Clocked(rules, actions, i, key) && Before(rules, actions, i, key, e.timestamp)
  {
    var key, all := AggregationKey(rules[i], e), actions + [Match(i, e)];
    forall a, b | 0 <= a < b < |actions| && Relevant(rules, actions[a], i, key) && Relevant(rules, actions[b], i, key)
      ensures TimeOf(actions[a]) <= TimeOf(actions[b])
    {
      assert Ordered(rules, all[a], all[b]);
    }
    forall a | 0 <= a < |actions| && Relevant(rules, actions[a], i, key) ensures TimeOf(actions[a]) <= e.timestamp {
      assert Ordered(rules, all[a], all[|actions|]);
    }
  }

  /** Cleanup transparency: when the clock does not run backwards for any rule and key,
      cleanups inserted anywhere leave every alert as it was (serial, rule, key, timestamp and
      match count). */
  lemma {:induction false} CleanupTransparent(rules: seq<Rule>, actions: seq<Action>)
    requires DistinctIds(rules) && WellFormed(rules, actions) && AllClocked(rules, actions)
    ensures WellFormed(rules, Strip(actions))
    ensures Same(Run(rules, Fresh, actions).1, Run(rules, Fresh, Strip(actions)).1)
  {
    if actions != [] {
      var n := |actions| - 1;
      var s := Strip(actions[..n]);
      StripKeeps(rules, actions);
      CleanupTransparent(rules, actions[..n]);
      if actions[n].Match? {
        var i, e := actions[n].rule, actions[n].event;
        assert Strip(actions)[..|s|] == s;
        if rules[i].conditions(e) {
          assert actions[..n] + [Match(i, e)] == actions;
          ClockedEach(rules, actions[..n], i, e);
          BothWindows(rules, actions[..n], i, AggregationKey(rules[i], e), e.timestamp);
          GeneratedIsCount(rules, actions[..n]);
          GeneratedIsCount(rules, s);
          SameAct(rules, Run(rules, Fresh, actions[..n]).0, Run(rules, Fresh, s).0, i, e,
                  SubStream(rules, s, i, AggregationKey(rules[i], e)));
        }
      } else {
        assert s + [] == s;
      }
    }
  }

  /** With and without its cleanups, a run leaves the key the same next window. */
  lemma {:induction false} BothWindows(rules: seq<Rule>, actions: seq<Action>, i: nat, key: string, t: int)
    requires DistinctIds(rules) && WellFormed(rules, actions) && i < |rules|
    requires Clocked(rules, actions, i, key) && Before(rules, actions, i, key, t)
    ensures WellFormed(rules, Strip(actions))
    ensures var sub := SubStream(rules, Strip(actions), i, key);
      && NextWindow(rules, Run(rules, Fresh, actions).0, i, key, sub, t)
      && NextWindow(rules, Run(rules, Fresh, Strip(actions)).0, i, key, sub, t)
  {
    StripKeeps(rules, actions);
    assert SubStream(rules, Strip(actions), i, key) == SubStream(rules, actions, i, key);
    RunWindow(rules, actions, i, key, t);
    RunWindow(rules, Strip(actions), i, key, t);
  }

  /** For any clock and any stored times: a cleanup leaves the window of a key's next match as it
      is if and only if it spares the key or all its times lie before that window. */
  lemma {:induction false} CleanupVisibleIffLate(rules: seq<Rule>, engine: Engine, i: nat, e: Event, now: int)
    requires DistinctIds(rules) && i < |rules|
    ensures var key, w := AggregationKey(rules[i], e), rules[i].timeWindowMs * 1_000_000;
            var ks := KeyStateOf(engine, rules[i].id, key);
            Window(TimesOf(Sweep(rules, engine, now), rules[i], key), e.timestamp, w)
            == Window(TimesOf(engine, rules[i], key), e.timestamp, w)
            <==> ks.lastSeen >= now - w || forall j :: 0 <= j < |ks.timestamps| ==> ks.timestamps[j] < e.timestamp - w
  {
    TimeoutOfRule(rules, i);
    ErasureVisibleIff(TimesOf(engine, rules[i], AggregationKey(rules[i], e)), e.timestamp, WindowTicks(rules[i]));
  }

  /** When a late match loses its alert to a cleanup: exactly when the cleanup erases the key,
      the threshold is above one, and the matches still held would have reached it. */
  lemma {:induction false} LateMatchLosesAlert(rules: seq<Rule>, engine: Engine, i: nat, e: Event, now: int)
    requires DistinctIds(rules) && i < |rules| && rules[i].timeWindowMs >= 0 && rules[i].conditions(e)
    ensures var w, ks := rules[i].timeWindowMs * 1_000_000,
        KeyStateOf(engine, rules[i].id, AggregationKey(rules[i], e));
      (AlertsOf(engine, rules[i], e) != [] && AlertsOf(Sweep(rules, engine, now), rules[i], e) == [])
      <==> (ks.lastSeen < now - w && rules[i].threshold > 1
            && |Window(ks.timestamps, e.timestamp, w)| >= rules[i].threshold)
  {
    TimeoutOfRule(rules, i);
    assert [] + [e.timestamp] == [e.timestamp] && [e.timestamp][1..] == [];
  }

  lemma {:induction false} RunLast(rules: seq<Rule>, engine: Engine, actions: seq<Action>, last: Action)
    requires WellFormed(rules, actions) && (last.Match? ==> last.rule < |rules|)
    ensures var before := Run(rules, engine, actions);
            WellFormed(rules, actions + [last])
            && Run(rules, engine, actions + [last])
               == (Act(rules, before.0, last).0, before.1 + Act(rules, before.0, last).1)
  {
    assert (actions + [last])[..|actions|] == actions;
  }

  lemma {:induction false} BothLast(rules: seq<Rule>, engine: Engine, whole: seq<Action>, first: (Engine, seq<Alert>),
                                    c: seq<Action>, last: Action)
    requires WellFormed(rules, whole) && WellFormed(rules, c) && (last.Match? ==> last.rule < |rules|)
    requires var middle := Run(rules, first.0, c); Run(rules, engine, whole) == (middle.0, first.1 + middle.1)
    ensures WellFormed(rules, whole + [last]) && WellFormed(rules, c + [last])
    ensures var second := Run(rules, first.0, c + [last]);
        Run(rules, engine, whole + [last]) == (second.0, first.1 + second.1)
  {
    RunLast(rules, engine, whole, last);
    RunLast(rules, first.0, c, last);
    AlertsConcat(first.1, Run(rules, first.0, c).1, Act(rules, Run(rules, first.0, c).0, last).1);
  }

  lemma {:induction false} AlertsConcat(a: seq<Alert>, b: seq<Alert>, c: seq<Alert>)
    ensures a + (b + c) == (a + b) + c && a + [] == a
  {
  }

  /** Runs compose, so a sequence of ProcessEvent and CleanupExpired calls is one run over
      the actions of all of them. */
  lemma {:induction false} RunConcat(rules: seq<Rule>, engine: Engine, a: seq<Action>, b: seq<Action>)
    requires WellFormed(rules, a) && WellFormed(rules, b) && WellFormed(rules, a + b)
    ensures var first := Run(rules, engine, a);
            var second := Run(rules, first.0, b);
            Run(rules, engine, a + b) == (second.0, first.1 + second.1)
  {
    if b == [] {
      assert a + b == a;
      AlertsConcat(Run(rules, engine, a).1, [], []);
    } else {
      var c, last := b[..|b| - 1], b[|b| - 1];
      assert a + b == (a + c) + [last] && b == c + [last];
      RunConcat(rules, engine, a, c);
      var first := Run(rules, engine, a);
      BothLast(rules, engine, a + c, first, c, last);
    }
  }
}
