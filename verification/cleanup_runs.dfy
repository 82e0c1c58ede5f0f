/** Cleanups that no later match can notice, for clocks that may run backwards. */
module CleanupRuns {
  import opened CorrelationKey
  import opened Correlation
  import opened CorrelationRuns

  /** Since the key's last match some cleanup has found that match outside its window. */
  predicate Dropped(rules: seq<Rule>, actions: seq<Action>, i: nat, key: string)
    requires i < |rules|
  {
    if actions == [] then false
    else
      var n := |actions| - 1;
      var sub := SubStream(rules, actions[..n], i, key);
      if Feeds(rules, actions[n], i, key) then false
      else if actions[n].Cleanup? && sub != [] && sub[|sub| - 1] < Cutoff(rules, rules[i].id, actions[n].now) then true
      else Dropped(rules, actions[..n], i, key)
  }

  /** After such a cleanup, no earlier match of the key lies within the window of its next one. */
  predicate Harmless(rules: seq<Rule>, actions: seq<Action>, i: nat, key: string)
    requires i < |rules|
  {
    forall q :: 0 <= q < |actions| ==> HarmlessAt(rules, actions, q, i, key)
  }

  predicate HarmlessAt(rules: seq<Rule>, actions: seq<Action>, q: nat, i: nat, key: string)
    requires i < |rules| && q < |actions|
  {
    Feeds(rules, actions[q], i, key) && Dropped(rules, actions[..q], i, key) ==>
      AllBefore(SubStream(rules, actions[..q], i, key), TimeOf(actions[q]) - WindowTicks(rules[i]))
  }

  lemma {:induction false} HarmlessPrefix(rules: seq<Rule>, actions: seq<Action>, i: nat, key: string)
    requires i < |rules| && actions != [] && Harmless(rules, actions, i, key)
    ensures Harmless(rules, actions[..|actions| - 1], i, key)
  {
    var init := actions[..|actions| - 1];
    forall q | 0 <= q < |init| ensures HarmlessAt(rules, init, q, i, key) {
      assert HarmlessAt(rules, actions, q, i, key) && init[..q] == actions[..q];
    }
  }

  /** What a run with cleanups holds for a key against the run without: the same times, or none
      after such a cleanup; and what the run without holds are times of the key's matches. */
  ghost predicate Follows(rules: seq<Rule>, a: KeyState, b: KeyState, actions: seq<Action>, i: nat, key: string)
    requires i < |rules|
  {
    && Held(b, SubStream(rules, actions, i, key))
    && (SameTimes(a, b) || (a.timestamps == [] && Dropped(rules, actions, i, key)))
  }

  predicate Held(b: KeyState, sub: seq<int>) {
    && (forall j :: 0 <= j < |b.timestamps| ==> b.timestamps[j] in sub)
    && (b.timestamps != [] ==> sub != [] && b.lastSeen == sub[|sub| - 1])
  }

  predicate SameTimes(a: KeyState, b: KeyState) {
    a.timestamps == b.timestamps && (a.timestamps != [] ==> a.lastSeen == b.lastSeen)
  }

  lemma {:induction false} PruneIn(ts: seq<int>, start: int)
    ensures forall j :: 0 <= j < |Prune(ts, start)| ==> Prune(ts, start)[j] in ts
  {
    if ts != [] && ts[0] < start { PruneIn(ts[1..], start); }
  }

  lemma {:induction false} HeldNext(rule: Rule, b: KeyState, sub: seq<int>, e: Event)
    requires Held(b, sub)
    ensures Held(Updated(rule, b, e), sub + [e.timestamp])
  {
    var t := e.timestamp;
    PruneIn(b.timestamps + [t], t - WindowTicks(rule));
    forall x | x in b.timestamps + [t] ensures x in sub + [t] {
    }
  }

  /** Such a key's next match has the same window in both runs. */
  lemma {:induction false} SameNext(rules: seq<Rule>, a: KeyState, b: KeyState, actions: seq<Action>, i: nat, e: Event)
    requires i < |rules| && Feeds(rules, Match(i, e), i, AggregationKey(rules[i], e))
    requires Follows(rules, a, b, actions, i, AggregationKey(rules[i], e))
    requires HarmlessAt(rules, actions + [Match(i, e)], |actions|, i, AggregationKey(rules[i], e))
    ensures Window(a.timestamps, e.timestamp, WindowTicks(rules[i]))
        == Window(b.timestamps, e.timestamp, WindowTicks(rules[i]))
  {
    var key, w := AggregationKey(rules[i], e), WindowTicks(rules[i]);
    assert (actions + [Match(i, e)])[..|actions|] == actions;
    if !SameTimes(a, b) {
      var sub := SubStream(rules, actions, i, key);
      forall j | 0 <= j < |b.timestamps| ensures b.timestamps[j] < e.timestamp - w {
        var k :| 0 <= k < |sub| && sub[k] == b.timestamps[j];
      }
      ErasureVisibleIff(b.timestamps, e.timestamp, w);
    }
  }

  lemma {:induction false} SameUpdate(rule: Rule, a: KeyState, b: KeyState, e: Event)
    requires Window(a.timestamps, e.timestamp, WindowTicks(rule))
        == Window(b.timestamps, e.timestamp, WindowTicks(rule))
    ensures SameTimes(Updated(rule, a, e), Updated(rule, b, e))
  {
  }

  function KeyIn(engine: Engine, rules: seq<Rule>, i: nat, key: string): KeyState
    requires i < |rules|
  {
    KeyStateOf(engine, rules[i].id, key)
  }

  lemma {:induction false} Appended(rules: seq<Rule>, actions: seq<Action>, last: Action, i: nat, key: string)
    requires i < |rules|
    ensures SubStream(rules, actions + [last], i, key)
         == SubStream(rules, actions, i, key) + if Feeds(rules, last, i, key) then [TimeOf(last)] else []
    ensures Dropped(rules, actions + [last], i, key)
       <==> !Feeds(rules, last, i, key)
            && (DropsIt(rules, SubStream(rules, actions, i, key), last, i) || Dropped(rules, actions, i, key))
  {
    assert (actions + [last])[..|actions|] == actions;
  }

  /** A cleanup finds the last of these times outside its window. */
  predicate DropsIt(rules: seq<Rule>, sub: seq<int>, last: Action, i: nat)
    requires i < |rules|
  {
    last.Cleanup? && sub != [] && sub[|sub| - 1] < Cutoff(rules, rules[i].id, last.now)
  }

  lemma {:induction false} FollowsFeed(rules: seq<Rule>, a: Engine, b: Engine, actions: seq<Action>, i: nat, e: Event)
    requires i < |rules| && Feeds(rules, Match(i, e), i, AggregationKey(rules[i], e))
    requires Follows(rules, KeyIn(a, rules, i, AggregationKey(rules[i], e)),
                     KeyIn(b, rules, i, AggregationKey(rules[i], e)), actions, i, AggregationKey(rules[i], e))
    requires HarmlessAt(rules, actions + [Match(i, e)], |actions|, i, AggregationKey(rules[i], e))
    ensures var key, rule := AggregationKey(rules[i], e), rules[i];
      Follows(rules, KeyIn(ApplyRule(a, rule, e), rules, i, key), KeyIn(ApplyRule(b, rule, e), rules, i, key),
              actions + [Match(i, e)], i, key)
  {
    var key, rule := AggregationKey(rules[i], e), rules[i];
    var ka, kb := KeyIn(a, rules, i, key), KeyIn(b, rules, i, key);
    SameNext(rules, ka, kb, actions, i, e);
    SameUpdate(rule, ka, kb, e);
    HeldNext(rule, kb, SubStream(rules, actions, i, key), e);
    Appended(rules, actions, Match(i, e), i, key);
  }

  lemma {:induction false} FollowsOther(rules: seq<Rule>, a: Engine, b: Engine, actions: seq<Action>, i: nat,
      key: string, j: nat, e: Event)
    requires DistinctIds(rules) && i < |rules| && j < |rules| && !Feeds(rules, Match(j, e), i, key)
    requires Follows(rules, KeyIn(a, rules, i, key), KeyIn(b, rules, i, key), actions, i, key)
    ensures Follows(rules, KeyIn(ApplyRule(a, rules[j], e), rules, i, key),
                    KeyIn(ApplyRule(b, rules[j], e), rules, i, key), actions + [Match(j, e)], i, key)
  {
    OtherKeeps(rules, a, i, key, j, e);
    OtherKeeps(rules, b, i, key, j, e);
    Appended(rules, actions, Match(j, e), i, key);
    assert SubStream(rules, actions, i, key) + [] == SubStream(rules, actions, i, key);
  }

  lemma {:induction false} FollowsCleanup(rules: seq<Rule>, a: Engine, b: Engine, actions: seq<Action>, i: nat,
      key: string, now: int)
    requires i < |rules| && Follows(rules, KeyIn(a, rules, i, key), KeyIn(b, rules, i, key), actions, i, key)
    ensures Follows(rules, KeyIn(Sweep(rules, a, now), rules, i, key), KeyIn(b, rules, i, key),
                    actions + [Cleanup(now)], i, key)
  {
    var sub := SubStream(rules, actions, i, key);
    Appended(rules, actions, Cleanup(now), i, key);
    assert sub + [] == sub;
  }

  lemma {:induction false} FollowsRun(rules: seq<Rule>, actions: seq<Action>, i: nat, key: string)
    requires DistinctIds(rules) && WellFormed(rules, actions) && i < |rules| && Harmless(rules, actions, i, key)
    ensures WellFormed(rules, Strip(actions))
    ensures Follows(rules, KeyIn(Run(rules, Fresh, actions).0, rules, i, key),
                    KeyIn(Run(rules, Fresh, Strip(actions)).0, rules, i, key), actions, i, key)
  {
    StripKeeps(rules, actions);
    if actions != [] {
      var n := |actions| - 1;
      var init, last, s := actions[..n], actions[n], Strip(actions[..n]);
      HarmlessPrefix(rules, actions, i, key);
      FollowsRun(rules, init, i, key);
      assert actions == init + [last] && HarmlessAt(rules, actions, n, i, key);
      var a, b := Run(rules, Fresh, init).0, Run(rules, Fresh, s).0;
      if last.Cleanup? {
        assert Strip(actions) == s;
        FollowsCleanup(rules, a, b, init, i, key, last.now);
      } else {
        RunLast(rules, Fresh, s, last);
        assert Strip(actions) == s + [last];
        if Feeds(rules, last, i, key) {
          FollowsFeed(rules, a, b, init, i, last.event);
        } else {
          FollowsOther(rules, a, b, init, i, key, last.rule, last.event);
        }
      }
    }
  }

  /** No cleanup is harmful to any rule and key. */
  ghost predicate AllHarmless(rules: seq<Rule>, actions: seq<Action>) {
    forall i, key {:trigger Harmless(rules, actions, i, key)} :: 0 <= i < |rules| ==> Harmless(rules, actions, i, key)
  }

  lemma {:induction false} AllHarmlessPrefix(rules: seq<Rule>, actions: seq<Action>)
    requires actions != [] && AllHarmless(rules, actions)
    ensures AllHarmless(rules, actions[..|actions| - 1])
  {
    var init := actions[..|actions| - 1];
    forall i, key | 0 <= i < |rules| ensures Harmless(rules, init, i, key) { HarmlessPrefix(rules, actions, i, key); }
  }

  /** Before a match the run with cleanups and the run without give its key the same window. */
  lemma {:induction false} BothNext(rules: seq<Rule>, actions: seq<Action>, i: nat, e: Event)
    requires DistinctIds(rules) && WellFormed(rules, actions) && i < |rules| && rules[i].conditions(e)
    requires AllHarmless(rules, actions + [Match(i, e)])
    ensures WellFormed(rules, Strip(actions))
    ensures var key := AggregationKey(rules[i], e);
      var sub := SubStream(rules, Strip(actions), i, key);
      && NextWindow(rules, Run(rules, Fresh, actions).0, i, key, sub, e.timestamp)
      && NextWindow(rules, Run(rules, Fresh, Strip(actions)).0, i, key, sub, e.timestamp)
  {
    var key, all := AggregationKey(rules[i], e), actions + [Match(i, e)];
    assert all[..|all| - 1] == actions;
    StripKeeps(rules, actions);
    assert Harmless(rules, all, i, key);
    HarmlessPrefix(rules, all, i, key);
    FollowsRun(rules, actions, i, key);
    assert HarmlessAt(rules, all, |actions|, i, key);
    SameNext(rules, KeyIn(Run(rules, Fresh, actions).0, rules, i, key),
             KeyIn(Run(rules, Fresh, Strip(actions)).0, rules, i, key), actions, i, e);
    RunWindow(rules, Strip(actions), i, key, e.timestamp);
  }

  /** Cleanup transparency for any clock: when no cleanup is harmful, the alerts are those of the
      run without cleanups (serial, rule, key, timestamp and match count). */
  lemma {:induction false} HarmlessTransparent(rules: seq<Rule>, actions: seq<Action>)
    requires DistinctIds(rules) && WellFormed(rules, actions) && AllHarmless(rules, actions)
    ensures WellFormed(rules, Strip(actions))
    ensures Same(Run(rules, Fresh, actions).1, Run(rules, Fresh, Strip(actions)).1)
  {
    StripKeeps(rules, actions);
    if actions != [] {
      var n := |actions| - 1;
      var init, last, s := actions[..n], actions[n], Strip(actions[..n]);
      AllHarmlessPrefix(rules, actions);
      HarmlessTransparent(rules, init);
      assert actions == init + [last];
      if last.Cleanup? {
        assert Strip(actions) == s;
        assert Run(rules, Fresh, actions).1 == Run(rules, Fresh, init).1 + [];
      } else {
        RunLast(rules, Fresh, s, last);
        assert Strip(actions) == s + [last];
        LastSame(rules, init, last.rule, last.event);
      }
    }
  }

  lemma {:induction false} LastSame(rules: seq<Rule>, init: seq<Action>, i: nat, e: Event)
    requires DistinctIds(rules) && WellFormed(rules, init) && i < |rules| && AllHarmless(rules, init + [Match(i, e)])
    ensures WellFormed(rules, Strip(init))
    ensures Same(Run(rules, Fresh, init).1, Run(rules, Fresh, Strip(init)).1) ==>
      Same(AlertsOf(Run(rules, Fresh, init).0, rules[i], e), AlertsOf(Run(rules, Fresh, Strip(init)).0, rules[i], e))
  {
    StripKeeps(rules, init);
    if rules[i].conditions(e) && Same(Run(rules, Fresh, init).1, Run(rules, Fresh, Strip(init)).1) {
      BothNext(rules, init, i, e);
      GeneratedIsCount(rules, init);
      GeneratedIsCount(rules, Strip(init));
      SameAct(rules, Run(rules, Fresh, init).0, Run(rules, Fresh, Strip(init)).0, i, e,
              SubStream(rules, Strip(init), i, AggregationKey(rules[i], e)));
    }
  }

  // A clock that does not run backwards makes every cleanup harmless.

  lemma {:induction false} DroppedBefore(rules: seq<Rule>, actions: seq<Action>, i: nat, key: string, t: int)
    requires DistinctIds(rules) && i < |rules| && Dropped(rules, actions, i, key)
    requires Clocked(rules, actions, i, key) && CorrelationRuns.Before(rules, actions, i, key, t)
    ensures AllBefore(SubStream(rules, actions, i, key), t - WindowTicks(rules[i]))
  {
    var n := |actions| - 1;
    var init, last := actions[..n], actions[n];
    var sub := SubStream(rules, init, i, key);
    ClockedPrefix(rules, actions, i, key, t);
    assert sub + [] == sub;
    if DropsIt(rules, sub, last, i) {
      TimeoutOfRule(rules, i);
      SubStreamOrdered(rules, init, i, key, last.now);
      LastGreatest(sub, last.now);
    } else {
      DroppedBefore(rules, init, i, key, if Relevant(rules, last, i, key) then TimeOf(last) else t);
    }
  }

  lemma {:induction false} LastGreatest(ts: seq<int>, bound: int)
    requires ts != [] && NonDecreasing(ts + [bound])
    ensures forall j :: 0 <= j < |ts| ==> ts[j] <= ts[|ts| - 1]
  {
    var all := ts + [bound];
    forall j | 0 <= j < |ts| ensures ts[j] <= ts[|ts| - 1] {
      if j < |ts| - 1 { assert all[j] <= all[|ts| - 1]; }
    }
  }

  lemma {:induction false} ClockedIsHarmless(rules: seq<Rule>, actions: seq<Action>, i: nat, key: string)
    requires DistinctIds(rules) && i < |rules| && Clocked(rules, actions, i, key)
    ensures Harmless(rules, actions, i, key)
  {
    forall q | 0 <= q < |actions| ensures HarmlessAt(rules, actions, q, i, key) {
      if Feeds(rules, actions[q], i, key) && Dropped(rules, actions[..q], i, key) {
        DroppedBefore(rules, actions[..q], i, key, TimeOf(actions[q]));
      }
    }
  }
}
