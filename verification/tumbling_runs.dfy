/** Tumbling windows over whole runs: which actions make one report its events again. */
module TumblingRuns {
  import opened Clock
  import opened EventWindows
  import opened Sessions
  import opened WindowRuns

  /** The end of the tumbling window a time falls in. */
  function TumbleEnd(spec: Spec, time: int): int
    requires spec.size != 0
  {
    TumbleStart(spec, time) + spec.size * NS_PER_MS
  }

  /** Between the two an expiry runs at the end of the window of p's event or later. */
  predicate EndedIn(spec: Spec, actions: seq<Action>, p: nat, q: nat)
    requires spec.size != 0 && p < q <= |actions| && actions[p].Arrive?
  {
    exists r :: p < r < q && actions[r].Expire? && actions[r].now >= TumbleEnd(spec, actions[p].e.time)
  }

  /** Actions p and q bring consecutive events of one group, of different tumbling windows, and
      no expiry between them ends the first one's. */
  predicate RollsAcross(spec: Spec, actions: seq<Action>, p: nat, q: nat)
    requires spec.size != 0 && p < q < |actions|
  {
    && actions[q].Arrive? && LastBefore(spec, actions, p, q, GroupKey(actions[q].e, spec.groupBy))
    && TumbleStart(spec, actions[p].e.time) != TumbleStart(spec, actions[q].e.time) && !EndedIn(spec, actions, p, q)
  }

  /** The group's window is empty, or ends where its start says. */
  predicate Proper(spec: Spec, w: Window) { w.events == [] || w.end == w.start + spec.size * NS_PER_MS }

  /** One action and the group's window: its own event fills it and moves it to the event's
      place, an expiry at or after its end removes it, and nothing else touches it. */
  lemma {:induction false} WindowStep(spec: Spec, s: State, a: Action, g: string)
    requires spec.kind.Tumbling? && Usable(spec) && After(spec, s, a).Some? && Proper(spec, At(s.ws, g))
    ensures var w, w' := At(s.ws, g), At(After(spec, s, a).value.ws, g);
      && Proper(spec, w')
      && if Added(spec, a, g) != [] then w'.events != [] && w'.start == TumbleStart(spec, a.e.time)
         else if a.Expire? && w.events != [] && w.end <= a.now then w'.events == []
         else w' == w || (w.events == [] && w'.events == [])
  {
  }

  lemma {:induction false} AlwaysProper(spec: Spec, actions: seq<Action>, n: nat, g: string)
    requires spec.kind.Tumbling? && Usable(spec) && n <= |actions| && RunTo(spec, actions, n).Some?
    ensures Proper(spec, At(RunTo(spec, actions, n).value.ws, g))
  {
    if n > 0 {
      AlwaysProper(spec, actions, n - 1, g);
      WindowStep(spec, RunTo(spec, actions, n - 1).value, actions[n - 1], g);
    }
  }

  /** The window of a group's last event is filled and in that event's place, unless an expiry
      has run at its end or later. */
  lemma {:induction false} FilledIff(spec: Spec, actions: seq<Action>, p: nat, n: nat, g: string)
    requires spec.kind.Tumbling? && Usable(spec) && p < n <= |actions| && RunTo(spec, actions, n).Some?
    requires LastBefore(spec, actions, p, n, g)
    ensures var w := At(RunTo(spec, actions, n).value.ws, g);
      (w.events == [] <==> EndedIn(spec, actions, p, n))
      && (w.events != [] ==> w.start == TumbleStart(spec, actions[p].e.time))
  {
    AlwaysProper(spec, actions, n - 1, g);
    WindowStep(spec, RunTo(spec, actions, n - 1).value, actions[n - 1], g);
    if p < n - 1 {
      LastBeforeStays(spec, actions, p, n, g);
      FilledIff(spec, actions, p, n - 1, g);
      EndedLater(spec, actions, p, n);
    }
  }

  lemma {:induction false} EndedLater(spec: Spec, actions: seq<Action>, p: nat, n: nat)
    requires spec.size != 0 && p < n - 1 && n <= |actions| && actions[p].Arrive?
    ensures EndedIn(spec, actions, p, n)
       <==> EndedIn(spec, actions, p, n - 1)
            || (actions[n - 1].Expire? && actions[n - 1].now >= TumbleEnd(spec, actions[p].e.time))
  {
  }

  /** Without events a group has no window. */
  lemma {:induction false} NoneFilled(spec: Spec, actions: seq<Action>, n: nat, g: string)
    requires spec.kind.Tumbling? && Usable(spec) && n <= |actions| && RunTo(spec, actions, n).Some?
    requires Stream(spec, actions, n, g) == []
    ensures At(RunTo(spec, actions, n).value.ws, g).events == []
  {
    if n > 0 {
      AlwaysProper(spec, actions, n - 1, g);
      WindowStep(spec, RunTo(spec, actions, n - 1).value, actions[n - 1], g);
      NoneFilled(spec, actions, n - 1, g);
    }
  }

  lemma {:induction false} RollsIff(spec: Spec, actions: seq<Action>, q: nat)
    requires spec.kind.Tumbling? && Usable(spec) && q < |actions| && RunTo(spec, actions, q).Some?
    ensures RollsOver(spec, actions, q) <==> exists p :: 0 <= p < q && RollsAcross(spec, actions, p, q)
  {
    if actions[q].Arrive? {
      var g := GroupKey(actions[q].e, spec.groupBy);
      if Stream(spec, actions, q, g) == [] {
        NoneFilled(spec, actions, q, g);
        forall k | 0 <= k < q ensures !RollsAcross(spec, actions, k, q) {
          if LastBefore(spec, actions, k, q, g) { LastStream(spec, actions, k, q, g); }
        }
      } else {
        var p := FindLast(spec, actions, q, g);
        FilledIff(spec, actions, p, q, g);
        assert RollsOver(spec, actions, q) <==> RollsAcross(spec, actions, p, q);
        forall k | 0 <= k < q && RollsAcross(spec, actions, k, q) ensures k == p { OneLast(spec, actions, k, p, q, g); }
      }
    }
  }

  lemma {:induction false} NoRollIff(spec: Spec, actions: seq<Action>, n: nat)
    requires spec.kind.Tumbling? && Usable(spec) && n <= |actions| && RunTo(spec, actions, n).Some?
    ensures (forall i :: 0 <= i < n ==> !RollsOver(spec, actions, i))
       <==> (forall p, q :: 0 <= p < q < n ==> !RollsAcross(spec, actions, p, q))
  {
    if n > 0 {
      NoRollIff(spec, actions, n - 1);
      RollsIff(spec, actions, n - 1);
    }
  }

  /** Every membership is reported once or still resident, in any interleaving of events and
      expiries, if and only if the windows do not tumble, or no two consecutive events of a group
      fall into different windows without an expiry between them that ends the first one's. */
  lemma {:induction false} ConservedIff(spec: Spec, actions: seq<Action>, n: nat)
    requires Usable(spec) && n <= |actions| && RunTo(spec, actions, n).Some?
    ensures var s := RunTo(spec, actions, n).value;
      (Reported(s.out) + Resident(s.ws) == AllMembers(spec, actions, n))
      <==> (!spec.kind.Tumbling? || forall p, q :: 0 <= p < q < n ==> !RollsAcross(spec, actions, p, q))
  {
    WindowRuns.ConservedIff(spec, actions, n);
    if spec.kind.Tumbling? { NoRollIff(spec, actions, n); }
  }
}
