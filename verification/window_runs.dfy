/** Whole runs of one window specification: events and expiries in any interleaving. */
module WindowRuns {
  import opened Clock
  import opened Decimal
  import opened EventWindows
  import opened HoppingWindows
  import opened MapSums
  import opened Wrappers

  /** An event, or expire_windows walking the map in some order. */
  datatype Action = Arrive(e: Event) | Expire(now: int, order: seq<string>)

  /** The resident windows, every result reported so far, and the events counted in results
      that a tumbling window reported without giving them up. */
  datatype State = State(ws: Windows, out: seq<WindowResult>, rolled: nat)

  function Size(w: Window): int { |w.events| }

  ghost function Resident(ws: Windows): int { Sum(ws, Size) }

  function Reported(out: seq<WindowResult>): nat {
    if out == [] then 0 else Reported(out[..|out| - 1]) + |out[|out| - 1].events|
  }

  /** How many windows one event becomes a member of. */
  function Members(spec: Spec, e: Event): nat
    requires Usable(spec)
  {
    if spec.kind.Hopping? then Memberships(spec, Millis(e.time)) else 1
  }

  ghost function After(spec: Spec, s: State, a: Action): Option<State>
    requires Usable(spec)
  {
    match a
    case Arrive(e) =>
      var o := Step(spec, s.ws, e);
      Some(State(o.windows, s.out + o.out, s.rolled + if spec.kind.Tumbling? then Reported(o.out) else 0))
    case Expire(now, order) =>
      if Enumerates(s.ws, now, order) then Some(State(Alive(s.ws, now), s.out + Expired(spec, s.ws, order), s.rolled))
      else None
  }

  ghost function RunTo(spec: Spec, actions: seq<Action>, n: nat): Option<State>
    requires Usable(spec) && n <= |actions|
  {
    if n == 0 then Some(State(map[], [], 0))
    else
      match RunTo(spec, actions, n - 1)
      case None => None
      case Some(s) => After(spec, s, actions[n - 1])
  }

  function AllMembers(spec: Spec, actions: seq<Action>, n: nat): nat
    requires Usable(spec) && n <= |actions|
  {
    if n == 0 then 0
    else AllMembers(spec, actions, n - 1) + if actions[n - 1].Arrive? then Members(spec, actions[n - 1].e) else 0
  }

  lemma {:induction false} ReportedConcat(a: seq<WindowResult>, b: seq<WindowResult>)
    ensures Reported(a + b) == Reported(a) + Reported(b)
  {
    if b == [] {
      assert a + b == a;
    } else {
      assert (a + b)[..|a + b| - 1] == a + b[..|b| - 1];
      ReportedConcat(a, b[..|b| - 1]);
    }
  }

  // One event.

  lemma {:induction false} PutResident(ws: Windows, key: string, w: Window)
    ensures Resident(ws[key := w]) == Resident(ws) + |w.events| - |At(ws, key).events|
  {
    SumPut(ws, Size, key, w);
  }

  lemma {:induction false} HopResident(spec: Spec, ws: Windows, e: Event, g: string, n: int, last: int)
    ensures Resident(HopFrom(spec, ws, e, g, n, last)) == Resident(ws) + CoverCount(spec, Millis(e.time), n, last)
    decreases last - n
  {
    if n <= last {
      var joined := Join(spec, ws, e, g, n);
      PutResident(ws, Key(g, n), joined[Key(g, n)]);
      HopResident(spec, if Covers(spec, n, Millis(e.time)) then joined else ws, e, g, n + 1, last);
    }
  }

  lemma {:induction false} TumbleResident(spec: Spec, ws: Windows, e: Event, g: string)
    requires spec.size != 0
    ensures Resident(Tumble(spec, ws, e, g).windows) == Resident(ws) + 1
  {
    PutResident(ws, g, Tumble(spec, ws, e, g).windows[g]);
  }

  lemma {:induction false} VisitResident(spec: Spec, ws: Windows, e: Event, g: string)
    ensures Resident(Visit(spec, ws, e, g).windows) + Reported(Visit(spec, ws, e, g).out) == Resident(ws) + 1
  {
    var o := Visit(spec, ws, e, g);
    PutResident(ws, g, o.windows[g]);
    if o.out != [] { assert o.out[..0] == []; }
  }

  lemma {:induction false} SlideResident(spec: Spec, ws: Windows, e: Event, g: string)
    ensures Resident(Slide(spec, ws, e, g)) == Resident(ws) + 1
  {
    var key := Key(g, Millis(e.time));
    PutResident(ws, key, Slide(spec, ws, e, g)[key]);
  }

  lemma {:induction false} StepConserves(spec: Spec, ws: Windows, e: Event)
    requires Usable(spec)
    ensures var o := Step(spec, ws, e);
      Resident(o.windows) + (if spec.kind.Tumbling? then 0 else Reported(o.out)) == Resident(ws) + Members(spec, e)
  {
    var g := GroupKey(e, spec.groupBy);
    match spec.kind
    case Tumbling => TumbleResident(spec, ws, e, g);
    case Sliding => SlideResident(spec, ws, e, g);
    case Session => VisitResident(spec, ws, e, g);
    case Hopping =>
      HopResident(spec, ws, e, g, FirstWindow(spec, Millis(e.time)), LastWindow(spec, Millis(e.time)));
  }

  // One expiry.

  function Dropped(ws: Windows, order: seq<string>, n: nat): Windows
    requires n <= |order|
  {
    map k | k in ws && k !in order[..n] :: ws[k]
  }

  lemma {:induction false} DropResident(spec: Spec, ws: Windows, order: seq<string>, n: nat)
    requires n <= |order| && Distinct(order) && forall i :: 0 <= i < |order| ==> order[i] in ws
    ensures Resident(Dropped(ws, order, n)) + Reported(Expired(spec, ws, order[..n])) == Resident(ws)
  {
    if n == 0 {
      assert Dropped(ws, order, 0) == ws;
    } else {
      var k, before := order[n - 1], Dropped(ws, order, n - 1);
      DropResident(spec, ws, order, n - 1);
      assert k in before;
      SumRemove(before, Size, k);
      assert order[..n] == order[..n - 1] + [k];
      assert before - {k} == Dropped(ws, order, n);
      assert Expired(spec, ws, order[..n])[..n - 1] == Expired(spec, ws, order[..n - 1]);
    }
  }

  lemma {:induction false} ExpireConserves(spec: Spec, ws: Windows, now: int, order: seq<string>)
    requires Enumerates(ws, now, order)
    ensures Resident(Alive(ws, now)) + Reported(Expired(spec, ws, order)) == Resident(ws)
  {
    DropResident(spec, ws, order, |order|);
    assert order[..|order|] == order;
    forall k | k in ws ensures k in order <==> ws[k].end <= now {
      assert Due(ws, now, k) ==> k in order;
    }
    assert Dropped(ws, order, |order|) == Alive(ws, now);
  }

  /** Every membership is still resident or was reported once; only tumbling windows report
      events again, and exactly as many as they roll over. */
  lemma {:induction false} Conservation(spec: Spec, actions: seq<Action>, n: nat)
    requires Usable(spec) && n <= |actions| && RunTo(spec, actions, n).Some?
    ensures var s := RunTo(spec, actions, n).value;
      Reported(s.out) + Resident(s.ws) == AllMembers(spec, actions, n) + s.rolled
      && (s.rolled > 0 ==> spec.kind.Tumbling?)
  {
    if n == 0 {
      assert Resident(map[]) == 0;
    } else {
      Conservation(spec, actions, n - 1);
      var s := RunTo(spec, actions, n - 1).value;
      match actions[n - 1]
      case Arrive(e) =>
        StepConserves(spec, s.ws, e);
        ReportedConcat(s.out, Step(spec, s.ws, e).out);
      case Expire(now, order) =>
        ExpireConserves(spec, s.ws, now, order);
        ReportedConcat(s.out, Expired(spec, s.ws, order));
    }
  }

  // Tumbling windows report events without giving them up.

  /** Step i finds its group's tumbling window filled and started at another time. */
  ghost predicate RollsOver(spec: Spec, actions: seq<Action>, i: nat)
    requires Usable(spec) && i < |actions|
  {
    spec.kind.Tumbling? && RunTo(spec, actions, i).Some? && actions[i].Arrive? &&
    var e := actions[i].e;
    var w := At(RunTo(spec, actions, i).value.ws, GroupKey(e, spec.groupBy));
    w.events != [] && w.start != TumbleStart(spec, e.time)
  }

  lemma {:induction false} RolledAt(spec: Spec, ws: Windows, e: Event)
    requires Usable(spec) && spec.kind.Tumbling?
    ensures var w := At(ws, GroupKey(e, spec.groupBy));
      Reported(Step(spec, ws, e).out)
        == if w.events != [] && w.start != TumbleStart(spec, e.time) then |w.events| else 0
  {
    var out := Step(spec, ws, e).out;
    if out != [] { assert out[..0] == []; }
  }

  lemma {:induction false} RolledIff(spec: Spec, actions: seq<Action>, n: nat)
    requires Usable(spec) && n <= |actions| && RunTo(spec, actions, n).Some?
    ensures RunTo(spec, actions, n).value.rolled == 0 <==> forall i :: 0 <= i < n ==> !RollsOver(spec, actions, i)
  {
    if n > 0 {
      RolledIff(spec, actions, n - 1);
      var s := RunTo(spec, actions, n - 1).value;
      if spec.kind.Tumbling? && actions[n - 1].Arrive? { RolledAt(spec, s.ws, actions[n - 1].e); }
      assert RunTo(spec, actions, n).value.rolled == 0 <==> s.rolled == 0 && !RollsOver(spec, actions, n - 1);
    }
  }

  /** Every membership is reported once or still resident, in any interleaving of events and
      expiries, exactly when no tumbling window rolled over. */
  lemma {:induction false} ConservedIff(spec: Spec, actions: seq<Action>, n: nat)
    requires Usable(spec) && n <= |actions| && RunTo(spec, actions, n).Some?
    ensures var s := RunTo(spec, actions, n).value;
      (Reported(s.out) + Resident(s.ws) == AllMembers(spec, actions, n))
        <==> (forall i :: 0 <= i < n ==> !RollsOver(spec, actions, i))
  {
    Conservation(spec, actions, n);
    RolledIff(spec, actions, n);
  }

  predicate InGroup(spec: Spec, g: string, e: Event) { Grouped(e, spec.groupBy, g) }

  /** A tumbling window is never emptied: without expiry it holds every event of its group
      since the first, whatever its start and end say. */
  lemma {:induction false} TumblingCumulative(spec: Spec, events: seq<Event>, n: nat, g: string)
    requires n <= |events| && spec.kind.Tumbling? && Usable(spec)
    ensures At(Run(spec, events, n), g).events == Filter(e => InGroup(spec, g, e), events, n)
  {
    var f := e => InGroup(spec, g, e);
    HeldFilter(MoveOf(spec), events, n, g, f);
  }
}
