/** Session windows: how a group's stream is cut into sessions. */
module Sessions {
  import opened Clock
  import opened EventWindows
  import opened WindowRuns
  import opened Wrappers

  /** The second event is no further from the first than the timeout, in milliseconds begun. */
  predicate Close(a: Event, b: Event, timeout: int) {
    var ns := b.time - a.time;
    if timeout >= 0 then ns < (timeout + 1) * 1_000_000 else ns <= timeout * 1_000_000
  }

  lemma {:induction false} CloseIff(a: Event, b: Event, timeout: int)
    ensures Close(a, b, timeout) <==> Millis(b.time - a.time) <= timeout
  {
    MillisWithin(b.time - a.time);
  }

  function Last(p: seq<Event>): Event
    requires p != []
  {
    p[|p| - 1]
  }

  function Flatten(parts: seq<seq<Event>>): seq<Event> {
    if parts == [] then [] else Flatten(parts[..|parts| - 1]) + parts[|parts| - 1]
  }

  /** No gap inside exceeds the timeout. */
  predicate Tight(p: seq<Event>, timeout: int) {
    p != [] && forall i :: 0 < i < |p| ==> Close(p[i - 1], p[i], timeout)
  }

  predicate AllTight(parts: seq<seq<Event>>, timeout: int) {
    forall i :: 0 <= i < |parts| ==> Tight(parts[i], timeout)
  }

  predicate CutAt(parts: seq<seq<Event>>, i: nat, timeout: int)
    requires 0 < i < |parts| && AllTight(parts, timeout)
  {
    !Close(Last(parts[i - 1]), parts[i][0], timeout)
  }

  /** The stream cut into maximal runs: no gap inside a part exceeds the timeout, every gap
      between two parts does. */
  predicate IsSplit(parts: seq<seq<Event>>, events: seq<Event>, timeout: int) {
    && Flatten(parts) == events
    && AllTight(parts, timeout)
    && forall i :: 0 < i < |parts| ==> CutAt(parts, i, timeout)
  }

  // The split is unique.

  lemma {:induction false} GapBeforeTail(a: seq<seq<Event>>, events: seq<Event>, timeout: int)
    requires IsSplit(a, events, timeout) && a != [] && |a[|a| - 1]| < |events|
    ensures var at := |events| - |a[|a| - 1]|; !Close(events[at - 1], events[at], timeout)
  {
    var at, init := |events| - |a[|a| - 1]|, a[..|a| - 1];
    assert |Flatten(init)| == at;
    assert init != [];
    var prev := init[|init| - 1];
    assert Flatten(init) == Flatten(init[..|init| - 1]) + prev;
    assert CutAt(a, |a| - 1, timeout);
    assert events[at - 1] == Last(prev) && events[at] == a[|a| - 1][0];
  }

  lemma {:induction false} TailLength(a: seq<seq<Event>>, b: seq<seq<Event>>, events: seq<Event>, timeout: int)
    requires IsSplit(a, events, timeout) && IsSplit(b, events, timeout) && a != [] && b != []
    ensures |a[|a| - 1]| >= |b[|b| - 1]|
  {
    assert |Flatten(a[..|a| - 1])| + |a[|a| - 1]| == |events| == |Flatten(b[..|b| - 1])| + |b[|b| - 1]|;
    var at: nat := |events| - |a[|a| - 1]|;
    if |events| - |b[|b| - 1]| < at < |events| {
      GapBeforeTail(a, events, timeout);
    }
  }

  lemma {:induction false} SplitUnique(a: seq<seq<Event>>, b: seq<seq<Event>>, events: seq<Event>, timeout: int)
    requires IsSplit(a, events, timeout) && IsSplit(b, events, timeout)
    ensures a == b
  {
    if a != [] && b != [] {
      TailLength(a, b, events, timeout);
      TailLength(b, a, events, timeout);
      var x, rest := a[|a| - 1], events[..|events| - |a[|a| - 1]|];
      assert Flatten(a[..|a| - 1]) == rest == Flatten(b[..|b| - 1]);
      assert x == events[|rest|..] == b[|b| - 1];
      SplitPrefix(a, events, timeout);
      SplitPrefix(b, events, timeout);
      SplitUnique(a[..|a| - 1], b[..|b| - 1], rest, timeout);
      assert a == a[..|a| - 1] + [x] && b == b[..|b| - 1] + [x];
    }
  }

  lemma {:induction false} SplitPrefix(a: seq<seq<Event>>, events: seq<Event>, timeout: int)
    requires IsSplit(a, events, timeout) && a != []
    ensures IsSplit(a[..|a| - 1], Flatten(a[..|a| - 1]), timeout)
  {
    var b := a[..|a| - 1];
    assert AllTight(b, timeout);
    forall i | 0 < i < |b| ensures CutAt(b, i, timeout) {
      assert CutAt(a, i, timeout);
    }
  }

  // One group's view of a run.

  /** The sessions among the first n results of a group, as their events, in order. */
  function PartsTo(out: seq<WindowResult>, n: nat, g: string): seq<seq<Event>>
    requires n <= |out|
  {
    if n == 0 then [] else PartsTo(out, n - 1, g) + if out[n - 1].group == g then [out[n - 1].events] else []
  }

  function Parts(out: seq<WindowResult>, g: string): seq<seq<Event>> { PartsTo(out, |out|, g) }

  /** The sessions of a group so far: those reported, then the open one. */
  function SessionsOf(s: State, g: string): seq<seq<Event>> {
    Sessions(s.out, At(s.ws, g), g)
  }

  /** A session window spans its own events and stands under its group. */
  predicate Spans(w: Window, g: string) {
    w.group == g && w.events != [] && w.start == w.events[0].time && w.end == Last(w.events).time
  }

  predicate AllSpan(ws: Windows) { forall g :: g in ws ==> Spans(ws[g], g) }

  lemma {:induction false} PartsPrefix(a: seq<WindowResult>, b: seq<WindowResult>, n: nat, g: string)
    requires n <= |a| && n <= |b| && forall i :: 0 <= i < n ==> a[i] == b[i]
    ensures PartsTo(a, n, g) == PartsTo(b, n, g)
  {
    if n > 0 { PartsPrefix(a, b, n - 1, g); }
  }

  lemma {:induction false} PartsConcatTo(a: seq<WindowResult>, b: seq<WindowResult>, n: nat, g: string)
    requires n <= |b|
    ensures PartsTo(a + b, |a| + n, g) == Parts(a, g) + PartsTo(b, n, g)
  {
    if n == 0 { PartsPrefix(a + b, a, |a|, g); } else { PartsConcatTo(a, b, n - 1, g); }
  }

  lemma {:induction false} PartsConcat(a: seq<WindowResult>, b: seq<WindowResult>, g: string)
    ensures Parts(a + b, g) == Parts(a, g) + Parts(b, g)
  {
    PartsConcatTo(a, b, |b|, g);
  }

  lemma {:induction false} PartsOne(r: WindowResult, g: string)
    ensures Parts([r], g) == if r.group == g then [r.events] else []
  {
    assert PartsTo([r], 0, g) == [];
  }

  /** A list of results whose groups are distinct has at most one part of a group. */
  lemma {:induction false} DistinctParts(out: seq<WindowResult>, n: nat, g: string)
    requires n <= |out| && forall i, j :: 0 <= i < j < |out| ==> out[i].group != out[j].group
    ensures (forall i :: 0 <= i < n ==> out[i].group != g) ==> PartsTo(out, n, g) == []
    ensures forall i :: 0 <= i < n && out[i].group == g ==> PartsTo(out, n, g) == [out[i].events]
  {
    if n > 0 { DistinctParts(out, n - 1, g); }
  }

  lemma {:induction false} ExpiredParts(spec: Spec, ws: Windows, now: int, order: seq<string>, g: string)
    requires AllSpan(ws) && Enumerates(ws, now, order)
    ensures Parts(Expired(spec, ws, order), g) == if Due(ws, now, g) then [ws[g].events] else []
  {
    var out := Expired(spec, ws, order);
    forall i | 0 <= i < |out| ensures out[i].group == order[i] && out[i].events == ws[order[i]].events {
      assert Due(ws, now, order[i]);
    }
    DistinctParts(out, |out|, g);
    if Due(ws, now, g) {
      var i :| 0 <= i < |order| && order[i] == g;
      assert out[i].group == g;
    }
  }

  /** Expiry closes the sessions that are due and reports each once. */
  lemma {:induction false} ExpireSessions(spec: Spec, s: State, now: int, order: seq<string>, g: string)
    requires Usable(spec) && AllSpan(s.ws) && Enumerates(s.ws, now, order)
    ensures var s' := After(spec, s, Expire(now, order)).value; SessionsOf(s', g) == SessionsOf(s, g) && AllSpan(s'.ws)
  {
    ExpiredParts(spec, s.ws, now, order, g);
    PartsConcat(s.out, Expired(spec, s.ws, order), g);
  }

  /** An event that opens a session of its own, or joins the last one. */
  function Opened(parts: seq<seq<Event>>, e: Event): seq<seq<Event>> { parts + [[e]] }

  function Joined(parts: seq<seq<Event>>, e: Event): seq<seq<Event>>
    requires parts != []
  {
    parts[..|parts| - 1] + [parts[|parts| - 1] + [e]]
  }

  /** The group's next event starts a session: none is open, or the gap is too long. */
  predicate Starts(spec: Spec, w: Window, e: Event) { w.events == [] || Millis(e.time - w.end) > spec.gap }

  function Sessions(out: seq<WindowResult>, w: Window, g: string): seq<seq<Event>> {
    Parts(out, g) + if w.events == [] then [] else [w.events]
  }

  lemma {:induction false} VisitSessions(spec: Spec, ws: Windows, e: Event, g: string, out: seq<WindowResult>)
    requires AllSpan(ws)
    ensures var o, w := Visit(spec, ws, e, g), At(ws, g);
      && (!Starts(spec, w, e) ==> Sessions(out, w, g) != [])
      && Sessions(out + o.out, At(o.windows, g), g)
         == if Starts(spec, w, e) then Opened(Sessions(out, w, g), e) else Joined(Sessions(out, w, g), e)
  {
    var o, w := Visit(spec, ws, e, g), At(ws, g);
    PartsConcat(out, o.out, g);
    if o.out != [] { PartsOne(ResultOf(spec, w), g); }
  }

  lemma {:induction false} VisitElsewhere(spec: Spec, ws: Windows, e: Event, g: string, out: seq<WindowResult>,
      h: string)
    requires AllSpan(ws) && g != h
    ensures var o := Visit(spec, ws, e, g);
      At(o.windows, h) == At(ws, h) && Sessions(out + o.out, At(o.windows, h), h) == Sessions(out, At(ws, h), h)
  {
    var o := Visit(spec, ws, e, g);
    PartsConcat(out, o.out, h);
    if o.out != [] { PartsOne(ResultOf(spec, At(ws, g)), h); }
  }

  // The two ways a list of parts grows.

  predicate Cut(parts: seq<seq<Event>>, timeout: int)
    requires AllTight(parts, timeout)
  {
    forall i :: 0 < i < |parts| ==> CutAt(parts, i, timeout)
  }

  lemma {:induction false} OpenedParts(parts: seq<seq<Event>>, e: Event, timeout: int)
    requires AllTight(parts, timeout)
    ensures Flatten(Opened(parts, e)) == Flatten(parts) + [e] && AllTight(Opened(parts, e), timeout)
    ensures Cut(Opened(parts, e), timeout)
       <==> Cut(parts, timeout) && (parts == [] || !Close(Last(parts[|parts| - 1]), e, timeout))
  {
    var q := Opened(parts, e);
    assert q[..|q| - 1] == parts;
    forall i | 0 < i < |parts| ensures CutAt(q, i, timeout) <==> CutAt(parts, i, timeout) {
    }
    if Cut(q, timeout) {
      forall i | 0 < i < |parts| ensures CutAt(parts, i, timeout) { assert CutAt(q, i, timeout); }
      if parts != [] { assert CutAt(q, |parts|, timeout); }
    }
  }

  lemma {:induction false} JoinedParts(parts: seq<seq<Event>>, e: Event, timeout: int)
    requires AllTight(parts, timeout) && parts != [] && Close(Last(parts[|parts| - 1]), e, timeout)
    ensures Flatten(Joined(parts, e)) == Flatten(parts) + [e] && AllTight(Joined(parts, e), timeout)
    ensures Cut(Joined(parts, e), timeout) <==> Cut(parts, timeout)
  {
    var q, n := Joined(parts, e), |parts| - 1;
    assert q[..n] == parts[..n];
    assert Tight(q[n], timeout);
    forall i | 0 < i < |parts| ensures CutAt(q, i, timeout) <==> CutAt(parts, i, timeout) {
    }
    if Cut(q, timeout) { forall i | 0 < i < |parts| ensures CutAt(parts, i, timeout) { assert CutAt(q, i, timeout); } }
  }

  // Whole runs.

  /** The event finds its group's last session closed by expiry although the gap timeout has
      not passed. */
  predicate Early(spec: Spec, s: State, e: Event, g: string)
    requires AllTight(SessionsOf(s, g), spec.gap)
  {
    var parts := SessionsOf(s, g);
    At(s.ws, g).events == [] && parts != [] && Close(Last(parts[|parts| - 1]), e, spec.gap)
  }

  /** What holds after a run of a session specification, for one group: its sessions in order
      are its stream, with no gap too long inside one. */
  ghost predicate SessionFacts(spec: Spec, s: State, stream: seq<Event>, g: string) {
    AllSpan(s.ws) && Flatten(SessionsOf(s, g)) == stream && AllTight(SessionsOf(s, g), spec.gap)
  }

  /** What an action adds to a group's stream. */
  function Added(spec: Spec, a: Action, g: string): seq<Event> {
    if a.Arrive? && InGroup(spec, g, a.e) then [a.e] else []
  }

  lemma {:induction false} GrowParts(spec: Spec, parts: seq<seq<Event>>, w: Window, e: Event)
    requires AllTight(parts, spec.gap)
    requires w.events != [] ==> parts != [] && parts[|parts| - 1] == w.events && w.end == Last(w.events).time
    ensures var grown := if Starts(spec, w, e) then Opened(parts, e) else Joined(parts, e);
      && Flatten(grown) == Flatten(parts) + [e] && AllTight(grown, spec.gap)
      && (Cut(grown, spec.gap)
          <==> Cut(parts, spec.gap) && !(w.events == [] && parts != [] && Close(Last(parts[|parts| - 1]), e, spec.gap)))
  {
    if w.events != [] { CloseIff(Last(w.events), e, spec.gap); }
    if Starts(spec, w, e) { OpenedParts(parts, e, spec.gap); } else { JoinedParts(parts, e, spec.gap); }
  }

  lemma {:induction false} VisitSpans(spec: Spec, ws: Windows, e: Event, g: string)
    requires AllSpan(ws)
    ensures AllSpan(Visit(spec, ws, e, g).windows)
  {
  }

  lemma {:induction false} SessionArrive(spec: Spec, s: State, stream: seq<Event>, e: Event, g: string)
    requires spec.kind.Session? && InGroup(spec, g, e) && SessionFacts(spec, s, stream, g)
    ensures var o := Visit(spec, s.ws, e, g);
      && AllSpan(o.windows) && Flatten(Sessions(s.out + o.out, At(o.windows, g), g)) == stream + [e]
      && AllTight(Sessions(s.out + o.out, At(o.windows, g), g), spec.gap)
      && (Cut(Sessions(s.out + o.out, At(o.windows, g), g), spec.gap)
          <==> Cut(SessionsOf(s, g), spec.gap) && !Early(spec, s, e, g))
  {
    VisitSpans(spec, s.ws, e, g);
    VisitSessions(spec, s.ws, e, g, s.out);
    GrowParts(spec, SessionsOf(s, g), At(s.ws, g), e);
  }

  lemma {:induction false} SessionStep(spec: Spec, s: State, stream: seq<Event>, a: Action, g: string)
    requires spec.kind.Session? && SessionFacts(spec, s, stream, g) && After(spec, s, a).Some?
    ensures var s' := After(spec, s, a).value;
      SessionFacts(spec, s', stream + Added(spec, a, g), g)
      && (Cut(SessionsOf(s', g), spec.gap)
          <==> Cut(SessionsOf(s, g), spec.gap) && !(Added(spec, a, g) != [] && Early(spec, s, a.e, g)))
  {
    match a
    case Arrive(e) =>
      if InGroup(spec, g, e) {
        SessionArrive(spec, s, stream, e, g);
      } else {
        VisitElsewhere(spec, s.ws, e, GroupKey(e, spec.groupBy), s.out, g);
      }
    case Expire(now, order) => ExpireSessions(spec, s, now, order, g);
  }

  /** The group's events in a run's first n actions. */
  function Stream(spec: Spec, actions: seq<Action>, n: nat, g: string): seq<Event>
    requires n <= |actions|
  {
    if n == 0 then [] else Stream(spec, actions, n - 1, g) + Added(spec, actions[n - 1], g)
  }

  /** In any interleaving of events and expiries, a group's sessions, those reported and then
      the open one, are its stream in order, and no session has a gap over the timeout. */
  lemma {:induction false} SessionContents(spec: Spec, actions: seq<Action>, n: nat, g: string)
    requires spec.kind.Session? && n <= |actions| && RunTo(spec, actions, n).Some?
    ensures SessionFacts(spec, RunTo(spec, actions, n).value, Stream(spec, actions, n, g), g)
  {
    if n > 0 {
      SessionContents(spec, actions, n - 1, g);
      SessionStep(spec, RunTo(spec, actions, n - 1).value, Stream(spec, actions, n - 1, g), actions[n - 1], g);
    }
  }

  /** A session as it is reported: from its first event to its last. */
  predicate Spanned(spec: Spec, r: WindowResult) {
    r.specId == spec.id && r.events != [] && r.start == r.events[0].time && r.end == Last(r.events).time
  }

  lemma {:induction false} ReportsSpan(spec: Spec, s: State, a: Action)
    requires spec.kind.Session? && AllSpan(s.ws) && After(spec, s, a).Some?
    requires forall r :: r in s.out ==> Spanned(spec, r)
    ensures AllSpan(After(spec, s, a).value.ws) && forall r :: r in After(spec, s, a).value.out ==> Spanned(spec, r)
  {
    match a
    case Arrive(e) => VisitSpans(spec, s.ws, e, GroupKey(e, spec.groupBy));
    case Expire(now, order) =>
      forall r | r in Expired(spec, s.ws, order) ensures Spanned(spec, r) {
        var i :| 0 <= i < |order| && Expired(spec, s.ws, order)[i] == r;
        assert Due(s.ws, now, order[i]);
      }
  }

  /** In any interleaving every session reported spans its own events, from the first to the last. */
  lemma {:induction false} SessionSpans(spec: Spec, actions: seq<Action>, n: nat)
    requires spec.kind.Session? && n <= |actions| && RunTo(spec, actions, n).Some?
    ensures AllSpan(RunTo(spec, actions, n).value.ws)
    ensures forall r :: r in RunTo(spec, actions, n).value.out ==> Spanned(spec, r)
  {
    if n > 0 {
      SessionSpans(spec, actions, n - 1);
      ReportsSpan(spec, RunTo(spec, actions, n - 1).value, actions[n - 1]);
    }
  }

  /** The action brings an event that expiry has cut off from its session. */
  predicate CutNow(spec: Spec, s: State, a: Action, g: string)
    requires AllTight(SessionsOf(s, g), spec.gap)
  {
    Added(spec, a, g) != [] && Early(spec, s, a.e, g)
  }

  /** Action i is such an action. */
  ghost predicate CutEarly(spec: Spec, actions: seq<Action>, i: nat, g: string)
    requires spec.kind.Session? && i < |actions|
  {
    && RunTo(spec, actions, i).Some? && AllTight(SessionsOf(RunTo(spec, actions, i).value, g), spec.gap)
    && CutNow(spec, RunTo(spec, actions, i).value, actions[i], g)
  }

  ghost predicate NoneEarly(spec: Spec, actions: seq<Action>, n: nat, g: string)
    requires spec.kind.Session? && n <= |actions|
  {
    forall i :: 0 <= i < n ==> !CutEarly(spec, actions, i, g)
  }

  lemma {:induction false} EarlyIs(spec: Spec, actions: seq<Action>, i: nat, g: string, s: State)
    requires spec.kind.Session? && i < |actions| && RunTo(spec, actions, i) == Some(s)
    requires AllTight(SessionsOf(s, g), spec.gap)
    ensures CutEarly(spec, actions, i, g) <==> CutNow(spec, s, actions[i], g)
  {
  }

  lemma {:induction false} CutBy(spec: Spec, s: State, stream: seq<Event>, a: Action, s': State, g: string)
    requires spec.kind.Session? && SessionFacts(spec, s, stream, g) && After(spec, s, a) == Some(s')
    ensures AllTight(SessionsOf(s', g), spec.gap)
    ensures Cut(SessionsOf(s', g), spec.gap) <==> Cut(SessionsOf(s, g), spec.gap) && !CutNow(spec, s, a, g)
  {
    SessionStep(spec, s, stream, a, g);
  }

  lemma {:induction false} RunNext(spec: Spec, actions: seq<Action>, n: nat)
    requires Usable(spec) && n < |actions| && RunTo(spec, actions, n + 1).Some?
    ensures RunTo(spec, actions, n).Some?
        && After(spec, RunTo(spec, actions, n).value, actions[n]) == RunTo(spec, actions, n + 1)
  {
  }

  lemma {:induction false} CutIff(spec: Spec, actions: seq<Action>, n: nat, g: string)
    requires spec.kind.Session? && n <= |actions| && RunTo(spec, actions, n).Some?
    requires AllTight(SessionsOf(RunTo(spec, actions, n).value, g), spec.gap)
    ensures Cut(SessionsOf(RunTo(spec, actions, n).value, g), spec.gap) <==> NoneEarly(spec, actions, n, g)
  {
    if n > 0 {
      RunNext(spec, actions, n - 1);
      SessionContents(spec, actions, n - 1, g);
      CutIff(spec, actions, n - 1, g);
      var s := RunTo(spec, actions, n - 1).value;
      EarlyIs(spec, actions, n - 1, g, s);
      CutBy(spec, s, Stream(spec, actions, n - 1, g), actions[n - 1], RunTo(spec, actions, n).value, g);
      NoneEarlySplit(spec, actions, n, g);
    }
  }

  // The same over the actions alone.

  /** Action p brings the group's last event before action q. */
  predicate LastBefore(spec: Spec, actions: seq<Action>, p: nat, q: nat, g: string)
    requires p < q <= |actions|
  {
    Added(spec, actions[p], g) != [] && forall k :: p < k < q ==> Added(spec, actions[k], g) == []
  }

  /** Between the two an expiry runs at the time of p's event or later. */
  predicate ExpiredIn(actions: seq<Action>, p: nat, q: nat)
    requires p < q <= |actions| && actions[p].Arrive?
  {
    exists r :: p < r < q && actions[r].Expire? && actions[r].now >= actions[p].e.time
  }

  /** Actions p and q bring consecutive events of the group, no further apart than the timeout,
      and an expiry between them runs at the first one's time or later. */
  predicate CutOff(spec: Spec, actions: seq<Action>, p: nat, q: nat, g: string)
    requires p < q < |actions|
  {
    && LastBefore(spec, actions, p, q, g) && Added(spec, actions[q], g) != []
    && Close(actions[p].e, actions[q].e, spec.gap) && ExpiredIn(actions, p, q)
  }

  lemma {:induction false} StreamEnds(stream: seq<Event>, added: seq<Event>)
    ensures added == [] ==> stream + added == stream
    ensures added != [] ==> stream + added != [] && Last(stream + added) == Last(added)
  {
  }

  lemma {:induction false} LastStream(spec: Spec, actions: seq<Action>, p: nat, n: nat, g: string)
    requires p < n <= |actions| && LastBefore(spec, actions, p, n, g)
    ensures Stream(spec, actions, n, g) != [] && Last(Stream(spec, actions, n, g)) == actions[p].e
  {
    StreamEnds(Stream(spec, actions, n - 1, g), Added(spec, actions[n - 1], g));
    if p < n - 1 {
      LastBeforeStays(spec, actions, p, n, g);
      LastStream(spec, actions, p, n - 1, g);
    }
  }

  lemma {:induction false} LastBeforeStays(spec: Spec, actions: seq<Action>, p: nat, n: nat, g: string)
    requires p < n - 1 && n <= |actions| && LastBefore(spec, actions, p, n, g)
    ensures LastBefore(spec, actions, p, n - 1, g) && Added(spec, actions[n - 1], g) == []
  {
  }

  lemma {:induction false} FindLast(spec: Spec, actions: seq<Action>, n: nat, g: string) returns (p: nat)
    requires n <= |actions| && Stream(spec, actions, n, g) != []
    ensures p < n && LastBefore(spec, actions, p, n, g)
  {
    if Added(spec, actions[n - 1], g) != [] {
      p := n - 1;
    } else {
      p := FindLast(spec, actions, n - 1, g);
    }
  }

  /** One action and the group's open session: its own event opens or extends it, an expiry at
      or after its end closes it, and nothing else touches it. */
  lemma {:induction false} OpenStep(spec: Spec, s: State, a: Action, g: string)
    requires spec.kind.Session? && AllSpan(s.ws) && After(spec, s, a).Some?
    ensures var w, w' := At(s.ws, g), At(After(spec, s, a).value.ws, g);
      if Added(spec, a, g) != [] then w'.events != [] && w'.end == a.e.time
      else if a.Expire? && w.events != [] && w.end <= a.now then w'.events == []
      else w' == w || (w.events == [] && w'.events == [])
  {
    if a.Arrive? && !InGroup(spec, g, a.e) { VisitElsewhere(spec, s.ws, a.e, GroupKey(a.e, spec.groupBy), s.out, g); }
  }

  /** The session of the group's last event is closed exactly when an expiry has run at its time
      or later. */
  lemma {:induction false} ClosedIff(spec: Spec, actions: seq<Action>, p: nat, n: nat, g: string)
    requires spec.kind.Session? && p < n <= |actions| && RunTo(spec, actions, n).Some?
        && LastBefore(spec, actions, p, n, g)
    ensures var w := At(RunTo(spec, actions, n).value.ws, g);
      (w.events == [] <==> ExpiredIn(actions, p, n)) && (w.events != [] ==> w.end == actions[p].e.time)
  {
    var s, a := RunTo(spec, actions, n - 1).value, actions[n - 1];
    SessionContents(spec, actions, n - 1, g);
    OpenStep(spec, s, a, g);
    if p < n - 1 {
      ClosedIff(spec, actions, p, n - 1, g);
      ExpiredLater(actions, p, n);
    }
  }

  lemma {:induction false} ExpiredLater(actions: seq<Action>, p: nat, n: nat)
    requires p < n - 1 && n <= |actions| && actions[p].Arrive?
    ensures ExpiredIn(actions, p, n)
       <==> ExpiredIn(actions, p, n - 1) || (actions[n - 1].Expire? && actions[n - 1].now >= actions[p].e.time)
  {
  }

  lemma {:induction false} LastOfParts(parts: seq<seq<Event>>, timeout: int)
    requires AllTight(parts, timeout)
    ensures parts == [] <==> Flatten(parts) == []
    ensures parts != [] ==> Last(Flatten(parts)) == Last(parts[|parts| - 1])
  {
    if parts != [] { assert Tight(parts[|parts| - 1], timeout); }
  }

  predicate CutOffAt(spec: Spec, actions: seq<Action>, q: nat, g: string)
    requires q < |actions|
  {
    exists p :: 0 <= p < q && CutOff(spec, actions, p, q, g)
  }

  lemma {:induction false} CutEarlyIff(spec: Spec, actions: seq<Action>, q: nat, g: string)
    requires spec.kind.Session? && q < |actions| && RunTo(spec, actions, q).Some?
    ensures CutEarly(spec, actions, q, g) <==> CutOffAt(spec, actions, q, g)
  {
    var s, stream := RunTo(spec, actions, q).value, Stream(spec, actions, q, g);
    SessionContents(spec, actions, q, g);
    LastOfParts(SessionsOf(s, g), spec.gap);
    if Added(spec, actions[q], g) != [] && stream != [] {
      var p := FindLast(spec, actions, q, g);
      LastStream(spec, actions, p, q, g);
      ClosedIff(spec, actions, p, q, g);
      assert CutEarly(spec, actions, q, g) <==> CutOff(spec, actions, p, q, g);
      forall k | 0 <= k < q && CutOff(spec, actions, k, q, g) ensures k == p { OneLast(spec, actions, k, p, q, g); }
    } else {
      forall k | 0 <= k < q ensures !CutOff(spec, actions, k, q, g) {
        if LastBefore(spec, actions, k, q, g) { LastStream(spec, actions, k, q, g); }
      }
    }
  }

  lemma {:induction false} OneLast(spec: Spec, actions: seq<Action>, a: nat, b: nat, q: nat, g: string)
    requires a < q <= |actions| && b < q && LastBefore(spec, actions, a, q, g) && LastBefore(spec, actions, b, q, g)
    ensures a == b
  {
  }

  /** In any interleaving of events and expiries, the sessions are the unique split of the group's
      stream if and only if no expiry stands between two consecutive events of the group, no
      further apart than the timeout, at the first one's time or later. */
  lemma {:induction false} SplitIff(spec: Spec, actions: seq<Action>, n: nat, g: string)
    requires spec.kind.Session? && n <= |actions| && RunTo(spec, actions, n).Some?
    ensures IsSplit(SessionsOf(RunTo(spec, actions, n).value, g), Stream(spec, actions, n, g), spec.gap)
       <==> forall p, q :: 0 <= p < q < n ==> !CutOff(spec, actions, p, q, g)
  {
    SessionContents(spec, actions, n, g);
    CutIff(spec, actions, n, g);
    NoneEarlyIff(spec, actions, n, g);
  }

  predicate NoCutOff(spec: Spec, actions: seq<Action>, n: nat, g: string)
    requires n <= |actions|
  {
    forall p, q :: 0 <= p < q < n ==> !CutOff(spec, actions, p, q, g)
  }

  lemma {:induction false} NoCutOffNext(spec: Spec, actions: seq<Action>, n: nat, g: string)
    requires n < |actions|
    ensures NoCutOff(spec, actions, n + 1, g) <==> NoCutOff(spec, actions, n, g) && !CutOffAt(spec, actions, n, g)
  {
  }

  lemma {:induction false} NoneEarlyIff(spec: Spec, actions: seq<Action>, n: nat, g: string)
    requires spec.kind.Session? && n <= |actions| && RunTo(spec, actions, n).Some?
    ensures NoneEarly(spec, actions, n, g) <==> NoCutOff(spec, actions, n, g)
  {
    if n > 0 {
      NoneEarlyIff(spec, actions, n - 1, g);
      NoneEarlySplit(spec, actions, n, g);
      NoCutOffNext(spec, actions, n - 1, g);
      CutEarlyIff(spec, actions, n - 1, g);
    }
  }

  lemma {:induction false} NoneEarlySplit(spec: Spec, actions: seq<Action>, n: nat, g: string)
    requires spec.kind.Session? && 0 < n <= |actions|
    ensures NoneEarly(spec, actions, n, g) <==> NoneEarly(spec, actions, n - 1, g) && !CutEarly(spec, actions, n - 1, g)
  {
  }

  /** Without expiry the sessions always are the unique split. */
  lemma {:induction false} SplitWithoutExpiry(spec: Spec, actions: seq<Action>, n: nat, g: string)
    requires spec.kind.Session? && n <= |actions| && RunTo(spec, actions, n).Some?
    requires forall i :: 0 <= i < n ==> actions[i].Arrive?
    ensures IsSplit(SessionsOf(RunTo(spec, actions, n).value, g), Stream(spec, actions, n, g), spec.gap)
  {
    SplitIff(spec, actions, n, g);
  }

  /** A session that expiry closes at once: two events a millisecond apart, a timeout of a
      minute, and an expiry at the first event's own time give two sessions. */
  lemma {:induction false} ExpiryCutsEarly(a: Event, b: Event)
    requires b.time == a.time + NS_PER_MS
    ensures var spec := Spec("s", Session, 0, 0, 60_000, "");
      var actions := [Arrive(a), Expire(a.time, ["_global_"]), Arrive(b)];
      RunTo(spec, actions, 3).Some? && SessionsOf(RunTo(spec, actions, 3).value, "_global_") == [[a], [b]]
  {
    var spec := Spec("s", Session, 0, 0, 60_000, "");
    var actions := [Arrive(a), Expire(a.time, ["_global_"]), Arrive(b)];
    assert RunTo(spec, actions, 0) == Some(State(map[], [], 0));
    var w := Window(a.time, a.time, "_global_", [a]);
    var s1 := RunTo(spec, actions, 1).value;
    assert s1.ws == map["_global_" := w] && s1.out == [];
    assert Enumerates(s1.ws, a.time, ["_global_"]) by { assert "_global_" in ["_global_"]; }
    var r := ResultOf(spec, w);
    var s2 := RunTo(spec, actions, 2).value;
    assert s2.ws == map[] && s2.out == [r];
    var s3 := RunTo(spec, actions, 3).value;
    assert s3.out == [r] && At(s3.ws, "_global_").events == [b];
    PartsOne(r, "_global_");
  }
}
