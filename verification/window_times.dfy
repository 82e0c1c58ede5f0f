/** What windows hold, in nanoseconds: which events stand in which interval. */
module WindowTimes {
  import opened Clock
  import opened Decimal
  import opened EventWindows
  import opened HoppingWindows
  import opened Sessions
  import opened TumblingRuns
  import opened WindowRuns

  // Hopping windows.

  lemma {:induction false} FilterHas(f: Event -> bool, events: seq<Event>, n: nat, e: Event)
    requires n <= |events|
    ensures e in Filter(f, events, n) <==> f(e) && exists i :: 0 <= i < n && events[i] == e
  {
    if n > 0 { FilterHas(f, events, n - 1, e); }
  }

  /** An event stands in the interval of a window: its time is at or after the start and before the
      end; a negative time may be up to a millisecond, exclusive, before the start. */
  predicate Stands(w: Window, e: Event) {
    if e.time >= 0 then w.start <= e.time < w.end else w.start - 1_000_000 < e.time <= w.end - 1_000_000
  }

  /** Without expiry, the events of every resident hopping window stand in its interval. */
  lemma {:induction false} ResidentTimes(spec: Spec, events: seq<Event>, n: nat, key: string, e: Event)
    requires n <= |events| && spec.kind.Hopping? && spec.slide > 0
    requires key in Run(spec, events, n) && e in Run(spec, events, n)[key].events
    ensures var w := Run(spec, events, n)[key];
      Stands(w, e) && Grouped(e, spec.groupBy, w.group) && w.end == w.start + spec.size * 1_000_000
  {
    var w := Run(spec, events, n)[key];
    ResidentExact(spec, events, n);
    var k: int :| Numbered(spec, key, w, k) && w.events == Belonging(spec, events, n, w.group, k);
    FilterHas(Belongs(spec, w.group, k), events, n, e);
    assert Within(spec, k, e.time);
  }

  /** And an event with a time from zero on is in the window of every number whose interval contains
      that time. */
  lemma {:induction false} EveryIntervalHolds(spec: Spec, events: seq<Event>, n: nat, i: nat, g: string, k: int)
    requires i < n <= |events| && spec.kind.Hopping? && spec.slide > 0
    requires Grouped(events[i], spec.groupBy, g) && events[i].time >= 0
    requires k * spec.slide * 1_000_000 <= events[i].time < (k * spec.slide + spec.size) * 1_000_000
    ensures Key(g, k) in Run(spec, events, n) && events[i] in Run(spec, events, n)[Key(g, k)].events
  {
    FilterHas(Belongs(spec, g, k), events, n, events[i]);
    HeldExactly(spec, events, n, g, k);
  }

  // Tumbling windows.

  lemma {:induction false} StartIs(spec: Spec, time: int, k: int)
    requires spec.size > 0 && k == TruncDiv(Millis(time), spec.size)
    ensures TumbleStart(spec, time) == k * spec.size * 1_000_000
  {
    assert spec.size * k == k * spec.size;
  }

  /** The bounds of a time from those of its milliseconds, in a window of this first one. */
  lemma {:induction false} PlaceBounds(time: int, ms: int, first: int, size: int)
    requires if time >= 0 then ms * 1_000_000 <= time < ms * 1_000_000 + 1_000_000
             else ms * 1_000_000 - 1_000_000 < time <= ms * 1_000_000
    requires if ms >= 0 then first <= ms < first + size else first - size < ms <= first
    requires time >= 0 ==> ms >= 0
    requires time < 0 && ms >= 0 ==> ms == first == 0 && size > 0
    ensures var start, length := first * 1_000_000, size * 1_000_000;
      if time >= 0 then start <= time < start + length else start - length < time <= start
  {
  }

  /** A tumbling window starts at a multiple of the size; a time from zero on stands in the window
      that starts at its place, a negative one in the window before it, or at its end. */
  lemma {:induction false} TumblePlace(spec: Spec, time: int)
    requires spec.size > 0
    ensures exists k: int :: TumbleStart(spec, time) == k * spec.size * 1_000_000
    ensures var start, length := TumbleStart(spec, time), spec.size * 1_000_000;
      if time >= 0 then start <= time < start + length else start - length < time <= start
  {
    var ms := Millis(time);
    var k := TruncDiv(ms, spec.size);
    StartIs(spec, time, k);
    MillisWithin(time);
    TruncWithin(ms, spec.size);
    if ms == 0 { assert k == 0; }
    PlaceBounds(time, ms, k * spec.size, spec.size);
  }

  /** After any run without an expiry at its end or later, the window of a group's last event
      contains that event's time, from zero on, and holds every event since it was last empty. */
  lemma {:induction false} TumblingContainsLast(spec: Spec, actions: seq<Action>, p: nat, n: nat, g: string)
    requires spec.kind.Tumbling? && spec.size > 0 && p < n <= |actions| && RunTo(spec, actions, n).Some?
    requires LastBefore(spec, actions, p, n, g) && actions[p].e.time >= 0
    requires forall r :: p < r < n && actions[r].Expire? ==>
      actions[r].now < TumbleStart(spec, actions[p].e.time) + spec.size * 1_000_000
    ensures var w := At(RunTo(spec, actions, n).value.ws, g);
      && w.events != [] && w.start <= actions[p].e.time < w.end && w.end == w.start + spec.size * 1_000_000
  {
    FilledIff(spec, actions, p, n, g);
    AlwaysProper(spec, actions, n, g);
    TumblePlace(spec, actions[p].e.time);
  }

  /** Moving on, a group's window is reported once, with its interval and all its events, and keeps
      them. */
  lemma {:induction false} TumblingReports(spec: Spec, ws: Windows, e: Event)
    requires spec.kind.Tumbling? && spec.size > 0
    ensures var g := GroupKey(e, spec.groupBy);
      var w, o := At(ws, g), Step(spec, ws, e);
      && o.out == (if w.events != [] && w.start != TumbleStart(spec, e.time)
                   then [WindowResult(spec.id, w.start, w.end, w.group, w.events)] else [])
      && At(o.windows, g).events == w.events + [e]
      && forall h :: h != g ==> At(o.windows, h) == At(ws, h)
  {
  }

  // Sliding windows.

  /** The times of one millisecond; that of zero reaches to both sides. */
  predicate InMilli(time: int, m: int) {
    if time >= 0 then m * 1_000_000 <= time < (m + 1) * 1_000_000 else (m - 1) * 1_000_000 < time <= m * 1_000_000
  }

  lemma {:induction false} InMilliIff(time: int, m: int)
    ensures InMilli(time, m) <==> Millis(time) == m
  {
    MillisWithin(time);
  }

  function OfMilli(spec: Spec, g: string, m: int): Event -> bool {
    (e: Event) => Grouped(e, spec.groupBy, g) && InMilli(e.time, m)
  }

  lemma {:induction false} SlideAt(spec: Spec, ws: Windows, e: Event, g: string, h: string, m: int)
    ensures At(Slide(spec, ws, e, g), Key(h, m)).events
         == At(ws, Key(h, m)).events + if h == g && InMilli(e.time, m) then [e] else []
  {
    InMilliIff(e.time, m);
    if Key(h, m) == Key(g, Millis(e.time)) { KeyInjective(h, m, g, Millis(e.time)); }
  }

  /** Without expiry, a sliding specification keeps one window for every group and millisecond, with
      the events of that group and millisecond. */
  lemma {:induction false} SlidingHeld(spec: Spec, events: seq<Event>, n: nat, g: string, m: int)
    requires n <= |events| && spec.kind.Sliding?
    ensures At(Run(spec, events, n), Key(g, m)).events == Filter(OfMilli(spec, g, m), events, n)
  {
    forall ws, e
      ensures At(MoveOf(spec)(ws, e), Key(g, m)).events
           == At(ws, Key(g, m)).events + if OfMilli(spec, g, m)(e) then [e] else []
    {
      SlideAt(spec, ws, e, GroupKey(e, spec.groupBy), g, m);
    }
    HeldFilter(MoveOf(spec), events, n, Key(g, m), OfMilli(spec, g, m));
  }

  predicate Opens(spec: Spec, w: Window, e: Event) {
    && w.start == e.time && w.end == e.time + spec.size * 1_000_000
    && Grouped(e, spec.groupBy, w.group) && w.events != [] && w.events[|w.events| - 1] == e
  }

  /** The window of an event just processed starts at its time and lasts for the size. */
  lemma {:induction false} SlidingSpan(spec: Spec, ws: Windows, e: Event)
    requires spec.kind.Sliding?
    ensures exists key :: key in Step(spec, ws, e).windows && Opens(spec, Step(spec, ws, e).windows[key], e)
  {
    assert Key(GroupKey(e, spec.groupBy), Millis(e.time)) in Step(spec, ws, e).windows;
  }
}
