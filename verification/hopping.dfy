/** Hopping windows: which windows an event joins, and what a window then holds. */
module HoppingWindows {
  import Bits
  import opened Clock
  import opened Decimal
  import opened EventWindows

  lemma {:induction false} FloorLe(n: int, x: int, s: int)
    requires s > 0
    ensures n <= x / s <==> n * s <= x
  {
    var q := x / s;
    assert q * s <= x < q * s + s;
    if n <= q {
      Bits.MulLe(n, q, s);
    } else {
      Bits.MulLe(q + 1, n, s);
      assert (q + 1) * s == q * s + s;
    }
  }

  /** Truncation never goes above the next multiple, nor below the last one. */
  lemma {:induction false} TruncBounds(x: int, s: int)
    requires s > 0
    ensures x / s <= TruncDiv(x, s) <= x / s + 1
    ensures TruncDiv(x, s) > x / s ==> x < 0
  {
    if x < 0 {
      FloorLe(TruncDiv(x, s), x, s);
      FloorLe(TruncDiv(x, s) - 1, x, s);
      var q := (-x) / s;
      assert q * s <= -x < q * s + s;
      assert (-q - 1) * s == -(q * s) - s;
      FloorLe(-q - 1, x, s);
      FloorLe(-q + 1, x, s);
      assert (-q + 1) * s == -(q * s) + s;
    }
  }

  /** The windows that cover a time are those numbered after (ms - size) / slide and up to
      ms / slide, both rounded down. */
  lemma {:induction false} CoversIff(spec: Spec, n: int, ms: int)
    requires spec.slide > 0
    ensures Covers(spec, n, ms) <==> (ms - spec.size) / spec.slide < n <= ms / spec.slide
  {
    FloorLe(n, ms, spec.slide);
    FloorLe(n, ms - spec.size, spec.slide);
  }

  /** Window k contains a time in nanoseconds, a negative one moved up by less than a millisecond. */
  predicate Within(spec: Spec, k: int, time: int) {
    var t := if time >= 0 then time else time + 999_999;
    k * spec.slide * 1_000_000 <= t < (k * spec.slide + spec.size) * 1_000_000
  }

  lemma {:induction false} WithinIff(spec: Spec, k: int, time: int)
    ensures Covers(spec, k, Millis(time)) <==> Within(spec, k, time)
  {
    MillisWithin(time);
  }

  /** The loop's truncated bounds miss no covering window, for negative times as well. */
  lemma {:induction false} LoopMissesNone(spec: Spec, n: int, ms: int)
    requires spec.slide > 0 && Covers(spec, n, ms)
    ensures FirstWindow(spec, ms) <= n <= LastWindow(spec, ms)
  {
    CoversIff(spec, n, ms);
    TruncBounds(ms, spec.slide);
    TruncBounds(ms - spec.size, spec.slide);
  }

  lemma {:induction false} JoinAt(spec: Spec, ws: Windows, e: Event, g: string, n: int, h: string, k: int)
    ensures At(Join(spec, ws, e, g, n), Key(h, k)).events
         == At(ws, Key(h, k)).events + if h == g && k == n then [e] else []
  {
    if Key(h, k) == Key(g, n) { KeyInjective(h, k, g, n); }
  }

  lemma {:induction false} HopFromAt(spec: Spec, ws: Windows, e: Event, g: string, n: int, last: int, h: string, k: int)
    ensures At(HopFrom(spec, ws, e, g, n, last), Key(h, k)).events
         == At(ws, Key(h, k)).events + if h == g && n <= k <= last && Covers(spec, k, Millis(e.time)) then [e] else []
    decreases last - n
  {
    if n <= last {
      var ws' := if Covers(spec, n, Millis(e.time)) then Join(spec, ws, e, g, n) else ws;
      JoinAt(spec, ws, e, g, n, h, k);
      HopFromAt(spec, ws', e, g, n + 1, last, h, k);
    }
  }

  /** A hopping specification puts an event into exactly the windows of its group that cover
      its time, once each, and touches no other window of any group. */
  lemma {:induction false} HoppingExact(spec: Spec, ws: Windows, e: Event, g: string, h: string, k: int)
    requires spec.slide > 0
    ensures At(Hop(spec, ws, e, g), Key(h, k)).events
         == At(ws, Key(h, k)).events + if h == g && Within(spec, k, e.time) then [e] else []
  {
    WithinIff(spec, k, e.time);
    var ms := Millis(e.time);
    HopFromAt(spec, ws, e, g, FirstWindow(spec, ms), LastWindow(spec, ms), h, k);
    if Covers(spec, k, ms) { LoopMissesNone(spec, k, ms); }
  }

  // How many windows an event joins.

  function CoverCount(spec: Spec, ms: int, n: int, last: int): nat
    decreases last - n
  {
    if n > last then 0 else (if Covers(spec, n, ms) then 1 else 0) + CoverCount(spec, ms, n + 1, last)
  }

  /** The windows the loop joins an event to. */
  function Memberships(spec: Spec, ms: int): nat
    requires spec.slide != 0
  {
    CoverCount(spec, ms, FirstWindow(spec, ms), LastWindow(spec, ms))
  }

  function Max(a: int, b: int): int { if a >= b then a else b }

  lemma {:induction false} CoverCountRange(spec: Spec, ms: int, n: int, last: int)
    requires spec.slide > 0 && spec.size >= 0 && last >= ms / spec.slide
    ensures CoverCount(spec, ms, n, last) == Max(0, ms / spec.slide - Max(n - 1, (ms - spec.size) / spec.slide))
    decreases last - n
  {
    if n <= last {
      CoversIff(spec, n, ms);
      CoverCountRange(spec, ms, n + 1, last);
    }
    FloorLe((ms - spec.size) / spec.slide, ms, spec.slide);
  }

  lemma {:induction false} FloorDifference(t: int, size: int, s: int)
    requires s > 0 && size >= 0
    ensures size / s <= t / s - (t - size) / s <= (size + s - 1) / s
  {
    var h, l := t / s, (t - size) / s;
    assert h * s <= t < h * s + s && l * s <= t - size < l * s + s;
    assert (h - l) * s == h * s - l * s;
    FloorLe(h - l, size + s - 1, s);
    FloorLe(h - l + 1, size, s);
    assert (h - l + 1) * s == (h - l) * s + s;
  }

  /** An event joins at least size / slide windows rounded down, and at most rounded up. */
  lemma {:induction false} MembershipBounds(spec: Spec, ms: int)
    requires spec.slide > 0 && spec.size > 0
    ensures Memberships(spec, ms) == ms / spec.slide - (ms - spec.size) / spec.slide
    ensures spec.size / spec.slide <= Memberships(spec, ms) <= (spec.size + spec.slide - 1) / spec.slide
  {
    MembershipCount(spec, ms);
    FloorDifference(ms, spec.size, spec.slide);
  }

  lemma {:induction false} MembershipCount(spec: Spec, ms: int)
    requires spec.slide > 0 && spec.size > 0
    ensures Memberships(spec, ms) == ms / spec.slide - (ms - spec.size) / spec.slide
  {
    TruncBounds(ms, spec.slide);
    TruncBounds(ms - spec.size, spec.slide);
    CoverCountRange(spec, ms, FirstWindow(spec, ms), LastWindow(spec, ms));
    FloorLe((ms - spec.size) / spec.slide, ms, spec.slide);
  }

  // Runs without expiry.

  type Move = (Windows, Event) -> Windows

  /** One event through a specification, as a step on its windows. */
  function MoveOf(spec: Spec): Move
    requires Usable(spec)
  {
    (ws: Windows, e: Event) => Step(spec, ws, e).windows
  }

  function RunBy(move: Move, events: seq<Event>, n: nat): Windows
    requires n <= |events|
  {
    if n == 0 then map[] else move(RunBy(move, events, n - 1), events[n - 1])
  }

  function Run(spec: Spec, events: seq<Event>, n: nat): Windows
    requires n <= |events| && Usable(spec)
  {
    RunBy(MoveOf(spec), events, n)
  }

  /** The first n events that satisfy f, in order of arrival. */
  function Filter(f: Event -> bool, events: seq<Event>, n: nat): seq<Event>
    requires n <= |events|
  {
    if n == 0 then [] else Filter(f, events, n - 1) + if f(events[n - 1]) then [events[n - 1]] else []
  }

  /** An event of group h that window k covers. */
  function Belongs(spec: Spec, h: string, k: int): Event -> bool {
    (e: Event) => Grouped(e, spec.groupBy, h) && Within(spec, k, e.time)
  }

  function Belonging(spec: Spec, events: seq<Event>, n: nat, h: string, k: int): seq<Event>
    requires n <= |events|
  {
    Filter(Belongs(spec, h, k), events, n)
  }

  lemma {:induction false} StepAt(spec: Spec, ws: Windows, e: Event, h: string, k: int)
    requires spec.kind.Hopping? && spec.slide > 0
    ensures At(Step(spec, ws, e).windows, Key(h, k)).events
         == At(ws, Key(h, k)).events + if Belongs(spec, h, k)(e) then [e] else []
  {
    HoppingExact(spec, ws, e, GroupKey(e, spec.groupBy), h, k);
  }

  /** If every step appends its event to a window just when f holds, a run filters by f. */
  lemma {:induction false} HeldFilter(move: Move, events: seq<Event>, n: nat, key: string, f: Event -> bool)
    requires n <= |events|
    requires forall ws, e :: At(move(ws, e), key).events == At(ws, key).events + if f(e) then [e] else []
    ensures At(RunBy(move, events, n), key).events == Filter(f, events, n)
  {
    if n > 0 { HeldFilter(move, events, n - 1, key, f); }
  }

  lemma {:induction false} HeldExactly(spec: Spec, events: seq<Event>, n: nat, h: string, k: int)
    requires n <= |events| && spec.kind.Hopping? && spec.slide > 0
    ensures At(Run(spec, events, n), Key(h, k)).events == Belonging(spec, events, n, h, k)
  {
    forall ws, e
      ensures At(MoveOf(spec)(ws, e), Key(h, k)).events
           == At(ws, Key(h, k)).events + if Belongs(spec, h, k)(e) then [e] else []
    {
      StepAt(spec, ws, e, h, k);
    }
    HeldFilter(MoveOf(spec), events, n, Key(h, k), Belongs(spec, h, k));
  }

  /** A window that stands for number k of its group, with the interval that number has. */
  ghost predicate Numbered(spec: Spec, key: string, w: Window, k: int) {
    && key == Key(w.group, k) && w.events != []
    && w.start == k * spec.slide * 1_000_000 && w.end == w.start + spec.size * 1_000_000
  }

  ghost predicate AllNumbered(spec: Spec, ws: Windows) {
    forall key :: key in ws ==> exists k: int :: Numbered(spec, key, ws[key], k)
  }

  lemma {:induction false} JoinNumbered(spec: Spec, ws: Windows, e: Event, g: string, n: int)
    requires AllNumbered(spec, ws)
    ensures AllNumbered(spec, Join(spec, ws, e, g, n))
  {
    var key, ws' := Key(g, n), Join(spec, ws, e, g, n);
    if At(ws, key).events == [] {
      assert Numbered(spec, key, ws'[key], n);
    } else {
      var k: int :| Numbered(spec, key, ws[key], k);
      assert Numbered(spec, key, ws'[key], k);
    }
  }

  lemma {:induction false} HopNumbered(spec: Spec, ws: Windows, e: Event, g: string, n: int, last: int)
    requires AllNumbered(spec, ws)
    ensures AllNumbered(spec, HopFrom(spec, ws, e, g, n, last))
    decreases last - n
  {
    if n <= last {
      JoinNumbered(spec, ws, e, g, n);
      HopNumbered(spec, if Covers(spec, n, Millis(e.time)) then Join(spec, ws, e, g, n) else ws, e, g, n + 1, last);
    }
  }

  lemma {:induction false} RunNumbered(spec: Spec, events: seq<Event>, n: nat)
    requires n <= |events| && spec.kind.Hopping? && spec.slide > 0
    ensures AllNumbered(spec, Run(spec, events, n))
  {
    if n > 0 {
      RunNumbered(spec, events, n - 1);
      var e := events[n - 1];
      var ms := Millis(e.time);
      HopNumbered(spec, Run(spec, events, n - 1), e, GroupKey(e, spec.groupBy), FirstWindow(spec, ms),
        LastWindow(spec, ms));
    }
  }

  /** Without expiry, every resident window has its number's interval and holds exactly its
      group's events in that interval; and no other number of any group holds anything. */
  lemma {:induction false} ResidentExact(spec: Spec, events: seq<Event>, n: nat)
    requires n <= |events| && spec.kind.Hopping? && spec.slide > 0
    ensures forall key :: key in Run(spec, events, n) ==> exists k: int ::
      Numbered(spec, key, Run(spec, events, n)[key], k)
      && Run(spec, events, n)[key].events == Belonging(spec, events, n, Run(spec, events, n)[key].group, k)
    ensures forall h, k :: Key(h, k) !in Run(spec, events, n) ==> Belonging(spec, events, n, h, k) == []
  {
    var ws := Run(spec, events, n);
    RunNumbered(spec, events, n);
    forall key | key in ws
      ensures exists k: int ::
          Numbered(spec, key, ws[key], k) && ws[key].events == Belonging(spec, events, n, ws[key].group, k)
    {
      var k: int :| Numbered(spec, key, ws[key], k);
      HeldExactly(spec, events, n, ws[key].group, k);
    }
    forall h, k | Key(h, k) !in ws ensures Belonging(spec, events, n, h, k) == [] {
      HeldExactly(spec, events, n, h, k);
    }
  }
}
