/** Event windows: tumbling, sliding, session and hopping windows per specification. */
module EventWindows {
  import opened Clock
  import opened Decimal
  import opened MapSums
  import opened Wrappers

  datatype WindowType = Tumbling | Sliding | Session | Hopping

  datatype Spec = Spec(id: string, kind: WindowType, size: int, slide: int, gap: int, groupBy: string)

  datatype Event = Event(id: string, time: int, fields: map<string, string>)

  datatype Window = Window(start: int, end: int, group: string, events: seq<Event>)

  /** A window that was emitted, with the events its aggregate is taken over. */
  datatype WindowResult = WindowResult(specId: string, start: int, end: int, group: string, events: seq<Event>)

  type Windows = map<string, Window>

  datatype Outcome = Outcome(windows: Windows, out: seq<WindowResult>)

  /** The divisors of the window arithmetic are not zero. */
  predicate Usable(spec: Spec) {
    (spec.kind.Tumbling? ==> spec.size != 0) && (spec.kind.Hopping? ==> spec.slide != 0)
  }

  /** The group an event belongs to: the value of the field; events without it, and all events when
      there is no field, have groups of their own. */
  predicate Grouped(e: Event, field: string, g: string) {
    if field == "" then g == "_global_" else if field in e.fields then g == e.fields[field] else g == "_unknown_"
  }

  function GroupKey(e: Event, field: string): (g: string)
    ensures Grouped(e, field, g)
  {
    if field == "" then "_global_" else if field in e.fields then e.fields[field] else "_unknown_"
  }

  /** operator[] on the window map. */
  function At(ws: Windows, key: string): Window { if key in ws then ws[key] else Window(0, 0, "", []) }

  function ResultOf(spec: Spec, w: Window): WindowResult { WindowResult(spec.id, w.start, w.end, w.group, w.events) }

  function With(w: Window, e: Event): Window { w.(events := w.events + [e]) }

  /** The start of the tumbling window a time falls in: `ms -= ms % size`. */
  function TumbleStart(spec: Spec, time: int): int
    requires spec.size != 0
  {
    var ms := Millis(time);
    (ms - (ms - spec.size * TruncDiv(ms, spec.size))) * NS_PER_MS
  }

  function Tumble(spec: Spec, ws: Windows, e: Event, g: string): Outcome
    requires spec.size != 0
  {
    var start := TumbleStart(spec, e.time);
    var w := At(ws, g);
    if w.events == [] || w.start != start then
      Outcome(ws[g := With(Window(start, start + spec.size * NS_PER_MS, g, w.events), e)],
              if w.events == [] then [] else [ResultOf(spec, w)])
    else Outcome(ws[g := With(w, e)], [])
  }

  function Slide(spec: Spec, ws: Windows, e: Event, g: string): Windows {
    var key := Key(g, Millis(e.time));
    ws[key := With(Window(e.time, e.time + spec.size * NS_PER_MS, g, At(ws, key).events), e)]
  }

  function Visit(spec: Spec, ws: Windows, e: Event, g: string): Outcome {
    var w := At(ws, g);
    if w.events == [] then Outcome(ws[g := Window(e.time, e.time, g, [e])], [])
    else if Millis(e.time - w.end) > spec.gap then
      Outcome(ws[g := w.(start := e.time, end := e.time, events := [e])], [ResultOf(spec, w)])
    else Outcome(ws[g := With(w.(end := e.time), e)], [])
  }

  predicate Covers(spec: Spec, n: int, ms: int) { n * spec.slide <= ms < n * spec.slide + spec.size }

  function Join(spec: Spec, ws: Windows, e: Event, g: string, n: int): Windows {
    var key := Key(g, n);
    var w := At(ws, key);
    var start := n * spec.slide * NS_PER_MS;
    ws[key := if w.events == [] then Window(start, start + spec.size * NS_PER_MS, g, [e]) else With(w, e)]
  }

  lemma {:induction false} JoinIs(spec: Spec, ws: Windows, e: Event, g: string, n: int, w: Window)
    requires var was, start := At(ws, Key(g, n)), n * spec.slide;
      w == if was.events == [] then Window(start * NS_PER_MS, (start + spec.size) * NS_PER_MS, g, [e]) else With(was, e)
    ensures ws[Key(g, n) := w] == Join(spec, ws, e, g, n)
  {
  }

  /** The hopping loop from window n on. */
  function HopFrom(spec: Spec, ws: Windows, e: Event, g: string, n: int, last: int): Windows
    decreases last - n
  {
    if n > last then ws
    else HopFrom(spec, if Covers(spec, n, Millis(e.time)) then Join(spec, ws, e, g, n) else ws, e, g, n + 1, last)
  }

  /** One round of the loop. */
  lemma {:induction false} HopNext(spec: Spec, ws: Windows, e: Event, g: string, n: int, last: int)
    ensures HopFrom(spec, ws, e, g, n, last)
         == if n > last then ws
            else HopFrom(spec, if Covers(spec, n, Millis(e.time)) then Join(spec, ws, e, g, n) else ws, e, g, n + 1,
              last)
  {
  }

  function FirstWindow(spec: Spec, ms: int): int
    requires spec.slide != 0
  {
    TruncDiv(ms - spec.size, spec.slide)
  }

  function LastWindow(spec: Spec, ms: int): int
    requires spec.slide != 0
  {
    TruncDiv(ms, spec.slide)
  }

  function Hop(spec: Spec, ws: Windows, e: Event, g: string): Windows
    requires spec.slide != 0
  {
    HopFrom(spec, ws, e, g, FirstWindow(spec, Millis(e.time)), LastWindow(spec, Millis(e.time)))
  }

  /** One event through one specification. */
  function Step(spec: Spec, ws: Windows, e: Event): Outcome
    requires Usable(spec)
  {
    var g := GroupKey(e, spec.groupBy);
    match spec.kind
    case Tumbling => Tumble(spec, ws, e, g)
    case Sliding => Outcome(Slide(spec, ws, e, g), [])
    case Session => Visit(spec, ws, e, g)
    case Hopping => Outcome(Hop(spec, ws, e, g), [])
  }

  // Expiry.  The order in which an unordered map is walked is not specified.

  predicate Due(ws: Windows, now: int, key: string) { key in ws && ws[key].end <= now }

  predicate Distinct(keys: seq<string>) { forall i, j :: 0 <= i < j < |keys| ==> keys[i] != keys[j] }

  /** `order` names every window that is due, once. */
  ghost predicate Enumerates(ws: Windows, now: int, order: seq<string>) {
    Distinct(order) && (forall i :: 0 <= i < |order| ==> Due(ws, now, order[i]))
    && forall k :: Due(ws, now, k) ==> k in order
  }

  function Alive(ws: Windows, now: int): Windows { map k | k in ws && ws[k].end > now :: ws[k] }

  function Expired(spec: Spec, ws: Windows, order: seq<string>): seq<WindowResult> {
    seq(|order|, i requires 0 <= i < |order| => ResultOf(spec, At(ws, order[i])))
  }

  /** The specification a window map belongs to: the first with its id. */
  function FindSpec(specs: seq<Spec>, id: string): Option<Spec> {
    if specs == [] then None else if specs[0].id == id then Some(specs[0]) else FindSpec(specs[1..], id)
  }

  lemma {:induction false} FoundId(specs: seq<Spec>, id: string)
    ensures FindSpec(specs, id).Some? ==> FindSpec(specs, id).value.id == id
  {
    if specs != [] { FoundId(specs[1..], id); }
  }

  function OfSpec(results: seq<WindowResult>, id: string): seq<WindowResult> {
    if results == [] then []
    else OfSpec(results[..|results| - 1], id)
         + (if results[|results| - 1].specId == id then [results[|results| - 1]] else [])
  }

  lemma {:induction false} OfSpecConcat(a: seq<WindowResult>, b: seq<WindowResult>, id: string)
    ensures OfSpec(a + b, id) == OfSpec(a, id) + OfSpec(b, id)
  {
    if b == [] {
      assert a + b == a;
    } else {
      assert (a + b)[..|a + b| - 1] == a + b[..|b| - 1];
      OfSpecConcat(a, b[..|b| - 1], id);
    }
  }

  lemma {:induction false} OfSpecUniform(a: seq<WindowResult>, owner: string, id: string)
    requires forall i :: 0 <= i < |a| ==> a[i].specId == owner
    ensures OfSpec(a, id) == if id == owner then a else []
  {
    if a != [] { OfSpecUniform(a[..|a| - 1], owner, id); }
  }

  /** What expire_windows leaves of one window map and reports from it. */
  ghost predicate Handled(spec: Option<Spec>, was: Windows, ws: Windows, id: string, now: int,
                          results: seq<WindowResult>, orders: map<string, seq<string>>)
  {
    match spec
    case None => ws == was
    case Some(spec) => && ws == Alive(was, now) && id in orders && Enumerates(was, now, orders[id])
                       && OfSpec(results, id) == Expired(spec, was, orders[id])
  }

  /** A batch from one map leaves what was reported from the others. */
  lemma {:induction false} HandledStill(spec: Option<Spec>, was: Windows, ws: Windows, id: string, now: int,
      results: seq<WindowResult>, orders: map<string, seq<string>>, batch: seq<WindowResult>, other: string,
      order: seq<string>)
    requires Handled(spec, was, ws, id, now, results, orders) && id != other
    requires forall i :: 0 <= i < |batch| ==> batch[i].specId == other
    ensures Handled(spec, was, ws, id, now, results + batch, orders[other := order])
  {
    OfSpecConcat(results, batch, id);
    OfSpecUniform(batch, other, id);
  }

  lemma {:induction false} HandledNow(spec: Spec, was: Windows, now: int, results: seq<WindowResult>,
                                      orders: map<string, seq<string>>, order: seq<string>)
    requires Enumerates(was, now, order) && OfSpec(results, spec.id) == []
    ensures Handled(Some(spec), was, Alive(was, now), spec.id, now, results + Expired(spec, was, order),
        orders[spec.id := order])
  {
    OfSpecConcat(results, Expired(spec, was, order), spec.id);
    OfSpecUniform(Expired(spec, was, order), spec.id, spec.id);
  }

  /** The maps still to come are as they were and nothing was reported from them. */
  ghost predicate Untouched(was: map<string, Windows>, all: map<string, Windows>, todo: set<string>,
      results: seq<WindowResult>)
  {
    forall id :: id in todo ==> id in was && id in all && all[id] == was[id] && OfSpec(results, id) == []
  }

  /** expire_windows has handled every map but those in `todo`. */
  ghost predicate Progress(specs: seq<Spec>, was: map<string, Windows>, all: map<string, Windows>, todo: set<string>,
      now: int, results: seq<WindowResult>, orders: map<string, seq<string>>)
  {
    && all.Keys == was.Keys && todo <= was.Keys
    && Untouched(was, all, todo, results)
    && forall id ::
         id in was && id !in todo ==> Handled(FindSpec(specs, id), was[id], all[id], id, now, results, orders)
  }

  lemma {:induction false} UntouchedStep(was: map<string, Windows>, all: map<string, Windows>, todo: set<string>,
      results: seq<WindowResult>, owner: string, ws: Windows, batch: seq<WindowResult>)
    requires Untouched(was, all, todo, results) && forall i :: 0 <= i < |batch| ==> batch[i].specId == owner
    ensures Untouched(was, all[owner := ws], todo - {owner}, results + batch)
  {
    forall id | id in todo && id != owner ensures OfSpec(results + batch, id) == [] {
      OfSpecConcat(results, batch, id);
      OfSpecUniform(batch, owner, id);
    }
  }

  lemma {:induction false} ProgressStep(specs: seq<Spec>, was: map<string, Windows>, all: map<string, Windows>,
      todo: set<string>, now: int, results: seq<WindowResult>, orders: map<string, seq<string>>, spec: Spec,
      order: seq<string>)
    requires Progress(specs, was, all, todo, now, results, orders)
    requires spec.id in todo && FindSpec(specs, spec.id) == Some(spec) && Enumerates(was[spec.id], now, order)
    ensures Progress(specs, was, all[spec.id := Alive(was[spec.id], now)], todo - {spec.id}, now,
                     results + Expired(spec, was[spec.id], order), orders[spec.id := order])
  {
    var ws, batch := was[spec.id], Expired(spec, was[spec.id], order);
    HandledNow(spec, ws, now, results, orders, order);
    UntouchedStep(was, all, todo, results, spec.id, Alive(ws, now), batch);
    forall j | j in was && j !in todo
      ensures Handled(FindSpec(specs, j), was[j], all[j], j, now, results + batch, orders[spec.id := order])
    {
      HandledStill(FindSpec(specs, j), was[j], all[j], j, now, results, orders, batch, spec.id, order);
    }
  }

  // The manager.

  function SpecWindows(all: map<string, Windows>, id: string): Windows { if id in all then all[id] else map[] }

  predicate AllUsable(specs: seq<Spec>) { forall i :: 0 <= i < |specs| ==> Usable(specs[i]) }

  datatype Total = Total(all: map<string, Windows>, log: seq<WindowResult>)

  function StepSpec(s: Spec, t: Total, e: Event): Total
    requires Usable(s)
  {
    var o := Step(s, SpecWindows(t.all, s.id), e);
    Total(t.all[s.id := o.windows], t.log + o.out)
  }

  /** One event through one specification, on the whole state. */
  function Stepper(e: Event): (Spec, Total) -> Total {
    (s: Spec, t: Total) => if Usable(s) then StepSpec(s, t, e) else t
  }

  /** The first n specifications in turn. */
  function Fold(f: (Spec, Total) -> Total, specs: seq<Spec>, n: nat, t: Total): Total
    requires n <= |specs|
  {
    if n == 0 then t else f(specs[n - 1], Fold(f, specs, n - 1, t))
  }

  function StepAll(specs: seq<Spec>, t: Total, e: Event): Total { Fold(Stepper(e), specs, |specs|, t) }

  predicate DistinctIds(specs: seq<Spec>) { forall i, j :: 0 <= i < j < |specs| ==> specs[i].id != specs[j].id }

  /** A step of one specification leaves the windows under other ids alone. */
  ghost predicate Local(f: (Spec, Total) -> Total) {
    forall s: Spec, t: Total, id: string :: id != s.id ==> SpecWindows(f(s, t).all, id) == SpecWindows(t.all, id)
  }

  lemma {:induction false} StepSpecOther(s: Spec, t: Total, e: Event, id: string)
    requires Usable(s) && id != s.id
    ensures SpecWindows(StepSpec(s, t, e).all, id) == SpecWindows(t.all, id)
  {
  }

  lemma {:induction false} FoldAt(f: (Spec, Total) -> Total, specs: seq<Spec>, n: nat, t: Total, i: nat)
    requires Local(f) && DistinctIds(specs) && n <= |specs| && i < |specs|
    ensures n <= i ==> SpecWindows(Fold(f, specs, n, t).all, specs[i].id) == SpecWindows(t.all, specs[i].id)
    ensures n > i ==>
        SpecWindows(Fold(f, specs, n, t).all, specs[i].id)
        == SpecWindows(f(specs[i], Fold(f, specs, i, t)).all, specs[i].id)
  {
    if n > 0 { FoldAt(f, specs, n - 1, t, i); }
  }

  /** Specifications with distinct ids do not touch one another's windows: each sees every
      event once, as if it were alone. */
  lemma {:induction false} SpecsIndependent(specs: seq<Spec>, t: Total, e: Event, i: nat)
    requires AllUsable(specs) && DistinctIds(specs) && i < |specs|
    ensures SpecWindows(StepAll(specs, t, e).all, specs[i].id)
         == Step(specs[i], SpecWindows(t.all, specs[i].id), e).windows
  {
    var f := Stepper(e);
    forall s: Spec, t: Total, id: string | id != s.id ensures SpecWindows(f(s, t).all, id) == SpecWindows(t.all, id) {
      if Usable(s) { StepSpecOther(s, t, e, id); }
    }
    FoldAt(f, specs, |specs|, t, i);
    FoldAt(f, specs, i, t, i);
  }

  function WindowCount(): Windows -> int { (ws: Windows) => |ws| }

  class EventWindowManager {
    var specs: seq<Spec>
    var windows: map<string, Windows>
    /** The results handed to the callback so far. */
    var log: seq<WindowResult>

    ghost function State(): Total
      reads this
    {
      Total(windows, log)
    }

    constructor ()
      ensures specs == [] && windows == map[] && log == []
    {
      specs, windows, log := [], map[], [];
    }

    method AddWindow(spec: Spec)
      modifies this`specs
      ensures specs == old(specs) + [spec]
    {
      specs := specs + [spec];
    }

    method ProcessTumbling(spec: Spec, e: Event, g: string)
      requires spec.size != 0
      modifies this`windows, this`log
      ensures var o := Tumble(spec, SpecWindows(old(windows), spec.id), e, g);
        windows == old(windows)[spec.id := o.windows] && log == old(log) + o.out
    {
      var ws := SpecWindows(windows, spec.id);
      var w := At(ws, g);
      var start := Millis(e.time);
      start := start - (start - spec.size * TruncDiv(start, spec.size));
      if w.events == [] || w.start != start * NS_PER_MS {
        if w.events != [] { log := log + [WindowResult(spec.id, w.start, w.end, w.group, w.events)]; }
        w := Window(start * NS_PER_MS, start * NS_PER_MS + spec.size * NS_PER_MS, g, w.events);
      }
      w := w.(events := w.events + [e]);
      windows := windows[spec.id := ws[g := w]];
    }

    method ProcessSliding(spec: Spec, e: Event, g: string)
      modifies this`windows
      ensures windows == old(windows)[spec.id := Slide(spec, SpecWindows(old(windows), spec.id), e, g)]
    {
      var ws := SpecWindows(windows, spec.id);
      var key := Key(g, Millis(e.time));
      var w := At(ws, key);
      w := w.(start := e.time, end := e.time + spec.size * NS_PER_MS, group := g);
      w := w.(events := w.events + [e]);
      windows := windows[spec.id := ws[key := w]];
    }

    method ProcessSession(spec: Spec, e: Event, g: string)
      modifies this`windows, this`log
      ensures var o := Visit(spec, SpecWindows(old(windows), spec.id), e, g);
        windows == old(windows)[spec.id := o.windows] && log == old(log) + o.out
    {
      var ws := SpecWindows(windows, spec.id);
      var w := At(ws, g);
      if w.events == [] {
        w := w.(start := e.time, end := e.time, group := g);
      } else {
        if Millis(e.time - w.end) > spec.gap {
          log := log + [WindowResult(spec.id, w.start, w.end, w.group, w.events)];
          w := w.(events := [], start := e.time);
        }
        w := w.(end := e.time);
      }
      assert [] + [e] == [e];
      w := w.(events := w.events + [e]);
      windows := windows[spec.id := ws[g := w]];
    }

    method ProcessHopping(spec: Spec, e: Event, g: string)
      requires spec.slide != 0
      modifies this`windows
      ensures windows == old(windows)[spec.id := Hop(spec, SpecWindows(old(windows), spec.id), e, g)]
    {
      var ms := Millis(e.time);
      var n, last := TruncDiv(ms - spec.size, spec.slide), TruncDiv(ms, spec.slide);
      var ws := SpecWindows(windows, spec.id);
      ghost var all := HopFrom(spec, ws, e, g, n, last);
      while n <= last
        invariant HopFrom(spec, ws, e, g, n, last) == all && windows == old(windows)
        decreases last - n
      {
        HopNext(spec, ws, e, g, n, last);
        var start := n * spec.slide;
        var end := start + spec.size;
        if ms >= start && ms < end {
          var key := Key(g, n);
          var w := At(ws, key);
          if w.events == [] { w := Window(start * NS_PER_MS, end * NS_PER_MS, g, []); }
          w := w.(events := w.events + [e]);
          JoinIs(spec, ws, e, g, n, w);
          ws := ws[key := w];
        }
        n := n + 1;
      }
      HopNext(spec, ws, e, g, n, last);
      windows := windows[spec.id := ws];
    }

    method ProcessSpec(spec: Spec, e: Event)
      requires Usable(spec)
      modifies this`windows, this`log
      ensures State() == Stepper(e)(spec, old(State()))
    {
      var g := GroupKey(e, spec.groupBy);
      match spec.kind
      case Tumbling => ProcessTumbling(spec, e, g);
      case Sliding => ProcessSliding(spec, e, g);
      case Session => ProcessSession(spec, e, g);
      case Hopping => ProcessHopping(spec, e, g);
    }

    method ProcessEvent(e: Event)
      requires AllUsable(specs)
      modifies this`windows, this`log
      ensures State() == StepAll(specs, old(State()), e)
    {
      for i := 0 to |specs|
        invariant State() == Fold(Stepper(e), specs, i, old(State()))
      {
        ProcessSpec(specs[i], e);
      }
    }

    /** The inner loop of expire_windows; `order` is the order the map was walked in. */
    method ExpireSpec(spec: Spec, now: int) returns (results: seq<WindowResult>, ghost order: seq<string>)
      requires spec.id in windows
      modifies this`windows
      ensures windows == old(windows)[spec.id := Alive(old(windows)[spec.id], now)]
      ensures Enumerates(old(windows)[spec.id], now, order)
      ensures results == Expired(spec, old(windows)[spec.id], order)
      ensures |results| == |order| && forall i :: 0 <= i < |order| ==>
          var w := old(windows)[spec.id][order[i]];
          w.end <= now && results[i] == WindowResult(spec.id, w.start, w.end, w.group, w.events)
    {
      ghost var was := windows[spec.id];
      var ws, todo := windows[spec.id], windows[spec.id].Keys;
      results, order := [], [];
      while todo != {}
        invariant ws == map k | k in was && (k in todo || was[k].end > now) :: was[k]
        invariant Distinct(order) && todo <= was.Keys
        invariant forall i :: 0 <= i < |order| ==> Due(was, now, order[i]) && order[i] !in todo
        invariant forall k :: Due(was, now, k) ==> k in order || k in todo
        invariant results == Expired(spec, was, order)
        decreases |todo|
      {
        var key :| key in todo;
        todo := todo - {key};
        if ws[key].end <= now {
          var w := ws[key];
          results := results + [WindowResult(spec.id, w.start, w.end, w.group, w.events)];
          order := order + [key];
          ws := ws - {key};
        }
      }
      assert ws == Alive(was, now);
      windows := windows[spec.id := ws];
    }

    method ExpireWindows(now: int) returns (results: seq<WindowResult>, ghost orders: map<string, seq<string>>)
      modifies this`windows
      ensures windows.Keys == old(windows).Keys
      ensures forall id :: id in old(windows) ==>
          Handled(FindSpec(specs, id), old(windows)[id], windows[id], id, now, results, orders)
    {
      ghost var was := windows;
      var todo := windows.Keys;
      results, orders := [], map[];
      while todo != {}
        invariant Progress(specs, was, windows, todo, now, results, orders)
        decreases |todo|
      {
        var id :| id in todo;
        var spec := FindSpec(specs, id);
        if spec.Some? {
          FoundId(specs, id);
          ghost var before, all := results, windows;
          var batch, order := ExpireSpec(spec.value, now);
          ProgressStep(specs, was, all, todo, now, before, orders, spec.value, order);
          results, orders := results + batch, orders[id := order];
        }
        todo := todo - {id};
      }
    }

    method ActiveWindowCount() returns (n: nat)
      ensures n == Sum(windows, WindowCount())
    {
      n := 0;
      var todo := windows;
      while todo != map[]
        invariant n + Sum(todo, WindowCount()) == Sum(windows, WindowCount())
        decreases |todo|
      {
        var id :| id in todo;
        SumRemove(todo, WindowCount(), id);
        n, todo := n + |todo[id]|, todo - {id};
      }
    }

    method Clear()
      modifies this`windows
      ensures windows == map[]
    {
      windows := map[];
    }
  }
}
