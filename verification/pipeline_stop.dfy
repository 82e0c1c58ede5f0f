/** Stopping the stream processor: what the state at the moment running_ is cleared says about
    every way the threads can end from there. */
module PipelineStop {
  import opened Pipeline

  predicate HasEvent<E>(rest: seq<Message<E>>) { rest != [] && (rest[0].Carries? || HasEvent(rest[1..])) }

  /** A consumer that will enqueue or drop an event, or still may. */
  predicate Loaded<E>(c: Consumer<E>) {
    c.Polling? || c.Holding? || c.Refused? || (c.InBatch? && HasEvent(c.rest))
  }

  function LoadedIn<E>(cs: seq<Consumer<E>>): nat {
    if cs == [] then 0 else (if Loaded(cs[0]) then 1 else 0) + LoadedIn(cs[1..])
  }

  /** The processors about to pop. */
  function PoppingIn<E>(ps: seq<Processor<E>>): nat {
    if ps == [] then 0 else (if ps[0].Popping? then 1 else 0) + PoppingIn(ps[1..])
  }

  /** No consumer has an event or is polling, and each event in the ring has a processor that
      is about to pop. */
  predicate StopSafe<E>(s: State<E>) {
    (forall i :: 0 <= i < |s.consumers| ==> !Loaded(s.consumers[i])) && |s.ring| <= PoppingIn(s.processors)
  }

  ghost predicate AllEnded<E>(s: State<E>) {
    (forall c :: c in s.consumers ==> c.ConsumerDone?) && (forall p :: p in s.processors ==> p.ProcessorDone?)
  }

  ghost predicate AllProcessed<E(!new)>(s: State<E>) { forall e :: InMessages(s.polled, e) == Times(s.processed, e) }

  ghost predicate Completes<E>(capacity: nat, s: State<E>, steps: seq<Step<E>>) {
    Run(capacity, s, steps).Some? && AllEnded(Run(capacity, s, steps).value)
  }

  /** However the threads go on and end, everything polled is processed. */
  ghost predicate LosesNothing<E(!new)>(capacity: nat, s: State<E>) {
    forall steps: seq<Step<E>> :: Completes(capacity, s, steps) ==> AllProcessed(Run(capacity, s, steps).value)
  }

  lemma {:induction false} LoadedNone<E>(cs: seq<Consumer<E>>)
    ensures LoadedIn(cs) == 0 <==> forall i :: 0 <= i < |cs| ==> !Loaded(cs[i])
  {
    if cs != [] {
      LoadedNone(cs[1..]);
      assert forall i :: 1 <= i < |cs| ==> cs[i] == cs[1..][i - 1];
      assert forall i :: 0 <= i < |cs[1..]| ==> cs[1..][i] == cs[i + 1];
    }
  }

  lemma {:induction false} PoppingUpdate<E>(ps: seq<Processor<E>>, i: nat, p: Processor<E>)
    requires i < |ps|
    ensures PoppingIn(ps[i := p]) + (if ps[i].Popping? then 1 else 0) == PoppingIn(ps) + (if p.Popping? then 1 else 0)
  {
    if i == 0 {
      assert ps[i := p][1..] == ps[1..];
    } else {
      PoppingUpdate(ps[1..], i - 1, p);
      assert ps[i := p][1..] == ps[1..][i - 1 := p];
    }
  }

  lemma {:induction false} NonePopping<E>(ps: seq<Processor<E>>)
    requires forall p :: p in ps ==> p.ProcessorDone?
    ensures PoppingIn(ps) == 0
  {
    if ps != [] {
      assert ps[0] in ps;
      NonePopping(ps[1..]);
    }
  }

  // A safe stop stays safe.

  ghost predicate Draining<E>(s: State<E>) { !s.running && s.dropped == [] && StopSafe(s) }

  lemma {:induction false} ConsumerDrains<E>(capacity: nat, s: State<E>, step: Step<E>)
    requires Draining(s) && Enabled(s, step)
        && (step.LoadRunning? || step.Poll? || step.Take? || step.Push? || step.Reload?)
    ensures Draining(Apply(capacity, s, step))
  {
    assert !Loaded(s.consumers[step.i]);
  }

  lemma {:induction false} ProcessorDrains<E>(capacity: nat, s: State<E>, step: Step<E>)
    requires Draining(s) && Enabled(s, step) && (step.LoadRunningP? || step.Pop? || step.Finish?)
    ensures Draining(Apply(capacity, s, step))
  {
    PoppingUpdate(s.processors, step.i, Apply(capacity, s, step).processors[step.i]);
  }

  lemma {:induction false} RunDrains<E>(capacity: nat, s: State<E>, steps: seq<Step<E>>)
    requires Draining(s) && Run(capacity, s, steps).Some?
    ensures Draining(Run(capacity, s, steps).value)
    decreases |steps|
  {
    if steps != [] {
      var step := steps[0];
      if step.LoadRunningP? || step.Pop? || step.Finish? {
        ProcessorDrains(capacity, s, step);
      } else {
        ConsumerDrains(capacity, s, step);
      }
      RunDrains(capacity, Apply(capacity, s, step), steps[1..]);
    }
  }

  // An unsafe stop can lose an event: the processors end first.

  lemma {:induction false} RunFirst<E>(capacity: nat, s: State<E>, step: Step<E>, rest: seq<Step<E>>)
    requires Enabled(s, step)
    ensures Run(capacity, s, [step] + rest) == Run(capacity, Apply(capacity, s, step), rest)
  {
    assert ([step] + rest)[1..] == rest;
  }

  function Stage<E>(p: Processor<E>): nat {
    match p
    case LoopHead => 1
    case Popping => 3
    case Busy(_) => 2
    case ProcessorDone => 0
  }

  function NextOf<E>(p: Processor<E>, i: nat): Step<E> {
    match p
    case Popping => Pop(i)
    case Busy(_) => Finish(i)
    case _ => LoadRunningP(i)
  }

  /** What ending processor i may do to the state. */
  ghost predicate ProcessorEnds<E>(s: State<E>, t: State<E>, i: nat)
    requires i < |s.processors|
  {
    && t.processors == s.processors[i := ProcessorDone] && t.consumers == s.consumers
    && !t.running && t.dropped == s.dropped
    && |t.ring| + (if s.processors[i].Popping? then 1 else 0) >= |s.ring|
  }

  lemma {:induction false} FinishProcessor<E>(capacity: nat, s: State<E>, i: nat) returns (steps: seq<Step<E>>)
    requires !s.running && i < |s.processors|
    ensures Run(capacity, s, steps).Some? && ProcessorEnds(s, Run(capacity, s, steps).value, i)
    decreases Stage(s.processors[i])
  {
    if s.processors[i].ProcessorDone? {
      steps := [];
    } else {
      var step := NextOf(s.processors[i], i);
      var next := Apply(capacity, s, step);
      steps := FinishProcessor(capacity, next, i);
      RunFirst(capacity, s, step, steps);
      assert next.processors[i := ProcessorDone] == s.processors[i := ProcessorDone];
      steps := [step] + steps;
    }
  }

  lemma {:induction false} FinishProcessors<E>(capacity: nat, s: State<E>, k: nat) returns (steps: seq<Step<E>>)
    requires !s.running && k <= |s.processors| && forall j :: 0 <= j < k ==> s.processors[j].ProcessorDone?
    ensures Run(capacity, s, steps).Some?
    ensures var t := Run(capacity, s, steps).value;
      && (forall p :: p in t.processors ==> p.ProcessorDone?) && t.consumers == s.consumers
      && !t.running && t.dropped == s.dropped && |t.ring| + PoppingIn(s.processors[k..]) >= |s.ring|
    decreases |s.processors| - k
  {
    if k == |s.processors| {
      steps := [];
    } else {
      var first := FinishProcessor(capacity, s, k);
      var next := Run(capacity, s, first).value;
      var rest := FinishProcessors(capacity, next, k + 1);
      RunConcat(capacity, s, first, rest);
      assert next.processors[k + 1..] == s.processors[k + 1..] == s.processors[k..][1..];
      steps := first + rest;
    }
  }

  function StageC<E>(c: Consumer<E>): nat {
    match c
    case LoopTop => 1
    case Polling => 7
    case InBatch(rest) => 4 * |rest| + 2
    case Holding(_, rest) => 4 * |rest| + 4
    case Refused(_, rest) => 4 * |rest| + 3
    case ConsumerDone => 0
  }

  /** The next step of a consumer; a polling one is given an event. */
  function NextOfC<E>(c: Consumer<E>, i: nat, e: E): Step<E> {
    match c
    case Polling => Poll(i, [Carries(e)])
    case InBatch(_) => Take(i)
    case Holding(_, _) => Push(i)
    case Refused(_, _) => Reload(i)
    case _ => LoadRunning(i)
  }

  /** What ending consumer i may do to the state: its event ends up in the ring or is dropped. */
  ghost predicate ConsumerEnds<E>(s: State<E>, t: State<E>, i: nat)
    requires i < |s.consumers|
  {
    && t.consumers == s.consumers[i := ConsumerDone] && t.processors == s.processors && !t.running
    && |t.ring| + |t.dropped| >= |s.ring| + |s.dropped| + (if Loaded(s.consumers[i]) then 1 else 0)
  }

  /** One step of a consumer towards its end. */
  lemma {:induction false} ConsumerMoves<E>(capacity: nat, s: State<E>, i: nat, e: E)
    requires !s.running && i < |s.consumers| && !s.consumers[i].ConsumerDone?
    ensures var step := NextOfC(s.consumers[i], i, e);
      Enabled(s, step)
      && var t := Apply(capacity, s, step);
         && t.processors == s.processors && !t.running && |t.consumers| == |s.consumers|
         && t.consumers == s.consumers[i := t.consumers[i]] && StageC(t.consumers[i]) < StageC(s.consumers[i])
         && |t.ring| + |t.dropped| + (if Loaded(t.consumers[i]) then 1 else 0)
            >= |s.ring| + |s.dropped| + (if Loaded(s.consumers[i]) then 1 else 0)
  {
    assert [Carries(e)][0] == Carries(e);
  }

  lemma {:induction false} FinishConsumer<E>(capacity: nat, s: State<E>, i: nat, e: E) returns (steps: seq<Step<E>>)
    requires !s.running && i < |s.consumers|
    ensures Run(capacity, s, steps).Some? && ConsumerEnds(s, Run(capacity, s, steps).value, i)
    decreases StageC(s.consumers[i])
  {
    if s.consumers[i].ConsumerDone? {
      steps := [];
    } else {
      var step := NextOfC(s.consumers[i], i, e);
      ConsumerMoves(capacity, s, i, e);
      var next := Apply(capacity, s, step);
      steps := FinishConsumer(capacity, next, i, e);
      RunFirst(capacity, s, step, steps);
      assert next.consumers[i := ConsumerDone] == s.consumers[i := ConsumerDone];
      steps := [step] + steps;
    }
  }

  lemma {:induction false} FinishConsumers<E>(capacity: nat, s: State<E>, k: nat, e: E) returns (steps: seq<Step<E>>)
    requires !s.running && k <= |s.consumers| && forall j :: 0 <= j < k ==> s.consumers[j].ConsumerDone?
    ensures Run(capacity, s, steps).Some?
    ensures var t := Run(capacity, s, steps).value;
      && (forall c :: c in t.consumers ==> c.ConsumerDone?) && t.processors == s.processors
      && |t.ring| + |t.dropped| >= |s.ring| + |s.dropped| + LoadedIn(s.consumers[k..])
    decreases |s.consumers| - k
  {
    if k == |s.consumers| {
      steps := [];
    } else {
      var first := FinishConsumer(capacity, s, k, e);
      var next := Run(capacity, s, first).value;
      var rest := FinishConsumers(capacity, next, k + 1, e);
      RunConcat(capacity, s, first, rest);
      assert next.consumers[k + 1..] == s.consumers[k + 1..] == s.consumers[k..][1..];
      steps := first + rest;
    }
  }

  /** From an unsafe stop the threads can end with an event in the ring or dropped. */
  lemma {:induction false} LosingRun<E>(capacity: nat, s: State<E>, e: E) returns (steps: seq<Step<E>>)
    requires !s.running && !StopSafe(s)
    ensures Completes(capacity, s, steps)
    ensures var t := Run(capacity, s, steps).value; |t.ring| + |t.dropped| > 0
  {
    var first := FinishProcessors(capacity, s, 0);
    var next := Run(capacity, s, first).value;
    var rest := FinishConsumers(capacity, next, 0, e);
    RunConcat(capacity, s, first, rest);
    LoadedNone(s.consumers);
    assert s.processors[0..] == s.processors && s.consumers[0..] == s.consumers;
    steps := first + rest;
  }

  /** Once all threads have ended, everything polled is processed if and only if the ring is
      empty and nothing was dropped. */
  lemma {:induction false} EndedIff<E(!new)>(capacity: nat, s: State<E>)
    requires AllEnded(s) && forall e :: Inv(capacity, s, e)
    ensures AllProcessed(s) <==> s.ring == [] && s.dropped == []
  {
    forall e ensures InMessages(s.polled, e) == Times(s.processed, e) + Times(s.ring, e) + Times(s.dropped, e) {
      assert Inv(capacity, s, e);
      NothingHeld(s.consumers, s.processors, e);
    }
    if s.ring != [] { assert Times(s.ring, s.ring[0]) > 0; }
    if s.dropped != [] { assert Times(s.dropped, s.dropped[0]) > 0; }
  }

  /** Whatever ran before: after stop() clears running_, every way the threads can end processes
      everything that was polled if and only if, at that moment, no consumer is polling or has an
      event left in its hand or its batch, and the ring holds no more events than there are
      processors about to pop. */
  lemma {:induction false} StopSafeIff<E(!new)>(capacity: nat, consumers: nat, processors: nat, before: seq<Step<E>>,
      e: E)
    requires capacity > 0 && Run(capacity, Init<E>(consumers, processors), before).Some?
    requires Run(capacity, Init<E>(consumers, processors), before).value.running
    ensures var s := Run(capacity, Init<E>(consumers, processors), before).value;
      LosesNothing(capacity, Apply(capacity, s, Stop)) <==> StopSafe(s)
  {
    var s := Run(capacity, Init<E>(consumers, processors), before).value;
    var t := Apply(capacity, s, Stop);
    forall x ensures Inv(capacity, t, x) { ReachedInv(capacity, consumers, processors, before, x); }
    if StopSafe(s) {
      ReachedInv(capacity, consumers, processors, before, e);
      assert Draining(t);
      forall steps: seq<Step<E>> | Completes(capacity, t, steps) ensures AllProcessed(Run(capacity, t, steps).value) {
        RunDrains(capacity, t, steps);
        var end := Run(capacity, t, steps).value;
        NonePopping(end.processors);
        forall x ensures Inv(capacity, end, x) { RunInv(capacity, t, steps, x); }
        EndedIff(capacity, end);
      }
    } else {
      var steps := LosingRun(capacity, t, e);
      var end := Run(capacity, t, steps).value;
      forall x ensures Inv(capacity, end, x) { RunInv(capacity, t, steps, x); }
      EndedIff(capacity, end);
    }
  }

  lemma {:induction false} ReachedInv<E>(capacity: nat, consumers: nat, processors: nat, before: seq<Step<E>>, e: E)
    requires capacity > 0 && Run(capacity, Init<E>(consumers, processors), before).Some?
    ensures Inv(capacity, Run(capacity, Init<E>(consumers, processors), before).value, e)
  {
    var s0 := Init<E>(consumers, processors);
    NothingHeld(s0.consumers, s0.processors, e);
    RunInv(capacity, s0, before, e);
  }
}
