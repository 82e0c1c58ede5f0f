/** StreamProcessor: consumer threads move events from the input into the shared ring and
    processor threads move them out.  A transition system over the loads of running_, the
    polls, the (locked, hence atomic) ring operations and the completion of an event. */
module Pipeline {
  import opened Wrappers
  import ConcurrentRing

  /** A polled message: its payload parses to an event, or it is skipped. */
  datatype Message<E> = Skipped | Carries(event: E)

  datatype Consumer<E> =
    | LoopTop
    | Polling                                // running_ was true
    | InBatch(rest: seq<Message<E>>)
    | Holding(hand: E, rest: seq<Message<E>>) // about to try_push
    | Refused(hand: E, rest: seq<Message<E>>) // try_push failed, running_ not yet reloaded
    | ConsumerDone

  datatype Processor<E> =
    | LoopHead
    | Popping                                // running_ was true
    | Busy(hand: E)
    | ProcessorDone

  datatype State<E> = State(
    running: bool,
    consumers: seq<Consumer<E>>,
    processors: seq<Processor<E>>,
    ring: seq<E>,        // contents of event_queue_
    consumed: seq<E>,    // counted in events_consumed, in that order
    enqueued: seq<E>,    // accepted by try_push
    dequeued: seq<E>,    // returned by try_pop
    processed: seq<E>,   // counted in events_processed
    dropped: seq<E>,     // left in a consumer's hand when its push loop ended
    polled: seq<Message<E>>, // returned by poll_batch, over both threads
    committed: nat)      // how many polled messages the committed offsets cover

  datatype Step<E> =
    | Stop
    | LoadRunning(i: nat) | Poll(i: nat, batch: seq<Message<E>>) | Take(i: nat) | Push(i: nat) | Reload(i: nat)
    | LoadRunningP(i: nat) | Pop(i: nat) | Finish(i: nat)

  function Init<E>(consumers: nat, processors: nat): State<E> {
    State(true, seq(consumers, _ => LoopTop), seq(processors, _ => LoopHead), [], [], [], [], [], [], [], 0)
  }

  predicate Enabled<E>(s: State<E>, step: Step<E>) {
    match step
    case Stop => s.running
    case LoadRunning(i)  => i < |s.consumers| && s.consumers[i].LoopTop?
    case Poll(i, _)      => i < |s.consumers| && s.consumers[i].Polling?
    case Take(i)         => i < |s.consumers| && s.consumers[i].InBatch?
    case Push(i)         => i < |s.consumers| && s.consumers[i].Holding?
    case Reload(i)       => i < |s.consumers| && s.consumers[i].Refused?
    case LoadRunningP(i) => i < |s.processors| && s.processors[i].LoopHead?
    case Pop(i)          => i < |s.processors| && s.processors[i].Popping?
    case Finish(i)       => i < |s.processors| && s.processors[i].Busy?
  }

  function WithConsumer<E>(s: State<E>, i: nat, c: Consumer<E>): State<E>
    requires i < |s.consumers|
  {
    s.(consumers := s.consumers[i := c])
  }

  function WithProcessor<E>(s: State<E>, i: nat, p: Processor<E>): State<E>
    requires i < |s.processors|
  {
    s.(processors := s.processors[i := p])
  }

  function Apply<E>(capacity: nat, s: State<E>, step: Step<E>): State<E>
    requires Enabled(s, step)
  {
    match step
    case Stop => s.(running := false)
    case LoadRunning(i) => WithConsumer(s, i, if s.running then Polling else ConsumerDone)
    case Poll(i, batch) =>
      WithConsumer(s, i, if batch == [] then LoopTop else InBatch(batch)).(polled := s.polled + batch)
    case Take(i) =>
      var rest := s.consumers[i].rest;
      if rest == [] then WithConsumer(s, i, LoopTop).(committed := |s.polled|)
      else if rest[0].Skipped? then WithConsumer(s, i, InBatch(rest[1..]))
      else WithConsumer(s, i, Holding(rest[0].event, rest[1..])).(consumed := s.consumed + [rest[0].event])
    case Push(i) =>
      var c := s.consumers[i];
      if ConcurrentRing.HasRoom(s.ring, capacity)
      then WithConsumer(s, i, InBatch(c.rest)).(ring := s.ring + [c.hand], enqueued := s.enqueued + [c.hand])
      else WithConsumer(s, i, Refused(c.hand, c.rest))
    case Reload(i) =>
      var c := s.consumers[i];
      if s.running then WithConsumer(s, i, Holding(c.hand, c.rest))
      else WithConsumer(s, i, InBatch(c.rest)).(dropped := s.dropped + [c.hand])
    case LoadRunningP(i) => WithProcessor(s, i, if s.running then Popping else ProcessorDone)
    case Pop(i) =>
      if s.ring == [] then WithProcessor(s, i, LoopHead)
      else WithProcessor(s, i, Busy(s.ring[0])).(ring := s.ring[1..], dequeued := s.dequeued + [s.ring[0]])
    case Finish(i) => WithProcessor(s, i, LoopHead).(processed := s.processed + [s.processors[i].hand])
  }

  function Run<E>(capacity: nat, s: State<E>, steps: seq<Step<E>>): Option<State<E>>
    decreases |steps|
  {
    if steps == [] then Some(s)
    else if !Enabled(s, steps[0]) then None
    else Run(capacity, Apply(capacity, s, steps[0]), steps[1..])
  }

  /** How often an event occurs: in a sequence, in polled messages, in a consumer's hand,
      in the part of its batch not yet reached, and in a processor's hand. */
  function Times<E(==)>(q: seq<E>, e: E): nat { multiset(q)[e] }

  function InMessages<E(==)>(messages: seq<Message<E>>, e: E): nat {
    if messages == [] then 0 else (if messages[0] == Carries(e) then 1 else 0) + InMessages(messages[1..], e)
  }

  function InHand<E(==)>(c: Consumer<E>, e: E): nat {
    if (c.Holding? || c.Refused?) && c.hand == e then 1 else 0
  }

  function InRest<E(==)>(c: Consumer<E>, e: E): nat {
    if c.InBatch? || c.Holding? || c.Refused? then InMessages(c.rest, e) else 0
  }

  function InHands<E(==)>(cs: seq<Consumer<E>>, e: E): nat {
    if cs == [] then 0 else InHand(cs[0], e) + InHands(cs[1..], e)
  }

  function InRests<E(==)>(cs: seq<Consumer<E>>, e: E): nat {
    if cs == [] then 0 else InRest(cs[0], e) + InRests(cs[1..], e)
  }

  function InWork<E(==)>(p: Processor<E>, e: E): nat { if p == Busy(e) then 1 else 0 }

  function InWorks<E(==)>(ps: seq<Processor<E>>, e: E): nat {
    if ps == [] then 0 else InWork(ps[0], e) + InWorks(ps[1..], e)
  }

  lemma {:induction false} ConsumerUpdate<E>(cs: seq<Consumer<E>>, i: nat, c: Consumer<E>, e: E)
    requires i < |cs|
    ensures InHands(cs[i := c], e) + InHand(cs[i], e) == InHands(cs, e) + InHand(c, e)
    ensures InRests(cs[i := c], e) + InRest(cs[i], e) == InRests(cs, e) + InRest(c, e)
  {
    if i == 0 {
      assert cs[i := c][1..] == cs[1..];
    } else {
      ConsumerUpdate(cs[1..], i - 1, c, e);
      assert cs[i := c][1..] == cs[1..][i - 1 := c];
    }
  }

  lemma {:induction false} ProcessorUpdate<E>(ps: seq<Processor<E>>, i: nat, p: Processor<E>, e: E)
    requires i < |ps|
    ensures InWorks(ps[i := p], e) + InWork(ps[i], e) == InWorks(ps, e) + InWork(p, e)
  {
    if i == 0 {
      assert ps[i := p][1..] == ps[1..];
    } else {
      ProcessorUpdate(ps[1..], i - 1, p, e);
      assert ps[i := p][1..] == ps[1..][i - 1 := p];
    }
  }

  lemma {:induction false} InConcat<E>(a: seq<Message<E>>, b: seq<Message<E>>, e: E)
    ensures InMessages(a + b, e) == InMessages(a, e) + InMessages(b, e)
  {
    if a == [] {
      assert a + b == b;
    } else {
      InConcat(a[1..], b, e);
      assert (a + b)[1..] == a[1..] + b;
    }
  }

  ghost predicate Conserved<E>(s: State<E>, e: E) {
    && InMessages(s.polled, e) == Times(s.consumed, e) + InRests(s.consumers, e)
    && Times(s.consumed, e) == InHands(s.consumers, e) + Times(s.enqueued, e) + Times(s.dropped, e)
    && Times(s.dequeued, e) == InWorks(s.processors, e) + Times(s.processed, e)
  }

  ghost predicate Inv<E>(capacity: nat, s: State<E>, e: E) {
    && Conserved(s, e)
    && s.enqueued == s.dequeued + s.ring && |s.ring| < capacity
    && (s.running ==> s.dropped == [])
  }

  lemma {:induction false} TimesNext<E>(q: seq<E>, x: E, e: E)
    ensures Times(q + [x], e) == Times(q, e) + if x == e then 1 else 0
  {
  }

  lemma {:induction false} AcceptInv<E>(capacity: nat, s: State<E>, i: nat, e: E)
    requires Inv(capacity, s, e) && Enabled(s, Push(i)) && ConcurrentRing.HasRoom(s.ring, capacity)
    ensures Inv(capacity, Apply(capacity, s, Push(i)), e)
  {
    var c := s.consumers[i];
    ConsumerUpdate(s.consumers, i, InBatch(c.rest), e);
    TimesNext(s.enqueued, c.hand, e);
    assert s.enqueued + [c.hand] == s.dequeued + (s.ring + [c.hand]);
  }

  lemma {:induction false} PushInv<E>(capacity: nat, s: State<E>, i: nat, e: E)
    requires Inv(capacity, s, e) && Enabled(s, Push(i))
    ensures Inv(capacity, Apply(capacity, s, Push(i)), e)
  {
    var c := s.consumers[i];
    if ConcurrentRing.HasRoom(s.ring, capacity) {
      AcceptInv(capacity, s, i, e);
    } else {
      ConsumerUpdate(s.consumers, i, Refused(c.hand, c.rest), e);
    }
  }

  lemma {:induction false} PollInv<E>(capacity: nat, s: State<E>, i: nat, batch: seq<Message<E>>, e: E)
    requires Inv(capacity, s, e) && Enabled(s, Poll(i, batch))
    ensures Inv(capacity, Apply(capacity, s, Poll(i, batch)), e)
  {
    ConsumerUpdate(s.consumers, i, if batch == [] then LoopTop else InBatch(batch), e);
    InConcat(s.polled, batch, e);
  }

  lemma {:induction false} TakeEventInv<E>(capacity: nat, s: State<E>, i: nat, e: E)
    requires Inv(capacity, s, e) && Enabled(s, Take(i))
    requires s.consumers[i].rest != [] && s.consumers[i].rest[0].Carries?
    ensures Inv(capacity, Apply(capacity, s, Take(i)), e)
  {
    var rest := s.consumers[i].rest;
    var c := Holding(rest[0].event, rest[1..]);
    ConsumerUpdate(s.consumers, i, c, e);
    assert InRest(c, e) + InHand(c, e) == InRest(s.consumers[i], e);
    TimesNext(s.consumed, c.hand, e);
  }

  lemma {:induction false} SkipInv<E>(capacity: nat, s: State<E>, i: nat, e: E)
    requires Inv(capacity, s, e) && Enabled(s, Take(i))
    requires s.consumers[i].rest != [] && s.consumers[i].rest[0].Skipped?
    ensures Inv(capacity, Apply(capacity, s, Take(i)), e)
  {
    ConsumerUpdate(s.consumers, i, InBatch(s.consumers[i].rest[1..]), e);
  }

  lemma {:induction false} TakeInv<E>(capacity: nat, s: State<E>, i: nat, e: E)
    requires Inv(capacity, s, e) && Enabled(s, Take(i))
    ensures Inv(capacity, Apply(capacity, s, Take(i)), e)
  {
    var rest := s.consumers[i].rest;
    if rest == [] {
      ConsumerUpdate(s.consumers, i, LoopTop, e);
    } else if rest[0].Skipped? {
      SkipInv(capacity, s, i, e);
    } else {
      TakeEventInv(capacity, s, i, e);
    }
  }

  lemma {:induction false} LoadInv<E>(capacity: nat, s: State<E>, i: nat, e: E)
    requires Inv(capacity, s, e) && Enabled(s, LoadRunning(i))
    ensures Inv(capacity, Apply(capacity, s, LoadRunning(i)), e)
  {
    ConsumerUpdate(s.consumers, i, if s.running then Polling else ConsumerDone, e);
  }

  lemma {:induction false} ReloadInv<E>(capacity: nat, s: State<E>, i: nat, e: E)
    requires Inv(capacity, s, e) && Enabled(s, Reload(i))
    ensures Inv(capacity, Apply(capacity, s, Reload(i)), e)
  {
    var c := s.consumers[i];
    ConsumerUpdate(s.consumers, i, if s.running then Holding(c.hand, c.rest) else InBatch(c.rest), e);
    TimesNext(s.dropped, c.hand, e);
  }

  lemma {:induction false} LoadProcessorInv<E>(capacity: nat, s: State<E>, i: nat, e: E)
    requires Inv(capacity, s, e) && Enabled(s, LoadRunningP(i))
    ensures Inv(capacity, Apply(capacity, s, LoadRunningP(i)), e)
  {
    ProcessorUpdate(s.processors, i, if s.running then Popping else ProcessorDone, e);
  }

  lemma {:induction false} PopEventInv<E>(capacity: nat, s: State<E>, i: nat, e: E)
    requires Inv(capacity, s, e) && Enabled(s, Pop(i)) && s.ring != []
    ensures Inv(capacity, Apply(capacity, s, Pop(i)), e)
  {
    var x, rest := s.ring[0], s.ring[1..];
    ProcessorUpdate(s.processors, i, Busy(x), e);
    TimesNext(s.dequeued, x, e);
    assert s.ring == [x] + rest && (s.dequeued + [x]) + rest == s.dequeued + ([x] + rest);
  }

  lemma {:induction false} PopInv<E>(capacity: nat, s: State<E>, i: nat, e: E)
    requires Inv(capacity, s, e) && Enabled(s, Pop(i))
    ensures Inv(capacity, Apply(capacity, s, Pop(i)), e)
  {
    if s.ring == [] {
      ProcessorUpdate(s.processors, i, LoopHead, e);
    } else {
      PopEventInv(capacity, s, i, e);
    }
  }

  lemma {:induction false} FinishInv<E>(capacity: nat, s: State<E>, i: nat, e: E)
    requires Inv(capacity, s, e) && Enabled(s, Finish(i))
    ensures Inv(capacity, Apply(capacity, s, Finish(i)), e)
  {
    ProcessorUpdate(s.processors, i, LoopHead, e);
    TimesNext(s.processed, s.processors[i].hand, e);
  }

  lemma {:induction false} RunInv<E>(capacity: nat, s: State<E>, steps: seq<Step<E>>, e: E)
    requires Inv(capacity, s, e) && Run(capacity, s, steps).Some?
    ensures Inv(capacity, Run(capacity, s, steps).value, e)
    decreases |steps|
  {
    if steps != [] {
      match steps[0] {
        case Stop =>
        case LoadRunningP(i) => LoadProcessorInv(capacity, s, i, e);
        case Pop(i) => PopInv(capacity, s, i, e);
        case Finish(i) => FinishInv(capacity, s, i, e);
        case Push(i) => PushInv(capacity, s, i, e);
        case Poll(i, batch) => PollInv(capacity, s, i, batch, e);
        case Take(i) => TakeInv(capacity, s, i, e);
        case LoadRunning(i) => LoadInv(capacity, s, i, e);
        case Reload(i) => ReloadInv(capacity, s, i, e);
      }
      RunInv(capacity, Apply(capacity, s, steps[0]), steps[1..], e);
    }
  }

  /** Threads that hold nothing: at the start, and once they have left their loops. */
  lemma {:induction false} NothingHeld<E>(cs: seq<Consumer<E>>, ps: seq<Processor<E>>, e: E)
    requires forall c :: c in cs ==> c.LoopTop? || c.ConsumerDone?
    requires forall p :: p in ps ==> p.LoopHead? || p.ProcessorDone?
    ensures InHands(cs, e) == InRests(cs, e) == InWorks(ps, e) == 0
    decreases |cs| + |ps|
  {
    if cs != [] {
      assert cs[0] in cs;
      NothingHeld(cs[1..], ps, e);
    } else if ps != [] {
      assert ps[0] in ps;
      NothingHeld(cs, ps[1..], e);
    }
  }

  // The books, told from the steps and from what the threads have in hand.

  /** The messages the polls brought, all of them or those of consumer i. */
  function PolledIn<E>(steps: seq<Step<E>>): seq<Message<E>> {
    if steps == [] then [] else (if steps[0].Poll? then steps[0].batch else []) + PolledIn(steps[1..])
  }

  function PolledBy<E>(steps: seq<Step<E>>, i: nat): seq<Message<E>> {
    if steps == [] then []
    else (if steps[0].Poll? && steps[0].i == i then steps[0].batch else []) + PolledBy(steps[1..], i)
  }

  function Events<E>(messages: seq<Message<E>>): seq<E> {
    if messages == [] then []
    else (if messages[0].Carries? then [messages[0].event] else []) + Events(messages[1..])
  }

  /** The event a step moves into the ring, out of it, or out of a processor's hand. */
  function Pushes<E>(capacity: nat, s: State<E>, step: Step<E>): seq<E>
    requires Enabled(s, step)
  {
    if step.Push? && ConcurrentRing.HasRoom(s.ring, capacity) then [s.consumers[step.i].hand] else []
  }

  function Pops<E>(capacity: nat, s: State<E>, step: Step<E>): seq<E>
    requires Enabled(s, step)
  {
    if !step.Pop? then []
    else
      match Apply(capacity, s, step).processors[step.i]
      case Busy(x) => [x]
      case _ => []
  }

  function Finishes<E>(s: State<E>, step: Step<E>): seq<E>
    requires Enabled(s, step)
  {
    if step.Finish? then [s.processors[step.i].hand] else []
  }

  function Pushed<E>(capacity: nat, s: State<E>, steps: seq<Step<E>>): seq<E>
    requires Run(capacity, s, steps).Some?
    decreases |steps|
  {
    if steps == [] then []
    else Pushes(capacity, s, steps[0]) + Pushed(capacity, Apply(capacity, s, steps[0]), steps[1..])
  }

  function Popped<E>(capacity: nat, s: State<E>, steps: seq<Step<E>>): seq<E>
    requires Run(capacity, s, steps).Some?
    decreases |steps|
  {
    if steps == [] then []
    else Pops(capacity, s, steps[0]) + Popped(capacity, Apply(capacity, s, steps[0]), steps[1..])
  }

  function Finished<E>(capacity: nat, s: State<E>, steps: seq<Step<E>>): seq<E>
    requires Run(capacity, s, steps).Some?
    decreases |steps|
  {
    if steps == [] then []
    else Finishes(s, steps[0]) + Finished(capacity, Apply(capacity, s, steps[0]), steps[1..])
  }

  lemma {:induction false} Regroup<T>(a: seq<T>, b: seq<T>, c: seq<T>)
    ensures (a + b) + c == a + (b + c) && a + [] == a
  {
  }

  lemma {:induction false} NothingBefore<T>(q: seq<T>)
    ensures [] + q == q
  {
  }

  lemma {:induction false} BookStep<E>(capacity: nat, s: State<E>, step: Step<E>)
    requires Enabled(s, step)
    ensures var s' := Apply(capacity, s, step);
      && s'.polled == s.polled + (if step.Poll? then step.batch else [])
      && s'.enqueued == s.enqueued + Pushes(capacity, s, step)
      && s'.dequeued == s.dequeued + Pops(capacity, s, step)
      && s'.processed == s.processed + Finishes(s, step)
  {
    Regroup(s.polled, [], []);
    Regroup(s.enqueued, [], []);
    Regroup(s.dequeued, [], []);
    Regroup(s.processed, [], []);
  }

  /** The books of a run that starts with these in them are right. */
  ghost predicate BooksRight<E>(capacity: nat, s: State<E>, steps: seq<Step<E>>)
    requires Run(capacity, s, steps).Some?
  {
    var t := Run(capacity, s, steps).value;
    && t.polled == s.polled + PolledIn(steps)
    && t.enqueued == s.enqueued + Pushed(capacity, s, steps)
    && t.dequeued == s.dequeued + Popped(capacity, s, steps)
    && t.processed == s.processed + Finished(capacity, s, steps)
  }

  lemma {:induction false} BooksFirst<E>(capacity: nat, s: State<E>, steps: seq<Step<E>>)
    requires steps != [] && Run(capacity, s, steps).Some?
        && BooksRight(capacity, Apply(capacity, s, steps[0]), steps[1..])
    ensures BooksRight(capacity, s, steps)
  {
    var step, s' := steps[0], Apply(capacity, s, steps[0]);
    BookStep(capacity, s, step);
    Regroup(s.polled, if step.Poll? then step.batch else [], PolledIn(steps[1..]));
    Regroup(s.enqueued, Pushes(capacity, s, step), Pushed(capacity, s', steps[1..]));
    Regroup(s.dequeued, Pops(capacity, s, step), Popped(capacity, s', steps[1..]));
    Regroup(s.processed, Finishes(s, step), Finished(capacity, s', steps[1..]));
  }

  lemma {:induction false} RunBooks<E>(capacity: nat, s: State<E>, steps: seq<Step<E>>)
    requires Run(capacity, s, steps).Some?
    ensures BooksRight(capacity, s, steps)
    decreases |steps|
  {
    if steps == [] {
      Regroup(s.polled, [], []);
      Regroup(s.enqueued, [], []);
      Regroup(s.dequeued, [], []);
      Regroup(s.processed, [], []);
    } else {
      RunBooks(capacity, Apply(capacity, s, steps[0]), steps[1..]);
      BooksFirst(capacity, s, steps);
    }
  }

  // The order of one consumer's events.

  /** What a consumer has still to settle: the event in its hand, then those of its batch. */
  function Hand<E>(c: Consumer<E>): seq<E> { if c.Holding? || c.Refused? then [c.hand] else [] }

  function Rest<E>(c: Consumer<E>): seq<Message<E>> { if c.InBatch? || c.Holding? || c.Refused? then c.rest else [] }

  function Pending<E>(c: Consumer<E>): seq<E> { Hand(c) + Events(Rest(c)) }

  /** The event that consumer i enqueues or gives up in a step. */
  function Settles<E>(capacity: nat, s: State<E>, step: Step<E>, i: nat): seq<E>
    requires Enabled(s, step)
  {
    if step.Push? && step.i == i && ConcurrentRing.HasRoom(s.ring, capacity) then [s.consumers[i].hand]
    else if step.Reload? && step.i == i && !s.running then [s.consumers[i].hand]
    else []
  }

  function Settled<E>(capacity: nat, s: State<E>, steps: seq<Step<E>>, i: nat): seq<E>
    requires Run(capacity, s, steps).Some?
    decreases |steps|
  {
    if steps == [] then []
    else Settles(capacity, s, steps[0], i) + Settled(capacity, Apply(capacity, s, steps[0]), steps[1..], i)
  }

  lemma {:induction false} EventsConcat<E>(a: seq<Message<E>>, b: seq<Message<E>>)
    ensures Events(a + b) == Events(a) + Events(b)
  {
    if a == [] {
      assert a + b == b;
    } else {
      assert (a + b)[1..] == a[1..] + b && (a + b)[0] == a[0];
      EventsConcat(a[1..], b);
      Regroup(if a[0].Carries? then [a[0].event] else [], Events(a[1..]), Events(b));
    }
  }

  lemma {:induction false} TakeSettles<E>(capacity: nat, s: State<E>, i: nat)
    requires Enabled(s, Take(i))
    ensures Pending(Apply(capacity, s, Take(i)).consumers[i]) == Pending(s.consumers[i])
  {
    var rest := s.consumers[i].rest;
    if rest != [] && rest[0].Carries? {
      assert Events(rest) == [rest[0].event] + Events(rest[1..]);
    }
  }

  lemma {:induction false} PushSettles<E>(capacity: nat, s: State<E>, step: Step<E>, i: nat)
    requires Enabled(s, step) && (step == Push(i) || step == Reload(i))
    ensures Settles(capacity, s, step, i) + Pending(Apply(capacity, s, step).consumers[i]) == Pending(s.consumers[i])
  {
  }

  lemma {:induction false} PollSettles<E>(capacity: nat, s: State<E>, i: nat, batch: seq<Message<E>>)
    requires Enabled(s, Poll(i, batch))
    ensures Pending(s.consumers[i]) == [] && Pending(Apply(capacity, s, Poll(i, batch)).consumers[i]) == Events(batch)
  {
  }

  /** Steps of other threads leave a consumer as it is. */
  lemma {:induction false} OtherStep<E>(capacity: nat, s: State<E>, step: Step<E>, i: nat)
    requires Enabled(s, step) && i < |s.consumers|
    requires step.Stop? || step.LoadRunningP? || step.Pop? || step.Finish? || step.i != i
    ensures Apply(capacity, s, step).consumers[i] == s.consumers[i] && Settles(capacity, s, step, i) == []
  {
  }

  lemma {:induction false} LoadSettles<E>(capacity: nat, s: State<E>, i: nat)
    requires Enabled(s, LoadRunning(i))
    ensures Pending(s.consumers[i]) == Pending(Apply(capacity, s, LoadRunning(i)).consumers[i]) == []
  {
  }

  lemma {:induction false} SameConsumers<E>(capacity: nat, s: State<E>, step: Step<E>)
    requires Enabled(s, step)
    ensures |Apply(capacity, s, step).consumers| == |s.consumers|
  {
  }

  predicate OfConsumer<E>(step: Step<E>, i: nat) {
    (step.LoadRunning? || step.Poll? || step.Take? || step.Push? || step.Reload?) && step.i == i
  }

  lemma {:induction false} SettleStep<E>(capacity: nat, s: State<E>, step: Step<E>, i: nat)
    requires Enabled(s, step) && i < |s.consumers|
    ensures var c, c' := s.consumers[i], Apply(capacity, s, step).consumers[i];
      Settles(capacity, s, step, i) + Pending(c')
        == Pending(c) + if step.Poll? && step.i == i then Events(step.batch) else []
  {
    var c := s.consumers[i];
    Regroup(Pending(c), [], []);
    NothingBefore(Pending(c));
    if !OfConsumer(step, i) {
      OtherStep(capacity, s, step, i);
    } else {
      match step
      case LoadRunning(_) => LoadSettles(capacity, s, i);
      case Poll(_, batch) => PollSettles(capacity, s, i, batch);
      case Take(_) => TakeSettles(capacity, s, i);
      case Push(_) => PushSettles(capacity, s, step, i);
      case Reload(_) => PushSettles(capacity, s, step, i);
    }
  }

  /** Each consumer enqueues or gives up its events in the order it polled them. */
  lemma {:induction false} OrderKept<E>(capacity: nat, s: State<E>, steps: seq<Step<E>>, i: nat)
    requires Run(capacity, s, steps).Some? && i < |s.consumers|
    ensures var t := Run(capacity, s, steps).value;
      && |t.consumers| == |s.consumers|
      && Settled(capacity, s, steps, i) + Pending(t.consumers[i])
         == Pending(s.consumers[i]) + Events(PolledBy(steps, i))
    decreases |steps|
  {
    if steps == [] {
      Regroup(Pending(s.consumers[i]), [], []);
    } else {
      var step, s' := steps[0], Apply(capacity, s, steps[0]);
      var batch := if step.Poll? && step.i == i then step.batch else [];
      SameConsumers(capacity, s, step);
      SettleStep(capacity, s, step, i);
      OrderKept(capacity, s', steps[1..], i);
      EventsConcat(batch, PolledBy(steps[1..], i));
      Regroup(Settles(capacity, s, step, i), Settled(capacity, s', steps[1..], i),
              Pending(Run(capacity, s, steps).value.consumers[i]));
      Regroup(Settles(capacity, s, step, i), Pending(s'.consumers[i]), Events(PolledBy(steps[1..], i)));
      Regroup(Pending(s.consumers[i]), Events(batch), Events(PolledBy(steps[1..], i)));
    }
  }

  /** No thread is ever held up: one that has not left its loop can take a step. */
  lemma {:induction false} NeverBlocked<E>(s: State<E>, i: nat)
    ensures i < |s.consumers| && !s.consumers[i].ConsumerDone? ==> exists step: Step<E> ::
      (step.LoadRunning? || step.Poll? || step.Take? || step.Push? || step.Reload?) && step.i == i && Enabled(s, step)
    ensures i < |s.processors| && !s.processors[i].ProcessorDone? ==> exists step: Step<E> ::
      (step.LoadRunningP? || step.Pop? || step.Finish?) && step.i == i && Enabled(s, step)
  {
    if i < |s.consumers| {
      match s.consumers[i]
      case LoopTop => assert Enabled(s, LoadRunning(i));
      case Polling => assert Enabled(s, Poll(i, []));
      case InBatch(_) => assert Enabled(s, Take(i));
      case Holding(_, _) => assert Enabled(s, Push(i));
      case Refused(_, _) => assert Enabled(s, Reload(i));
      case ConsumerDone =>
    }
    if i < |s.processors| {
      match s.processors[i]
      case LoopHead => assert Enabled(s, LoadRunningP(i));
      case Popping => assert Enabled(s, Pop(i));
      case Busy(_) => assert Enabled(s, Finish(i));
      case ProcessorDone =>
    }
  }

  predicate Fresh<E(==)>(s: State<E>) { s.polled == [] && s.enqueued == s.dequeued == s.processed == [] }

  lemma {:induction false} BooksFresh<E>(capacity: nat, s0: State<E>, steps: seq<Step<E>>)
    requires Run(capacity, s0, steps).Some? && Fresh(s0)
    ensures var s := Run(capacity, s0, steps).value;
      && s.polled == PolledIn(steps) && s.enqueued == Pushed(capacity, s0, steps)
      && s.dequeued == Popped(capacity, s0, steps) && s.processed == Finished(capacity, s0, steps)
  {
    RunBooks(capacity, s0, steps);
    NothingBefore(PolledIn(steps));
    NothingBefore(Pushed(capacity, s0, steps));
    NothingBefore(Popped(capacity, s0, steps));
    NothingBefore(Finished(capacity, s0, steps));
  }

  lemma {:induction false} Balance<E>(capacity: nat, s: State<E>, e: E)
    requires Inv(capacity, s, e)
    ensures Times(s.consumed, e) == InHands(s.consumers, e) + Times(s.ring, e) + InWorks(s.processors, e)
                                    + Times(s.processed, e) + Times(s.dropped, e)
  {
  }

  /** Whatever the interleaving and however often a push is refused: each event the
      consumers counted is in exactly one place, the ring hands events over in order and
      never holds more than capacity - 1, and nothing is dropped while running_ holds. */
  lemma {:induction false} Conservation<E>(capacity: nat, consumers: nat, processors: nat, steps: seq<Step<E>>, e: E)
    requires capacity > 0 && Run(capacity, Init<E>(consumers, processors), steps).Some?
    ensures var s0 := Init<E>(consumers, processors); var s := Run(capacity, s0, steps).value;
            && s.polled == PolledIn(steps) && s.processed == Finished(capacity, s0, steps)
            && Times(s.consumed, e)
               == InHands(s.consumers, e) + Times(s.ring, e) + InWorks(s.processors, e)
                  + Times(s.processed, e) + Times(s.dropped, e)
            && InMessages(PolledIn(steps), e) == Times(s.consumed, e) + InRests(s.consumers, e)
            && Popped(capacity, s0, steps) + s.ring == Pushed(capacity, s0, steps) && |s.ring| <= capacity - 1
            && (s.running ==> s.dropped == [])
  {
    var s0 := Init<E>(consumers, processors);
    NothingHeld(s0.consumers, s0.processors, e);
    RunInv(capacity, s0, steps, e);
    BooksFresh(capacity, s0, steps);
    Balance(capacity, Run(capacity, s0, steps).value, e);
  }

  /** Once every thread has left its loop, an event was processed as often as it was polled
      unless it was left in the ring or given up by a consumer: stop() drains nothing. */
  lemma {:induction false} StopLosesExactlyTheRest<E>(capacity: nat, consumers: nat, processors: nat,
      steps: seq<Step<E>>, e: E)
    requires capacity > 0 && Run(capacity, Init<E>(consumers, processors), steps).Some?
    requires var s := Run(capacity, Init<E>(consumers, processors), steps).value;
             (forall c :: c in s.consumers ==> c.ConsumerDone?) && (forall p :: p in s.processors ==> p.ProcessorDone?)
    ensures var s := Run(capacity, Init<E>(consumers, processors), steps).value;
            var processed := Finished(capacity, Init<E>(consumers, processors), steps);
            && InMessages(PolledIn(steps), e) == Times(processed, e) + Times(s.ring, e) + Times(s.dropped, e)
            && (InMessages(PolledIn(steps), e) == Times(processed, e) <==> e !in s.ring && e !in s.dropped)
  {
    Conservation(capacity, consumers, processors, steps, e);
    var s := Run(capacity, Init<E>(consumers, processors), steps).value;
    NothingHeld(s.consumers, s.processors, e);
  }

  lemma {:induction false} RunConcat<E>(capacity: nat, s: State<E>, a: seq<Step<E>>, b: seq<Step<E>>)
    requires Run(capacity, s, a).Some?
    ensures Run(capacity, s, a + b) == Run(capacity, Run(capacity, s, a).value, b)
    decreases |a|
  {
    if a == [] {
      assert a + b == b;
    } else {
      assert (a + b)[1..] == a[1..] + b;
      RunConcat(capacity, Apply(capacity, s, a[0]), a[1..], b);
    }
  }

  function Lost<E>(e: E): State<E> {
    State(false, [ConsumerDone], [ProcessorDone], [e], [e], [e], [], [], [], [Carries(e)], 1)
  }

  lemma {:induction false} ReachesLost<E>(e: E)
    ensures Run(2, Init<E>(1, 1), [LoadRunning(0), Poll(0, [Carries(e)]), Take(0), Push(0)]) ==
            Some(State(true, [InBatch([])], [LoopHead], [e], [e], [e], [], [], [], [Carries(e)], 0))
  {
    var steps: seq<Step<E>> := [LoadRunning(0), Poll(0, [Carries(e)]), Take(0), Push(0)];
    var s1 := Apply(2, Init<E>(1, 1), steps[0]);
    var s2 := Apply(2, s1, steps[1]);
    assert s2.consumers == [InBatch([Carries(e)])] && s2.polled == [Carries(e)];
    var s3 := Apply(2, s2, steps[2]);
    assert [Carries(e)][1..] == [];
    assert s3.consumers == [Holding(e, [])];
    var s4 := Apply(2, s3, steps[3]);
    assert s4.consumers == [InBatch([])] && s4.processors == [LoopHead];
    assert Run(2, s3, steps[3..]) == Some(s4);
    assert Run(2, s2, steps[2..]) == Some(s4);
    assert Run(2, s1, steps[1..]) == Some(s4);
    assert s4 == State(true, [InBatch([])], [LoopHead], [e], [e], [e], [], [], [], [Carries(e)], 0);
    assert Run(2, Init<E>(1, 1), steps) == Some(s4);
  }

  lemma {:induction false} GoesOnToLost<E>(e: E)
    ensures Run(2, State(true, [InBatch([])], [LoopHead], [e], [e], [e], [], [], [], [Carries(e)], 0),
                [Take(0), Stop, LoadRunning(0), LoadRunningP(0)]) == Some(Lost(e))
  {
    var steps: seq<Step<E>> := [Take(0), Stop, LoadRunning(0), LoadRunningP(0)];
    var s0 := State(true, [InBatch([])], [LoopHead], [e], [e], [e], [], [], [], [Carries(e)], 0);
    var s1 := Apply(2, s0, steps[0]);
    var s2 := Apply(2, s1, steps[1]);
    assert s2.consumers == [LoopTop] && s2.committed == 1;
    var s3 := Apply(2, s2, steps[2]);
    var s4 := Apply(2, s3, steps[3]);
    assert s4.consumers == [ConsumerDone] && s4.processors == [ProcessorDone];
    assert Run(2, s3, steps[3..]) == Some(s4);
    assert Run(2, s2, steps[2..]) == Some(s4);
    assert Run(2, s1, steps[1..]) == Some(s4);
  }

  /** Offsets are committed once a batch is enqueued, not once it is processed, so an event
      can be committed and yet never processed. */
  lemma {:induction false} CommittedYetLost<E>(e: E)
    ensures exists steps: seq<Step<E>> ::
              var r := Run(2, Init<E>(1, 1), steps);
              && r.Some? && r.value.polled == [Carries(e)] && r.value.committed == 1
              && r.value.consumers == [ConsumerDone] && r.value.processors == [ProcessorDone]
              && r.value.processed == [] && r.value.ring == [e]
  {
    var a: seq<Step<E>> := [LoadRunning(0), Poll(0, [Carries(e)]), Take(0), Push(0)];
    var b: seq<Step<E>> := [Take(0), Stop, LoadRunning(0), LoadRunningP(0)];
    ReachesLost(e);
    GoesOnToLost(e);
    RunConcat(2, Init<E>(1, 1), a, b);
    assert Run(2, Init<E>(1, 1), a + b) == Some(Lost(e));
  }
}
