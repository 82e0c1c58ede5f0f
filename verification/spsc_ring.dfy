/** LockFreeCircularBuffer: one producer, one consumer, and no lock.

    The two threads are a transition system whose steps are the single atomic loads and
    stores and the single accesses to a slot.  Each atomic index keeps its modification
    order (every value ever stored).  An acquire load by the *other* thread may return any
    value in that order which is not older than the one it returned last, so a thread may
    work with an arbitrarily stale view of its peer. */
module SpscRing {
  import opened Bits
  import opened Wrappers

  datatype Slot<T> = Raw | Live(value: T) | MovedFrom

  /** Where `try_push` stands; `head` is the local the code keeps. */
  datatype Producer<T> =
    | Quiet
    | HasHead(value: T, head: nat)      // head_.load(relaxed) done
    | MayConstruct(value: T, head: nat) // tail_.load(acquire) showed room
    | Constructed(value: T, head: nat)  // placement new done, head_ not yet stored

  /** Where `try_pop` stands; `tail` is the local the code keeps. */
  datatype Consumer<T> =
    | Resting
    | HasTail(tail: nat)                // tail_.load(relaxed) done
    | MayMove(tail: nat)                // head_.load(acquire) showed an element
    | Moved(value: T, tail: nat)        // moved out, destructor not yet run
    | Destroyed(value: T, tail: nat)    // destructor run, tail_ not yet stored

  datatype State<T> = State(
    slots: seq<Slot<T>>,
    heads: seq<nat>,    // modification order of head_, newest last
    tails: seq<nat>,    // modification order of tail_
    producer: Producer<T>,
    consumer: Consumer<T>,
    tailSeen: nat,      // position in `tails` of the value the producer loaded last
    headSeen: nat,      // position in `heads` of the value the consumer loaded last
    pushed: seq<T>,     // arguments of the try_push calls that stored head_
    popped: seq<T>,     // results of the try_pop calls that stored tail_
    fault: bool)        // some access left the buffer or met a slot in the wrong state

  datatype Step<T> =
    | BeginPush(value: T) | LoadTail(at: nat) | Construct | StoreHead
    | BeginPop | LoadHead(at: nat) | MoveOut | Destroy | StoreTail

  /** `(index + 1) & mask_` */
  function Next(index: nat, capacity: nat): nat
    requires capacity > 0
  {
    BitAnd(index + 1, capacity - 1)
  }

  function Init<T>(capacity: nat): State<T> {
    State(seq(capacity, _ => Raw), [0], [0], Quiet, Resting, 0, 0, [], [], false)
  }

  predicate Enabled<T>(s: State<T>, step: Step<T>) {
    match step
    case BeginPush(_) => s.producer.Quiet? && |s.heads| > 0
    case LoadTail(i)  => s.producer.HasHead? && s.tailSeen <= i < |s.tails|
    case Construct    => s.producer.MayConstruct?
    case StoreHead    => s.producer.Constructed?
    case BeginPop     => s.consumer.Resting? && |s.tails| > 0
    case LoadHead(i)  => s.consumer.HasTail? && s.headSeen <= i < |s.heads|
    case MoveOut      => s.consumer.MayMove?
    case Destroy      => s.consumer.Moved?
    case StoreTail    => s.consumer.Destroyed?
  }

  function Apply<T>(capacity: nat, s: State<T>, step: Step<T>): State<T>
    requires capacity > 0 && Enabled(s, step)
  {
    match step
    case BeginPush(v) => s.(producer := HasHead(v, s.heads[|s.heads| - 1]))
    case LoadTail(i) =>
      var p := s.producer;
      s.(tailSeen := i,
         producer := if Next(p.head, capacity) == s.tails[i] then Quiet else MayConstruct(p.value, p.head))
    case Construct =>
      var p := s.producer;
      var next := s.(producer := Constructed(p.value, p.head));
      if p.head < |s.slots| && s.slots[p.head].Raw?
      then next.(slots := s.slots[p.head := Live(p.value)])
      else next.(fault := true)
    case StoreHead =>
      var p := s.producer;
      s.(heads := s.heads + [Next(p.head, capacity)], pushed := s.pushed + [p.value], producer := Quiet)
    case BeginPop => s.(consumer := HasTail(s.tails[|s.tails| - 1]))
    case LoadHead(i) =>
      var c := s.consumer;
      s.(headSeen := i,
         consumer := if c.tail == s.heads[i] then Resting else MayMove(c.tail))
    case MoveOut =>
      var c := s.consumer;
      if c.tail < |s.slots| && s.slots[c.tail].Live?
      then s.(slots := s.slots[c.tail := MovedFrom], consumer := Moved(s.slots[c.tail].value, c.tail))
      else s.(fault := true, consumer := Resting)
    case Destroy =>
      var c := s.consumer;
      var next := s.(consumer := Destroyed(c.value, c.tail));
      if c.tail < |s.slots| && s.slots[c.tail].MovedFrom?
      then next.(slots := s.slots[c.tail := Raw])
      else next.(fault := true)
    case StoreTail =>
      var c := s.consumer;
      s.(tails := s.tails + [Next(c.tail, capacity)], popped := s.popped + [c.value], consumer := Resting)
  }

  /** The slots hold, from the oldest unpopped element on, the live elements, the element
      under construction, and then only raw storage, once round the buffer. */
  function Expected<T>(s: State<T>, j: nat): Slot<T>
    requires |s.popped| <= |s.pushed|
  {
    if j == |s.popped| && s.consumer.Moved? then MovedFrom
    else if j == |s.popped| && s.consumer.Destroyed? then Raw
    else if |s.popped| <= j < |s.pushed| then Live(s.pushed[j])
    else if j == |s.pushed| && s.producer.Constructed? then Live(s.producer.value)
    else Raw
  }

  function SlotOf<T>(capacity: nat, s: State<T>, j: nat): Slot<T>
    requires |s.slots| == capacity > 0
  {
    s.slots[j % capacity]
  }

  ghost predicate IndexInv<T>(capacity: nat, s: State<T>) {
    var n, m := |s.pushed|, |s.popped|;
    && |s.slots| == capacity > 0 && IsPow2(capacity) && !s.fault
    && |s.heads| == n + 1 && (forall j :: 0 <= j <= n ==> s.heads[j] == j % capacity)
    && |s.tails| == m + 1 && (forall j :: 0 <= j <= m ==> s.tails[j] == j % capacity)
    && m <= s.headSeen <= n
    && s.tailSeen <= m
    && n < s.tailSeen + capacity
    && s.popped == s.pushed[..m]
  }

  ghost predicate ThreadInv<T>(capacity: nat, s: State<T>)
    requires IndexInv(capacity, s)
  {
    var n, m := |s.pushed|, |s.popped|;
    && (!s.producer.Quiet? ==> s.producer.head == n % capacity)
    && (s.producer.MayConstruct? || s.producer.Constructed? ==> n + 1 < s.tailSeen + capacity)
    && (!s.consumer.Resting? ==> s.consumer.tail == m % capacity)
    && (s.consumer.MayMove? || s.consumer.Moved? || s.consumer.Destroyed? ==> m < s.headSeen)
    && (s.consumer.Moved? || s.consumer.Destroyed? ==> s.consumer.value == s.pushed[m])
  }

  ghost predicate Inv<T>(capacity: nat, s: State<T>) {
    && IndexInv(capacity, s) && ThreadInv(capacity, s)
    && forall j :: |s.popped| <= j < |s.popped| + capacity ==> SlotOf(capacity, s, j) == Expected(s, j)
  }

  lemma {:induction false} NextIsSucc(j: nat, capacity: nat)
    requires capacity > 0 && IsPow2(capacity)
    ensures Next(j % capacity, capacity) == (j + 1) % capacity
  {
    var k: nat :| k <= capacity && capacity == Pow2(k);
    MaskIsMod(j % capacity + 1, k);
    ModSucc(j, capacity);
  }

  /** Writing slot j leaves the other slots of one round alone. */
  lemma {:induction false} OtherSlots(capacity: nat, j: nat, from: nat)
    requires capacity > 0 && from <= j < from + capacity
    ensures forall i :: from <= i < from + capacity && i != j ==> i % capacity != j % capacity
  {
    forall i | from <= i < from + capacity && i != j ensures i % capacity != j % capacity {
      if i < j { ModDistinct(i, j, capacity); } else { ModDistinct(j, i, capacity); }
    }
  }

  lemma {:induction false} InitInv<T>(capacity: nat)
    requires capacity > 0 && BitAnd(capacity, capacity - 1) == 0
    ensures Inv(capacity, Init<T>(capacity))
  {
    PowerOfTwoTest(capacity);
  }

  lemma {:induction false} LoadTailInv<T>(capacity: nat, s: State<T>, i: nat)
    requires Inv(capacity, s) && Enabled(s, LoadTail(i))
    ensures Inv(capacity, Apply(capacity, s, LoadTail(i)))
    ensures Apply(capacity, s, LoadTail(i)).producer.MayConstruct? <==> |s.pushed| - i < capacity - 1
  {
    var s' := Apply(capacity, s, LoadTail(i));
    var n := |s.pushed|;
    NextIsSucc(n, capacity);
    if n + 1 < i + capacity {
      ModDistinct(i, n + 1, capacity);
    } else {
      ModShift(i, 1, capacity);
    }
    assert IndexInv(capacity, s') && ThreadInv(capacity, s');
    assert forall j :: |s.popped| <= j < |s.popped| + capacity ==> SlotOf(capacity, s', j) == SlotOf(capacity, s, j);
  }

  lemma {:induction false} LoadHeadInv<T>(capacity: nat, s: State<T>, i: nat)
    requires Inv(capacity, s) && Enabled(s, LoadHead(i))
    ensures Inv(capacity, Apply(capacity, s, LoadHead(i)))
    ensures Apply(capacity, s, LoadHead(i)).consumer.MayMove? <==> |s.popped| < i
  {
    var s' := Apply(capacity, s, LoadHead(i));
    if |s.popped| < i { ModDistinct(|s.popped|, i, capacity); }
    assert forall j :: |s.popped| <= j < |s.popped| + capacity ==> SlotOf(capacity, s', j) == SlotOf(capacity, s, j);
  }

  lemma {:induction false} ConstructInv<T>(capacity: nat, s: State<T>)
    requires Inv(capacity, s) && Enabled(s, Construct)
    ensures Inv(capacity, Apply(capacity, s, Construct))
  {
    var n, m, s' := |s.pushed|, |s.popped|, Apply(capacity, s, Construct);
    OtherSlots(capacity, n, m);
    assert SlotOf(capacity, s, n) == Raw;
    assert IndexInv(capacity, s') && ThreadInv(capacity, s');
    assert forall j :: m <= j < m + capacity && j != n ==> SlotOf(capacity, s', j) == SlotOf(capacity, s, j);
  }

  lemma {:induction false} StoreHeadInv<T>(capacity: nat, s: State<T>)
    requires Inv(capacity, s) && Enabled(s, StoreHead)
    ensures Inv(capacity, Apply(capacity, s, StoreHead))
  {
    var m, s' := |s.popped|, Apply(capacity, s, StoreHead);
    NextIsSucc(|s.pushed|, capacity);
    assert IndexInv(capacity, s') && ThreadInv(capacity, s');
    assert forall j :: m <= j < m + capacity ==> SlotOf(capacity, s', j) == SlotOf(capacity, s, j);
  }

  lemma {:induction false} MoveOutInv<T>(capacity: nat, s: State<T>)
    requires Inv(capacity, s) && Enabled(s, MoveOut)
    ensures Inv(capacity, Apply(capacity, s, MoveOut))
  {
    var m, s' := |s.popped|, Apply(capacity, s, MoveOut);
    OtherSlots(capacity, m, m);
    assert SlotOf(capacity, s, m) == Live(s.pushed[m]);
    assert IndexInv(capacity, s') && ThreadInv(capacity, s');
    assert forall j :: m <= j < m + capacity && j != m ==> SlotOf(capacity, s', j) == SlotOf(capacity, s, j);
  }

  lemma {:induction false} DestroyInv<T>(capacity: nat, s: State<T>)
    requires Inv(capacity, s) && Enabled(s, Destroy)
    ensures Inv(capacity, Apply(capacity, s, Destroy))
  {
    var m, s' := |s.popped|, Apply(capacity, s, Destroy);
    OtherSlots(capacity, m, m);
    assert SlotOf(capacity, s, m) == MovedFrom;
    assert IndexInv(capacity, s') && ThreadInv(capacity, s');
    assert forall j :: m <= j < m + capacity && j != m ==> SlotOf(capacity, s', j) == SlotOf(capacity, s, j);
  }

  lemma {:induction false} StoreTailInv<T>(capacity: nat, s: State<T>)
    requires Inv(capacity, s) && Enabled(s, StoreTail)
    ensures Inv(capacity, Apply(capacity, s, StoreTail))
  {
    var m, s' := |s.popped|, Apply(capacity, s, StoreTail);
    NextIsSucc(m, capacity);
    ModShift(m, 1, capacity);
    assert IndexInv(capacity, s') && ThreadInv(capacity, s');
    assert SlotOf(capacity, s, m) == Raw;
    assert SlotOf(capacity, s', m + capacity) == Raw;
    assert forall j :: m <= j < m + capacity ==> SlotOf(capacity, s', j) == SlotOf(capacity, s, j);
  }

  lemma {:induction false} BeginInv<T>(capacity: nat, s: State<T>, step: Step<T>)
    requires Inv(capacity, s) && Enabled(s, step) && (step.BeginPush? || step.BeginPop?)
    ensures Inv(capacity, Apply(capacity, s, step))
  {
    var s' := Apply(capacity, s, step);
    assert forall j :: |s.popped| <= j < |s.popped| + capacity ==> SlotOf(capacity, s', j) == SlotOf(capacity, s, j);
  }

  lemma {:induction false} StepInv<T>(capacity: nat, s: State<T>, step: Step<T>)
    requires Inv(capacity, s) && Enabled(s, step)
    ensures Inv(capacity, Apply(capacity, s, step))
  {
    match step
    case BeginPush(_) => BeginInv(capacity, s, step);
    case LoadTail(i)  => LoadTailInv(capacity, s, i);
    case Construct    => ConstructInv(capacity, s);
    case StoreHead    => StoreHeadInv(capacity, s);
    case BeginPop     => BeginInv(capacity, s, step);
    case LoadHead(i)  => LoadHeadInv(capacity, s, i);
    case MoveOut      => MoveOutInv(capacity, s);
    case Destroy      => DestroyInv(capacity, s);
    case StoreTail    => StoreTailInv(capacity, s);
  }

  /** An interleaving: the steps are taken in order, each where it is enabled. */
  function Run<T>(capacity: nat, s: State<T>, steps: seq<Step<T>>): Option<State<T>>
    requires capacity > 0
    decreases |steps|
  {
    if steps == [] then Some(s)
    else if !Enabled(s, steps[0]) then None
    else Run(capacity, Apply(capacity, s, steps[0]), steps[1..])
  }

  lemma {:induction false} RunInv<T>(capacity: nat, s: State<T>, steps: seq<Step<T>>)
    requires capacity > 0 && Inv(capacity, s) && Run(capacity, s, steps).Some?
    ensures Inv(capacity, Run(capacity, s, steps).value)
    decreases |steps|
  {
    if steps != [] {
      StepInv(capacity, s, steps[0]);
      RunInv(capacity, Apply(capacity, s, steps[0]), steps[1..]);
    }
  }

  // The calls, told from the steps alone.

  /** The argument of the latest try_push begun, or `before` when none is. */
  function Latest<T>(steps: seq<Step<T>>, before: Option<T>): Option<T>
    decreases |steps|
  {
    if steps == [] then before else Latest(steps[1..], if steps[0].BeginPush? then Some(steps[0].value) else before)
  }

  /** For every store of head_ the argument of the latest try_push begun before it. */
  function Stored<T>(steps: seq<Step<T>>, latest: Option<T>): seq<T>
    decreases |steps|
  {
    if steps == [] then []
    else
      match steps[0]
      case BeginPush(v) => Stored(steps[1..], Some(v))
      case StoreHead => (if latest.Some? then [latest.value] else []) + Stored(steps[1..], latest)
      case _ => Stored(steps[1..], latest)
  }

  /** The stores of tail_. */
  function Releases<T>(steps: seq<Step<T>>): nat {
    if steps == [] then 0 else (if steps[0].StoreTail? then 1 else 0) + Releases(steps[1..])
  }

  /** A try_push in progress holds this argument. */
  ghost predicate InCall<T>(s: State<T>, latest: Option<T>) {
    !s.producer.Quiet? ==> latest == Some(s.producer.value)
  }

  lemma {:induction false} CallStep<T>(capacity: nat, s: State<T>, step: Step<T>, latest: Option<T>)
    requires capacity > 0 && Enabled(s, step) && InCall(s, latest)
    ensures var s' := Apply(capacity, s, step);
      && InCall(s', Latest([step], latest))
      && s'.pushed == s.pushed + Stored([step], latest)
      && |s'.popped| == |s.popped| + Releases([step])
  {
    assert [step][1..] == [];
    assert Stored([step][1..], Latest([step], latest)) == [] && Releases([step][1..]) == 0;
  }

  lemma {:induction false} CallsFirst<T>(steps: seq<Step<T>>, latest: Option<T>)
    requires steps != []
    ensures var first := [steps[0]];
      && Latest(steps, latest) == Latest(steps[1..], Latest(first, latest))
      && Stored(steps, latest) == Stored(first, latest) + Stored(steps[1..], Latest(first, latest))
      && Releases(steps) == Releases(first) + Releases(steps[1..])
  {
    var first := [steps[0]];
    assert first[1..] == [];
    assert Stored(first[1..], Latest(first, latest)) == [] && Releases(first[1..]) == 0;
  }

  /** What a run pushes is told by its steps: the argument of the latest call at each store. */
  lemma {:induction false} RunCalls<T>(capacity: nat, s: State<T>, steps: seq<Step<T>>, latest: Option<T>)
    requires capacity > 0 && Run(capacity, s, steps).Some? && InCall(s, latest)
    ensures var t := Run(capacity, s, steps).value;
      && InCall(t, Latest(steps, latest))
      && t.pushed == s.pushed + Stored(steps, latest)
      && |t.popped| == |s.popped| + Releases(steps)
    decreases |steps|
  {
    if steps != [] {
      CallStep(capacity, s, steps[0], latest);
      CallsFirst(steps, latest);
      RunCalls(capacity, Apply(capacity, s, steps[0]), steps[1..], Latest([steps[0]], latest));
    }
  }

  /** In every state of every interleaving, with any amount of staleness: the pushed elements
      are the arguments of the calls that stored head_, a call in progress holds its own, and
      what has been popped, or is about to be returned, is the first of them; never more than
      capacity - 1 are held, and every construction is on raw storage, every move from a live
      object and every destruction of a moved-from one. */
  lemma {:induction false} FifoSafety<T>(capacity: nat, steps: seq<Step<T>>)
    requires capacity > 0 && BitAnd(capacity, capacity - 1) == 0
    requires Run(capacity, Init<T>(capacity), steps).Some?
    ensures var s, args, n := Run(capacity, Init<T>(capacity), steps).value, Stored(steps, None), Releases(steps);
            && s.pushed == args && InCall(s, Latest(steps, None))
            && n <= |args| && s.popped == args[..n]
            && (s.consumer.Moved? || s.consumer.Destroyed? ==> n < |args| && s.consumer.value == args[n])
            && |args| - n <= capacity - 1
            && !s.fault
  {
    InitInv<T>(capacity);
    RunInv(capacity, Init<T>(capacity), steps);
    RunCalls(capacity, Init<T>(capacity), steps, None);
  }

  // Calls finish.

  /** The steps a thread has left in its call. */
  function PushLeft<T>(p: Producer<T>): nat {
    match p
    case Quiet => 0
    case HasHead(_, _) => 3
    case MayConstruct(_, _) => 2
    case Constructed(_, _) => 1
  }

  function PopLeft<T>(c: Consumer<T>): nat {
    match c
    case Resting => 0
    case HasTail(_) => 4
    case MayMove(_) => 3
    case Moved(_, _) => 2
    case Destroyed(_, _) => 1
  }

  predicate OfProducer<T>(step: Step<T>) { step.BeginPush? || step.LoadTail? || step.Construct? || step.StoreHead? }

  /** Wait-freedom: whatever the other thread does, a thread in a call can always take its next
      step, a call takes at most four or five steps of its own, and between calls a thread can
      begin one. */
  lemma {:induction false} WaitFree<T>(capacity: nat, s: State<T>, step: Step<T>)
    requires Inv(capacity, s)
    ensures if s.producer.Quiet? then forall v :: Enabled(s, BeginPush(v))
            else exists next: Step<T> :: OfProducer(next) && !next.BeginPush? && Enabled(s, next)
    ensures if s.consumer.Resting? then Enabled(s, BeginPop)
            else exists next: Step<T> :: !OfProducer(next) && !next.BeginPop? && Enabled(s, next)
    ensures Enabled(s, step) ==>
              var s' := Apply(capacity, s, step);
              if OfProducer(step) then
                && s'.consumer == s.consumer
                && if step.BeginPush? then PushLeft(s'.producer) == 3 else PushLeft(s'.producer) < PushLeft(s.producer)
              else
                && s'.producer == s.producer
                && if step.BeginPop? then PopLeft(s'.consumer) == 4 else PopLeft(s'.consumer) < PopLeft(s.consumer)
  {
    var tail, head: Step<T> := LoadTail(|s.tails| - 1), LoadHead(|s.heads| - 1);
    match s.producer {
      case Quiet =>
      case HasHead(_, _) => assert Enabled(s, tail);
      case MayConstruct(_, _) => assert Enabled(s, Construct);
      case Constructed(_, _) => assert Enabled(s, StoreHead);
    }
    match s.consumer {
      case Resting =>
      case HasTail(_) => assert Enabled(s, head);
      case MayMove(_) => assert Enabled(s, MoveOut);
      case Moved(_, _) => assert Enabled(s, Destroy);
      case Destroyed(_, _) => assert Enabled(s, StoreTail);
    }
    if Enabled(s, step) && step.MoveOut? { StepInv(capacity, s, step); }
  }

  /** Freedom from data races.  The two threads are never at one slot, and each access
      to a slot is ordered after the peer's last access to it, because the store that
      published that access is one the thread has already loaded (or an earlier one). */
  lemma {:induction false} RaceFreedom<T>(capacity: nat, steps: seq<Step<T>>)
    requires capacity > 0 && BitAnd(capacity, capacity - 1) == 0
    requires Run(capacity, Init<T>(capacity), steps).Some?
    ensures var s := Run(capacity, Init<T>(capacity), steps).value;
            var writing := s.producer.MayConstruct? || s.producer.Constructed?;
            var reading := s.consumer.MayMove? || s.consumer.Moved?;
            && (writing && (reading || s.consumer.Destroyed?) ==> s.producer.head != s.consumer.tail)
            && (writing ==> |s.pushed| - capacity + 1 <= s.tailSeen)
            && (reading ==> |s.popped| + 1 <= s.headSeen)
  {
    InitInv<T>(capacity);
    RunInv(capacity, Init<T>(capacity), steps);
    var s := Run(capacity, Init<T>(capacity), steps).value;
    if |s.popped| < |s.pushed| { ModDistinct(|s.popped|, |s.pushed|, capacity); }
  }

  function Count<T(==)>(steps: seq<Step<T>>, step: Step<T>): nat {
    if steps == [] then 0 else (if steps[0] == step then 1 else 0) + Count(steps[1..], step)
  }

  function Built<T>(s: State<T>): nat { |s.pushed| + (if s.producer.Constructed? then 1 else 0) }

  function Ended<T>(s: State<T>): nat { |s.popped| + (if s.consumer.Destroyed? then 1 else 0) }

  lemma {:induction false} LifetimesFrom<T>(capacity: nat, s: State<T>, steps: seq<Step<T>>)
    requires capacity > 0 && Run(capacity, s, steps).Some?
    ensures Built(s) + Count(steps, Construct) == Built(Run(capacity, s, steps).value)
    ensures Ended(s) + Count(steps, Destroy) == Ended(Run(capacity, s, steps).value)
    decreases |steps|
  {
    if steps != [] {
      LifetimesFrom(capacity, Apply(capacity, s, steps[0]), steps[1..]);
    }
  }

  /** One construction per accepted push and one destruction per completed pop; with no
      fault ever raised (FifoSafety), each popped object was built once and destroyed once. */
  lemma {:induction false} Lifetimes<T>(capacity: nat, steps: seq<Step<T>>)
    requires capacity > 0 && BitAnd(capacity, capacity - 1) == 0
    requires Run(capacity, Init<T>(capacity), steps).Some?
    ensures var s := Run(capacity, Init<T>(capacity), steps).value;
            && !s.fault
            && Count(steps, Construct) == |s.pushed| + (if s.producer.Constructed? then 1 else 0)
            && Count(steps, Destroy) == |s.popped| + (if s.consumer.Destroyed? then 1 else 0)
  {
    FifoSafety<T>(capacity, steps);
    LifetimesFrom(capacity, Init<T>(capacity), steps);
  }

  /** A stale view can only make `try_push` refuse and `try_pop` find nothing: whatever is
      admitted is really there, and with the newest value the answer is exact. */
  lemma {:induction false} AdmissionExact<T>(capacity: nat, s: State<T>, i: nat)
    requires Inv(capacity, s)
    ensures Enabled(s, LoadTail(i)) ==>
              var admitted := Apply(capacity, s, LoadTail(i)).producer.MayConstruct?;
              && (admitted ==> |s.pushed| - |s.popped| < capacity - 1)
              && (i == |s.tails| - 1 ==> (admitted <==> |s.pushed| - |s.popped| < capacity - 1))
    ensures Enabled(s, LoadHead(i)) ==>
              var found := Apply(capacity, s, LoadHead(i)).consumer.MayMove?;
              && (found ==> |s.popped| < |s.pushed|)
              && (i == |s.heads| - 1 ==> (found <==> |s.popped| < |s.pushed|))
  {
    if Enabled(s, LoadTail(i)) { LoadTailInv(capacity, s, i); }
    if Enabled(s, LoadHead(i)) { LoadHeadInv(capacity, s, i); }
  }

  /** `size()`, `empty()` and `full()`, each from one load of both indices. */
  function Size(head: nat, tail: nat, capacity: nat): nat
    requires capacity > 0
  {
    BitAnd(Sub64(head, tail), capacity - 1)
  }

  predicate Full(head: nat, tail: nat, capacity: nat)
    requires capacity > 0
  {
    Next(head, capacity) == tail
  }

  lemma {:induction false} SizeOfIndices(n: nat, m: nat, capacity: nat)
    requires IsPow2(capacity) && 0 < capacity < TWO_64 && m <= n < m + capacity
    ensures Size(n % capacity, m % capacity, capacity) == n - m
  {
    var k: nat :| k <= capacity && capacity == Pow2(k);
    if k > 64 { TwoTo64(); Pow2Mono(64, k); }
    SizeMask(n % capacity, m % capacity, k);
    ModDifference(n, m, capacity);
  }

  lemma {:induction false} EmptyFullOfIndices(n: nat, m: nat, capacity: nat)
    requires IsPow2(capacity) && capacity > 0 && m <= n < m + capacity
    ensures n % capacity == m % capacity <==> n == m
    ensures Full(n % capacity, m % capacity, capacity) <==> n - m == capacity - 1
  {
    NextIsSucc(n, capacity);
    if n > m { ModDistinct(m, n, capacity); }
    if n + 1 < m + capacity { ModDistinct(m, n + 1, capacity); } else { ModShift(m, 1, capacity); }
  }

  lemma {:induction false} ObserversExact<T>(capacity: nat, s: State<T>)
    requires Inv(capacity, s) && capacity < TWO_64
    ensures var h, t, held := s.heads[|s.pushed|], s.tails[|s.popped|], |s.pushed| - |s.popped|;
            && Size(h, t, capacity) == held
            && (h == t <==> held == 0)
            && (Full(h, t, capacity) <==> held == capacity - 1)
  {
    SizeOfIndices(|s.pushed|, |s.popped|, capacity);
    EmptyFullOfIndices(|s.pushed|, |s.popped|, capacity);
  }

  lemma {:induction false} ModDifference(n: nat, m: nat, c: nat)
    requires c > 0 && m <= n < m + c
    ensures (n % c - m % c) % c == n - m
  {
    var q := n / c - m / c;
    assert n % c - m % c == (n - m) + (-q) * c by {
      assert n == (n / c) * c + n % c && m == (m / c) * c + m % c;
      assert (-q) * c == (m / c) * c - (n / c) * c;
    }
    ModShift(n - m, -q, c);
    DivModUnique(n - m, c, 0, n - m);
  }

  lemma {:induction false} Closer(h: nat, t: nat, c: nat)
    requires c > 0 && h < c && t < c && h != t && IsPow2(c)
    ensures Next(h, c) == (h + 1) % c && (t - (h + 1) % c) % c < (t - h) % c
  {
    DivModUnique(h, c, 0, h);
    NextIsSucc(h, c);
    if h + 1 == c {
      DivModUnique(h + 1, c, 1, 0);
      DivModUnique(t, c, 0, t);
      DivModUnique(t - h, c, -1, t - h + c);
    } else {
      DivModUnique(h + 1, c, 0, h + 1);
      if t > h {
        DivModUnique(t - h, c, 0, t - h);
        DivModUnique(t - h - 1, c, 0, t - h - 1);
      } else {
        DivModUnique(t - h, c, -1, t - h + c);
        DivModUnique(t - h - 1, c, -1, t - h - 1 + c);
      }
    }
  }

  /** The slots `~LockFreeCircularBuffer` destroys: from head round to tail. */
  function DestructorVisits(h: nat, t: nat, c: nat): seq<nat>
    requires c > 0 && h < c && t < c && IsPow2(c)
    decreases (t - h) % c
  {
    if h == t then []
    else
      Closer(h, t, c);
      [h] + DestructorVisits(Next(h, c), t, c)
  }

  lemma {:induction false} VisitsFreeSlots<T>(capacity: nat, s: State<T>, j: nat)
    requires Inv(capacity, s) && s.producer.Quiet? && s.consumer.Resting?
    requires |s.pushed| <= j <= |s.popped| + capacity && |s.popped| < j
    ensures forall i :: i in DestructorVisits(j % capacity, |s.popped| % capacity, capacity)
              ==> i < capacity && s.slots[i].Raw?
    decreases |s.popped| + capacity - j
  {
    var m := |s.popped|;
    if j == m + capacity {
      ModShift(m, 1, capacity);
    } else {
      ModDistinct(m, j, capacity);
      NextIsSucc(j, capacity);
      VisitsFreeSlots(capacity, s, j + 1);
      assert SlotOf(capacity, s, j) == Raw;
    }
  }

  /** The destructor destroys exactly the elements still held if and only if none are:
      on a non-empty buffer it runs destructors on raw storage and skips every element. */
  lemma {:induction false} DestructorCorrectIffEmpty<T>(capacity: nat, s: State<T>)
    requires Inv(capacity, s) && s.producer.Quiet? && s.consumer.Resting?
    ensures var visits := DestructorVisits(s.heads[|s.pushed|], s.tails[|s.popped|], capacity);
            && (forall i :: i in visits ==> i < capacity && s.slots[i].Raw?)
            && ((forall i :: 0 <= i < capacity ==> (i in visits <==> s.slots[i].Live?)) <==> s.pushed == s.popped)
  {
    var n, m := |s.pushed|, |s.popped|;
    if n > m {
      VisitsFreeSlots(capacity, s, n);
      assert SlotOf(capacity, s, m) == Live(s.pushed[m]);
      assert s.slots[m % capacity].Live?;
    } else {
      forall i: nat | i < capacity ensures s.slots[i].Raw? {
        var q := m / capacity + (if i < m % capacity then 1 else 0);
        DivModUnique(q * capacity + i, capacity, q, i);
        assert SlotOf(capacity, s, q * capacity + i) == Raw;
      }
    }
  }
}
