/** ThreadPool: a task queue under a mutex, a condition variable and a stop flag.

    The steps are the critical sections (each atomic, since all of them hold mutex_), the
    notifications (issued after the mutex is released, hence separate steps), spurious
    wake-ups, and the end of a running task.  A worker that is awake but must still lock
    mutex_, at first or after a wake-up, is Ready. */
module ThreadPool {
  import opened Wrappers

  datatype Worker<Task> = Ready | Asleep | Working(task: Task) | Exited

  datatype State<Task> = State(
    tasks: seq<Task>,       // tasks_
    stop: bool,             // stop_
    workers: seq<Worker<Task>>,
    owedOne: nat,           // notify_one calls not yet made by a submit that pushed
    owedAll: bool,          // shutdown has set stop_ and not yet called notify_all
    submitted: seq<Task>,   // accepted by submit or submit_void, in order
    started: seq<Task>,     // taken from the queue, in order
    finished: nat)          // tasks that have returned or thrown

  datatype Step<Task> =
    | Submit(task: Task)
    | Shutdown
    | NotifyOne(waker: Option<nat>) // the sleeper it wakes; None when nobody sleeps
    | NotifyAll
    | Spurious(w: nat)
    | Check(w: nat)                 // the critical section at the top of the worker loop
    | Finish(w: nat)

  function Init<Task>(threads: nat): State<Task> {
    State([], false, seq(threads, _ => Ready), 0, false, [], [], 0)
  }

  predicate Is<Task>(s: State<Task>, w: nat, k: Kind) {
    w < |s.workers| && KindOf(s.workers[w]) == k
  }

  predicate Enabled<Task>(s: State<Task>, step: Step<Task>) {
    match step
    case Submit(_) => true
    case Shutdown => true
    case NotifyOne(None) => s.owedOne > 0 && (forall w :: 0 <= w < |s.workers| ==> !s.workers[w].Asleep?)
    case NotifyOne(Some(w)) => s.owedOne > 0 && Is(s, w, Sleepers)
    case NotifyAll => s.owedAll
    case Spurious(w) => Is(s, w, Sleepers)
    case Check(w) => Is(s, w, Readies)
    case Finish(w) => Is(s, w, Busies)
  }

  function WakeAll<Task>(ws: seq<Worker<Task>>): (r: seq<Worker<Task>>)
    ensures |r| == |ws|
  {
    if ws == [] then [] else [if ws[0].Asleep? then Ready else ws[0]] + WakeAll(ws[1..])
  }

  function Apply<Task>(s: State<Task>, step: Step<Task>): State<Task>
    requires Enabled(s, step)
  {
    match step
    case Submit(t) =>
      if s.stop then s
      else s.(tasks := s.tasks + [t], submitted := s.submitted + [t], owedOne := s.owedOne + 1)
    case Shutdown => if s.stop then s else s.(stop := true, owedAll := true)
    case NotifyOne(None) => s.(owedOne := s.owedOne - 1)
    case NotifyOne(Some(w)) => s.(owedOne := s.owedOne - 1, workers := s.workers[w := Ready])
    case NotifyAll => s.(owedAll := false, workers := WakeAll(s.workers))
    case Spurious(w) => s.(workers := s.workers[w := Ready])
    case Check(w) =>
      if !s.stop && s.tasks == [] then s.(workers := s.workers[w := Asleep])
      else if s.stop && s.tasks == [] then s.(workers := s.workers[w := Exited])
      else s.(workers := s.workers[w := Working(s.tasks[0])], tasks := s.tasks[1..],
        started := s.started + [s.tasks[0]])
    case Finish(w) => s.(workers := s.workers[w := Ready], finished := s.finished + 1)
  }

  function Run<Task>(s: State<Task>, steps: seq<Step<Task>>): Option<State<Task>>
    decreases |steps|
  {
    if steps == [] then Some(s)
    else if !Enabled(s, steps[0]) then None
    else Run(Apply(s, steps[0]), steps[1..])
  }

  // How many workers are in each condition.

  datatype Kind = Readies | Sleepers | Busies | Gone

  function KindOf<Task>(w: Worker<Task>): Kind {
    match w
    case Ready => Readies
    case Asleep => Sleepers
    case Working(_) => Busies
    case Exited => Gone
  }

  function Count<Task>(ws: seq<Worker<Task>>, k: Kind): nat {
    if ws == [] then 0 else (if KindOf(ws[0]) == k then 1 else 0) + Count(ws[1..], k)
  }

  lemma {:induction false} CountUpdate<Task>(ws: seq<Worker<Task>>, w: nat, x: Worker<Task>, k: Kind)
    requires w < |ws|
    ensures Count(ws[w := x], k) + (if KindOf(ws[w]) == k then 1 else 0)
        == Count(ws, k) + (if KindOf(x) == k then 1 else 0)
  {
    if w == 0 {
      assert ws[w := x][1..] == ws[1..];
    } else {
      CountUpdate(ws[1..], w - 1, x, k);
      assert ws[w := x][1..] == ws[1..][w - 1 := x];
    }
  }

  lemma {:induction false} CountUpdates<Task>(ws: seq<Worker<Task>>, w: nat, x: Worker<Task>)
    requires w < |ws|
    ensures forall k ::
        Count(ws[w := x], k) + (if KindOf(ws[w]) == k then 1 else 0) == Count(ws, k) + (if KindOf(x) == k then 1 else 0)
  {
    forall k { CountUpdate(ws, w, x, k); }
  }

  lemma {:induction false} CountWakeAll<Task>(ws: seq<Worker<Task>>)
    ensures Count(WakeAll(ws), Sleepers) == 0
    ensures Count(WakeAll(ws), Readies) == Count(ws, Readies) + Count(ws, Sleepers)
    ensures Count(WakeAll(ws), Busies) == Count(ws, Busies)
    ensures Count(WakeAll(ws), Gone) == Count(ws, Gone)
  {
    if ws != [] {
      CountWakeAll(ws[1..]);
      assert WakeAll(ws)[1..] == WakeAll(ws[1..]);
    }
  }

  lemma {:induction false} Witness<Task>(ws: seq<Worker<Task>>, k: Kind) returns (w: nat)
    requires Count(ws, k) > 0
    ensures w < |ws| && KindOf(ws[w]) == k
  {
    if KindOf(ws[0]) == k {
      w := 0;
    } else {
      w := Witness(ws[1..], k);
      w := w + 1;
    }
  }

  lemma {:induction false} CountTotal<Task>(ws: seq<Worker<Task>>)
    ensures Count(ws, Readies) + Count(ws, Sleepers) + Count(ws, Busies) + Count(ws, Gone) == |ws|
  {
    if ws != [] { CountTotal(ws[1..]); }
  }

  lemma {:induction false} CountZero<Task>(ws: seq<Worker<Task>>, k: Kind)
    ensures Count(ws, k) == 0 <==> forall w :: 0 <= w < |ws| ==> KindOf(ws[w]) != k
  {
    if ws != [] {
      CountZero(ws[1..], k);
      if Count(ws, k) == 0 {
        forall w | 0 <= w < |ws| ensures KindOf(ws[w]) != k {
          if w > 0 { assert ws[w] == ws[1..][w - 1]; }
        }
      } else if KindOf(ws[0]) != k {
        var w := Witness(ws[1..], k);
        assert KindOf(ws[w + 1]) == k;
      } else {
        assert KindOf(ws[0]) == k;
      }
    }
  }

  /** No wake-up is lost: while somebody sleeps, each queued task has its own worker that
      is awake or notification still to come; and after stop_, sleepers wait for notify_all. */
  ghost predicate Inv<Task>(s: State<Task>) {
    && s.started + s.tasks == s.submitted
    && |s.started| == s.finished + Count(s.workers, Busies)
    && (Count(s.workers, Sleepers) > 0 ==> |s.tasks| <= s.owedOne + Count(s.workers, Readies))
    && (s.stop && Count(s.workers, Sleepers) > 0 ==> s.owedAll)
    && (s.owedAll ==> s.stop)
    && (Count(s.workers, Gone) > 0 ==> s.stop && s.tasks == [])
  }

  lemma {:induction false} CheckInv<Task>(s: State<Task>, w: nat)
    requires Inv(s) && Enabled(s, Check(w))
    ensures Inv(Apply(s, Check(w)))
  {
    var s' := Apply(s, Check(w));
    CountUpdates(s.workers, w, s'.workers[w]);
    if s.tasks != [] { assert s'.started + s'.tasks == s.started + ([s.tasks[0]] + s.tasks[1..]); }
  }

  lemma {:induction false} StepInv<Task>(s: State<Task>, step: Step<Task>)
    requires Inv(s) && Enabled(s, step)
    ensures Inv(Apply(s, step))
  {
    var s' := Apply(s, step);
    match step
    case Submit(t) => assert !s.stop ==> s'.started + s'.tasks == (s.started + s.tasks) + [t];
    case Shutdown =>
    case NotifyOne(None) => CountZero(s.workers, Sleepers);
    case NotifyOne(Some(w)) => CountUpdates(s.workers, w, Ready);
    case NotifyAll => CountWakeAll(s.workers);
    case Spurious(w) => CountUpdates(s.workers, w, Ready);
    case Check(w) => CheckInv(s, w);
    case Finish(w) => CountUpdates(s.workers, w, Ready);
  }

  lemma {:induction false} RunInv<Task>(s: State<Task>, steps: seq<Step<Task>>)
    requires Inv(s) && Run(s, steps).Some?
    ensures Inv(Run(s, steps).value) && |Run(s, steps).value.workers| == |s.workers|
    decreases |steps|
  {
    if steps != [] {
      StepInv(s, steps[0]);
      RunInv(Apply(s, steps[0]), steps[1..]);
    }
  }

  lemma {:induction false} InitCount<Task>(threads: nat)
    ensures Count(Init<Task>(threads).workers, Readies) == threads
  {
    if threads > 0 {
      InitCount<Task>(threads - 1);
      assert Init<Task>(threads).workers[1..] == Init<Task>(threads - 1).workers;
    }
  }

  lemma {:induction false} InitInv<Task>(threads: nat)
    ensures Inv(Init<Task>(threads)) && Count(Init<Task>(threads).workers, Readies) == threads
  {
    InitCount<Task>(threads);
    CountTotal(Init<Task>(threads).workers);
  }

  // The tasks, told from the steps and from what the workers have in hand.

  /** The tasks submitted before the first shutdown, in order. */
  function Accepted<Task>(steps: seq<Step<Task>>, open: bool): seq<Task>
    decreases |steps|
  {
    if steps == [] || !open then []
    else (if steps[0].Submit? then [steps[0].task] else []) + Accepted(steps[1..], !steps[0].Shutdown?)
  }

  /** The task a step puts into a worker's hand, and the one it lets go of. */
  function Begins<Task>(s: State<Task>, step: Step<Task>): seq<Task>
    requires Enabled(s, step)
  {
    if !step.Check? then []
    else
      match Apply(s, step).workers[step.w]
      case Working(t) => [t]
      case _ => []
  }

  function Ends<Task>(s: State<Task>, step: Step<Task>): seq<Task>
    requires Enabled(s, step)
  {
    if step.Finish? then [s.workers[step.w].task] else []
  }

  function Begun<Task>(s: State<Task>, steps: seq<Step<Task>>): seq<Task>
    requires Run(s, steps).Some?
    decreases |steps|
  {
    if steps == [] then [] else Begins(s, steps[0]) + Begun(Apply(s, steps[0]), steps[1..])
  }

  function Ended<Task>(s: State<Task>, steps: seq<Step<Task>>): seq<Task>
    requires Run(s, steps).Some?
    decreases |steps|
  {
    if steps == [] then [] else Ends(s, steps[0]) + Ended(Apply(s, steps[0]), steps[1..])
  }

  /** How often a task occurs: in a list, and in the workers' hands. */
  function Times<Task(==)>(q: seq<Task>, task: Task): nat { multiset(q)[task] }

  function InHand<Task(==)>(w: Worker<Task>, task: Task): nat { if w == Working(task) then 1 else 0 }

  function InHands<Task(==)>(ws: seq<Worker<Task>>, task: Task): nat {
    if ws == [] then 0 else InHand(ws[0], task) + InHands(ws[1..], task)
  }

  lemma {:induction false} HandsUpdate<Task>(ws: seq<Worker<Task>>, w: nat, x: Worker<Task>, task: Task)
    requires w < |ws|
    ensures InHands(ws[w := x], task) + InHand(ws[w], task) == InHands(ws, task) + InHand(x, task)
  {
    if w == 0 {
      assert ws[w := x][1..] == ws[1..];
    } else {
      HandsUpdate(ws[1..], w - 1, x, task);
      assert ws[w := x][1..] == ws[1..][w - 1 := x];
    }
  }

  lemma {:induction false} HandsWakeAll<Task>(ws: seq<Worker<Task>>, task: Task)
    ensures InHands(WakeAll(ws), task) == InHands(ws, task)
  {
    if ws != [] {
      HandsWakeAll(ws[1..], task);
      assert WakeAll(ws)[1..] == WakeAll(ws[1..]);
    }
  }

  lemma {:induction false} NoHands<Task>(ws: seq<Worker<Task>>, task: Task)
    ensures Count(ws, Busies) == 0 ==> InHands(ws, task) == 0
  {
    if ws != [] { NoHands(ws[1..], task); }
  }

  lemma {:induction false} CheckHands<Task>(s: State<Task>, w: nat, task: Task)
    requires Enabled(s, Check(w))
    ensures InHands(Apply(s, Check(w)).workers, task) == InHands(s.workers, task) + Times(Begins(s, Check(w)), task)
  {
    HandsUpdate(s.workers, w, Apply(s, Check(w)).workers[w], task);
  }

  /** One step: the tasks in the workers' hands change by those begun and ended. */
  lemma {:induction false} HandStep<Task>(s: State<Task>, step: Step<Task>, task: Task)
    requires Enabled(s, step)
    ensures InHands(Apply(s, step).workers, task) + Times(Ends(s, step), task)
         == InHands(s.workers, task) + Times(Begins(s, step), task)
  {
    match step
    case NotifyOne(Some(w)) => HandsUpdate(s.workers, w, Ready, task);
    case NotifyAll => HandsWakeAll(s.workers, task);
    case Spurious(w) => HandsUpdate(s.workers, w, Ready, task);
    case Check(w) => CheckHands(s, w, task);
    case Finish(w) => HandsUpdate(s.workers, w, Ready, task);
    case _ =>
  }

  lemma {:induction false} TimesConcat<Task>(a: seq<Task>, b: seq<Task>, task: Task)
    ensures Times(a + b, task) == Times(a, task) + Times(b, task)
  {
  }

  /** Whatever is begun is ended or in a worker's hand. */
  lemma {:induction false} RunHands<Task>(s: State<Task>, steps: seq<Step<Task>>, task: Task)
    requires Run(s, steps).Some?
    ensures InHands(Run(s, steps).value.workers, task) + Times(Ended(s, steps), task)
         == InHands(s.workers, task) + Times(Begun(s, steps), task)
    decreases |steps|
  {
    if steps != [] {
      var s' := Apply(s, steps[0]);
      HandStep(s, steps[0], task);
      RunHands(s', steps[1..], task);
      TimesConcat(Begins(s, steps[0]), Begun(s', steps[1..]), task);
      TimesConcat(Ends(s, steps[0]), Ended(s', steps[1..]), task);
    }
  }

  lemma {:induction false} TaskStep<Task>(s: State<Task>, step: Step<Task>)
    requires Enabled(s, step)
    ensures var s' := Apply(s, step);
      && s'.submitted == s.submitted + Accepted([step], !s.stop)
      && s'.stop == (s.stop || step.Shutdown?)
      && s'.started == s.started + Begins(s, step)
  {
    assert [step][1..] == [] && Accepted([step][1..], !step.Shutdown?) == [];
  }

  lemma {:induction false} AcceptedFirst<Task>(steps: seq<Step<Task>>, open: bool)
    requires steps != []
    ensures Accepted(steps, open) == Accepted([steps[0]], open) + Accepted(steps[1..], open && !steps[0].Shutdown?)
  {
    assert [steps[0]][1..] == [] && Accepted([steps[0]][1..], !steps[0].Shutdown?) == [];
  }

  lemma {:induction false} Regroup<Task>(a: seq<Task>, b: seq<Task>, c: seq<Task>)
    ensures (a + b) + c == a + (b + c)
  {
  }

  lemma {:induction false} RunSubmitted<Task>(s: State<Task>, steps: seq<Step<Task>>)
    requires Run(s, steps).Some?
    ensures Run(s, steps).value.submitted == s.submitted + Accepted(steps, !s.stop)
    decreases |steps|
  {
    if steps == [] {
      assert s.submitted + [] == s.submitted;
    } else {
      var s' := Apply(s, steps[0]);
      RunSubmitted(s', steps[1..]);
      TaskStep(s, steps[0]);
      AcceptedFirst(steps, !s.stop);
      Regroup(s.submitted, Accepted([steps[0]], !s.stop), Accepted(steps[1..], !s'.stop));
    }
  }

  lemma {:induction false} RunStarted<Task>(s: State<Task>, steps: seq<Step<Task>>)
    requires Run(s, steps).Some?
    ensures Run(s, steps).value.started == s.started + Begun(s, steps)
    decreases |steps|
  {
    if steps == [] {
      assert s.started + [] == s.started;
    } else {
      var s' := Apply(s, steps[0]);
      RunStarted(s', steps[1..]);
      TaskStep(s, steps[0]);
      Regroup(s.started, Begins(s, steps[0]), Begun(s', steps[1..]));
    }
  }

  /** The notify_one and notify_all calls made, and whether there was a shutdown. */
  function OneCalls<Task>(steps: seq<Step<Task>>): nat {
    if steps == [] then 0 else (if steps[0].NotifyOne? then 1 else 0) + OneCalls(steps[1..])
  }

  function AllCalls<Task>(steps: seq<Step<Task>>): nat {
    if steps == [] then 0 else (if steps[0].NotifyAll? then 1 else 0) + AllCalls(steps[1..])
  }

  predicate Stopped<Task>(steps: seq<Step<Task>>) {
    steps != [] && (steps[0].Shutdown? || Stopped(steps[1..]))
  }

  function One(b: bool): nat { if b then 1 else 0 }

  /** Each accepted submit makes one notify_one call, and the first shutdown one notify_all. */
  lemma {:induction false} RunNotifies<Task>(s: State<Task>, steps: seq<Step<Task>>)
    requires Run(s, steps).Some? && (s.owedAll ==> s.stop)
    ensures var t := Run(s, steps).value;
      && t.owedOne + OneCalls(steps) == s.owedOne + |Accepted(steps, !s.stop)|
      && t.stop == (s.stop || Stopped(steps))
      && One(t.owedAll) + AllCalls(steps) == One(s.owedAll) + One(!s.stop && Stopped(steps))
    decreases |steps|
  {
    if steps != [] { RunNotifies(Apply(s, steps[0]), steps[1..]); }
  }

  /** Every task begun is finished or in a worker's hand. */
  ghost predicate HandsExact<Task(!new)>(s: State<Task>, steps: seq<Step<Task>>)
    requires Run(s, steps).Some?
  {
    forall task ::
      Times(Begun(s, steps), task) == Times(Ended(s, steps), task) + InHands(Run(s, steps).value.workers, task)
  }

  lemma {:induction false} InitTasks<Task(!new)>(threads: nat, steps: seq<Step<Task>>)
    requires Run(Init<Task>(threads), steps).Some?
    ensures var s0 := Init<Task>(threads); var s := Run(s0, steps).value;
      s.submitted == Accepted(steps, true) && s.started == Begun(s0, steps) && HandsExact(s0, steps)
  {
    var s0 := Init<Task>(threads);
    InitInv<Task>(threads);
    CountTotal(s0.workers);
    RunSubmitted(s0, steps);
    RunStarted(s0, steps);
    forall task ensures Times(Begun(s0, steps), task)
                     == Times(Ended(s0, steps), task) + InHands(Run(s0, steps).value.workers, task)
    {
      NoHands(s0.workers, task);
      RunHands(s0, steps, task);
    }
  }

  predicate Stuck<Task>(s: State<Task>) {
    && (s.tasks != [] || s.stop)
    && (exists w :: 0 <= w < |s.workers| && !s.workers[w].Exited?)
    && (forall w :: 0 <= w < |s.workers| ==> s.workers[w].Asleep? || s.workers[w].Exited?)
    && s.owedOne == 0 && !s.owedAll
  }

  /** Over every run: the tasks submitted before shutdown, and no others, start in that order, each
      exactly once; each begun is finished or in a worker's hand; a submit is never held up and
      makes one notify_one call, a shutdown one notify_all; and no state has work (or stop) pending
      with every live worker asleep and no notification to come. */
  lemma {:induction false} InOrderAndNeverStuck<Task(!new)>(threads: nat, steps: seq<Step<Task>>)
    requires Run(Init<Task>(threads), steps).Some?
    ensures var s0 := Init<Task>(threads); var s := Run(s0, steps).value;
            && Begun(s0, steps) + s.tasks == Accepted(steps, true)
            && HandsExact(s0, steps)
            && |Begun(s0, steps)| == s.finished + Count(s.workers, Busies)
            && (forall task :: Enabled(s, Submit(task)))
            && s.owedOne + OneCalls(steps) == |Accepted(steps, true)|
            && One(s.owedAll) + AllCalls(steps) == One(Stopped(steps))
            && !Stuck(s)
  {
    RunNotifies(Init<Task>(threads), steps);
    InitInv<Task>(threads);
    InitTasks<Task>(threads, steps);
    RunInv(Init<Task>(threads), steps);
    var s := Run(Init<Task>(threads), steps).value;
    CountZero(s.workers, Readies);
    CountZero(s.workers, Sleepers);
    CountZero(s.workers, Gone);
  }

  /** Every task was started in the order of submission, and every one has finished. */
  ghost predicate AllDone<Task(!new)>(s0: State<Task>, steps: seq<Step<Task>>, accepted: seq<Task>)
    requires Run(s0, steps).Some?
  {
    && Begun(s0, steps) == accepted
    && (forall task :: Times(Ended(s0, steps), task) == Times(accepted, task))
    && Run(s0, steps).value.finished == |accepted|
  }

  /** With at least one worker: once all have exited, every task submitted before shutdown has
      been started, in order, and has finished. */
  lemma {:induction false} ExitedMeansDrained<Task(!new)>(threads: nat, steps: seq<Step<Task>>)
    requires threads > 0 && Run(Init<Task>(threads), steps).Some?
    requires forall w :: w in Run(Init<Task>(threads), steps).value.workers ==> w.Exited?
    ensures var s := Run(Init<Task>(threads), steps).value;
            s.stop && s.tasks == [] && AllDone(Init<Task>(threads), steps, Accepted(steps, true))
  {
    var s0 := Init<Task>(threads);
    var s := Run(s0, steps).value;
    InitInv<Task>(threads);
    InitTasks<Task>(threads, steps);
    RunInv(s0, steps);
    assert forall w :: 0 <= w < |s.workers| ==> s.workers[w].Exited?;
    CountZero(s.workers, Gone);
    CountZero(s.workers, Busies);
    forall task ensures Times(Ended(s0, steps), task) == Times(Accepted(steps, true), task) {
      NoHands(s.workers, task);
    }
  }

  /** With no worker at all (hardware_concurrency() may be 0) no task ever starts. */
  lemma {:induction false} NoWorkersNoProgress<Task>(steps: seq<Step<Task>>)
    requires Run(Init<Task>(0), steps).Some?
    ensures Run(Init<Task>(0), steps).value.started == []
  {
    InitInv<Task>(0);
    RunInv(Init<Task>(0), steps);
    NoStart(Init<Task>(0), steps);
  }

  lemma {:induction false} NoStart<Task>(s: State<Task>, steps: seq<Step<Task>>)
    requires s.workers == [] && Run(s, steps).Some?
    ensures Run(s, steps).value.started == s.started
    decreases |steps|
  {
    if steps != [] { NoStart(Apply(s, steps[0]), steps[1..]); }
  }

  // Termination of shutdown.

  /** Steps that move the pool on; a refused submit and a repeated shutdown change nothing. */
  predicate Moves<Task>(step: Step<Task>) { !step.Submit? && !step.Shutdown? }

  function Measure<Task>(s: State<Task>): nat {
    2 * |s.tasks| + 2 * Count(s.workers, Busies) + 2 * Count(s.workers, Sleepers) + Count(s.workers, Readies)
    + s.owedOne + (if s.owedAll then 1 else 0)
  }

  lemma {:induction false} MeasureDrops<Task>(s: State<Task>, step: Step<Task>)
    requires s.stop && Enabled(s, step)
    ensures Apply(s, step).stop
    ensures if Moves(step) then Measure(Apply(s, step)) < Measure(s) else Apply(s, step) == s
  {
    var s' := Apply(s, step);
    match step
    case NotifyOne(Some(w)) => CountUpdates(s.workers, w, Ready);
    case NotifyAll => CountWakeAll(s.workers);
    case Spurious(w) => CountUpdates(s.workers, w, Ready);
    case Check(w) => CountUpdates(s.workers, w, s'.workers[w]);
    case Finish(w) => CountUpdates(s.workers, w, Ready);
    case _ =>
  }

  function MovesIn<Task>(steps: seq<Step<Task>>): nat {
    if steps == [] then 0 else (if Moves(steps[0]) then 1 else 0) + MovesIn(steps[1..])
  }

  lemma {:induction false} BoundedMoves<Task>(s: State<Task>, steps: seq<Step<Task>>)
    requires s.stop && Run(s, steps).Some?
    ensures MovesIn(steps) + Measure(Run(s, steps).value) <= Measure(s)
    decreases |steps|
  {
    if steps != [] {
      MeasureDrops(s, steps[0]);
      BoundedMoves(Apply(s, steps[0]), steps[1..]);
    }
  }

  /** As long as a worker is live and there is work or stop_ is set, the pool can move. */
  lemma {:induction false} CanMove<Task>(s: State<Task>) returns (step: Step<Task>)
    requires Inv(s) && (s.tasks != [] || s.stop) && Count(s.workers, Gone) < |s.workers|
    ensures Moves(step) && Enabled(s, step)
  {
    CountTotal(s.workers);
    if s.owedAll {
      step := NotifyAll;
    } else if Count(s.workers, Readies) > 0 {
      var w := Witness(s.workers, Readies);
      step := Check(w);
    } else if Count(s.workers, Busies) > 0 {
      var w := Witness(s.workers, Busies);
      step := Finish(w);
    } else {
      var w := Witness(s.workers, Sleepers);
      step := NotifyOne(Some(w));
    }
  }

  lemma {:induction false} RunConcat<Task>(s: State<Task>, a: seq<Step<Task>>, b: seq<Step<Task>>)
    requires Run(s, a).Some?
    ensures Run(s, a + b) == Run(Run(s, a).value, b)
    decreases |a|
  {
    if a == [] {
      assert a + b == b;
    } else {
      assert (a + b)[1..] == a[1..] + b;
      RunConcat(Apply(s, a[0]), a[1..], b);
    }
  }

  /** A pool that is stopped and cannot move has every worker exited. */
  lemma {:induction false} StillMeansExited<Task>(s: State<Task>)
    requires Inv(s) && s.stop && forall step :: Moves(step) ==> !Enabled(s, step)
    ensures forall w :: w in s.workers ==> w.Exited?
    ensures s.owedOne == 0 && !s.owedAll
  {
    var none: Step<Task> := NotifyOne(None);
    assert !Enabled(s, none) && !Enabled(s, NotifyAll);
    CountTotal(s.workers);
    CountZero(s.workers, Readies);
    CountZero(s.workers, Sleepers);
    CountZero(s.workers, Busies);
    if Count(s.workers, Gone) < |s.workers| {
      var step := CanMove(s);
    } else {
      forall w | w in s.workers ensures w.Exited? {
        var i :| 0 <= i < |s.workers| && s.workers[i] == w;
        assert KindOf(s.workers[i]) == Gone;
      }
    }
  }

  /** shutdown() terminates: after stop_ is set, a run has at most Measure moves, and a run
      that cannot move any more has every worker exited and every task that was submitted
      before shutdown finished. */
  lemma {:induction false} ShutdownDrains<Task(!new)>(threads: nat, before: seq<Step<Task>>, after: seq<Step<Task>>)
    requires threads > 0 && Run(Init<Task>(threads), before).Some?
    requires var s := Run(Init<Task>(threads), before).value; s.stop && Run(s, after).Some?
    ensures Run(Init<Task>(threads), before + after) == Run(Run(Init<Task>(threads), before).value, after)
    ensures var s := Run(Init<Task>(threads), before).value;
            var end := Run(s, after).value;
            && MovesIn(after) <= Measure(s)
            && ((forall step :: Moves(step) ==> !Enabled(end, step)) ==>
                  && (forall w :: w in end.workers ==> w.Exited?) && end.owedOne == 0 && !end.owedAll
                  && end.tasks == [] && AllDone(Init<Task>(threads), before + after, Accepted(before, true)))
  {
    var s0 := Init<Task>(threads);
    var s := Run(s0, before).value;
    var end := Run(s, after).value;
    InitInv<Task>(threads);
    RunInv(s0, before);
    RunInv(s, after);
    BoundedMoves(s, after);
    RunConcat(s0, before, after);
    InitTasks<Task>(threads, before);
    InitTasks<Task>(threads, before + after);
    SubmissionsClosed(s, after);
    if forall step :: Moves(step) ==> !Enabled(end, step) {
      StillMeansExited(end);
      ExitedMeansDrained(threads, before + after);
    }
  }

  lemma {:induction false} SubmissionsClosed<Task>(s: State<Task>, steps: seq<Step<Task>>)
    requires s.stop && Run(s, steps).Some?
    ensures Run(s, steps).value.submitted == s.submitted && Run(s, steps).value.stop
    decreases |steps|
  {
    if steps != [] { SubmissionsClosed(Apply(s, steps[0]), steps[1..]); }
  }
}
