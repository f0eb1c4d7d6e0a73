/**
 Runs of module `Scheduler` that never panic: every panic of a pass has a cause that callers and the
 clock can avoid, and without those causes no run of any length fails.
 */
module SchedulerRuns {
  import opened Basics
  import opened Bits
  import opened Scheduler

  /** The deadline is not due yet at any reading the wake-up loop can make before it reaches the caller. */
  ghost predicate IsFar(s: State, until: nat, clock: nat -> nat) { !Due(until, clock(1 + |Q(s, SleepQueue)|)) }

  /**
   A step without a cause for panic: the clock is smooth, a sleep is refused at once or far enough ahead,
   the timer does not find the minimal delta left to the nanosecond, and no finished thread is removed.
   */
  ghost predicate IsBenign(s: State, e: Step) {
    && SmoothClock(e.clock)
    && match e.op
       case Sleep(until) => until < e.clock(0) + MIN_DELTA || (until < WORD && IsFar(s, until, e.clock))
       case Timer => PreemptTime(Th(s, s.current), e.cpuTime) != MIN_DELTA
       case Remove(t, _) => Home(Th(s, t)).Some?
       case _ => true
  }

  lemma {:induction false} SmoothIsMonotone(clock: nat -> nat, i: nat, j: nat)
    requires SmoothClock(clock) && i <= j
    ensures clock(i) <= clock(j)
    decreases j
  {
    if i < j {
      var k: nat := j - 1;
      SmoothIsMonotone(clock, i, k);
      assert clock(k) <= clock(k + 1);
    }
  }

  // ---------------------------------------------------------------------------------------------
  // One pass
  // ---------------------------------------------------------------------------------------------

  /** The wake-up loop cannot fail while the running thread is not among the sleepers. */
  lemma WakeUpCannotFail(s: State, mid: Mid, clock: nat -> nat, i: nat)
    requires Placed(s, mid) && mid.ahead != Some(SleepQueue)
    ensures WakeUpTasks(s, clock, i).Woken?
  {
    hide WakeUpTasks, Turns, Q;
    WakeUpFailsIff(s, mid, clock, i);
    assert QueueExact(s, mid, SleepQueue);
    if r: nat :| FailsAtTurn(s, clock, i, r) {
      TurnsAreSleepers(s, r);
    }
  }

  lemma TurnsAreSleepers(s: State, r: nat)
    requires r < |Turns(s, Q(s, SleepQueue))|
    ensures Turns(s, Q(s, SleepQueue))[r] in Q(s, SleepQueue)
  {
    hide Q, MinOf, Drop;
    assert Turns(s, Q(s, SleepQueue))[r] in Turns(s, Q(s, SleepQueue));
  }

  lemma FarSleepCannotFail(s: State, until: nat, clock: nat -> nat)
    requires Inv(s) && SmoothClock(clock) && IsFar(s, until, clock)
    ensures WakeUpTasks(Enqueued(s, Th(s, s.current).(key := until), SleepQueue), clock, 1).Woken?
  {
    hide Placed, WakeUpTasks, Enqueued, Turns, SmoothClock;
    var q := Q(s, SleepQueue);
    var n := TurnsUpTo(s, Turns(s, q), until);
    SleepFailsIff(s, until, clock);
    TurnCount(s, q);
    SmoothIsMonotone(clock, 1 + n, 1 + |q|);
  }

  lemma TurnCount(s: State, q: seq<Tid>)
    ensures |Turns(s, q)| == |q|
  {
  }

  lemma PassCompletes(s: State, mid: Mid, preempt: bool, status: Status, clock: nat -> nat, i: nat, cpuTime: nat,
                      t: Tid)
    requires Placed(s, mid) && Leaves(s, mid.ahead, status) && Working(s, t) && (t == s.current ==> status == Ready)
    requires SmoothClock(clock) && KeysFit(s) && WakeUpTasks(s, clock, i).Woken?
    requires preempt || mid.limbo.Some? || PreemptTime(Th(s, s.current), cpuTime) != MIN_DELTA
    ensures Pass(s, preempt, status, mid.limbo, clock, i, cpuTime).Done?
  {
    hide QueuesExact, OnlyWakes, WakeUpTasks, Leaves, NoneDue, WokenWhenDue, Q, SleepTime, NoRunnable, Pass, Working;
    hide SmoothClock, KeysFit, NonePassed;
    PassPanicsIff(s, mid, preempt, status, clock, i, cpuTime);
    PassNeverIdle(s, mid, preempt, status, clock, i, cpuTime, t);
    SmoothClockPassesNone(s, mid, clock, i);
    WakeUpExact(s, mid, clock, i);
    CurrentUnwoken(s, WakeUpTasks(s, clock, i).s);
    var r := Pass(s, preempt, status, mid.limbo, clock, i, cpuTime);
    assert r != Panic(AssertFailed) && r != Panic(IdleReached);
    assert r.Panic? ==> r.why == AssertFailed || r.why == IdleReached;
  }

  lemma CurrentUnwoken(s: State, s': State)
    requires OnlyWakes(s, s') && OneRunning(s)
    ensures Th(s', s'.current) == Th(s, s.current)
  {
    hide Q;
  }

  // ---------------------------------------------------------------------------------------------
  // Deadlines keep fitting the word
  // ---------------------------------------------------------------------------------------------

  lemma SwitchedKeysFit(s: State, next: Tid, status: Status)
    requires KeysFit(s)
    ensures KeysFit(Switched(s, next, status))
  {
    hide RunQueueOf, Q;
  }

  lemma PassKeysFit(s: State, mid: Mid, preempt: bool, status: Status, clock: nat -> nat, i: nat, cpuTime: nat)
    requires Placed(s, mid) && KeysFit(s) && Pass(s, preempt, status, mid.limbo, clock, i, cpuTime).Done?
    ensures KeysFit(Pass(s, preempt, status, mid.limbo, clock, i, cpuTime).s)
  {
    hide QueuesExact, OnlyWakes, WakeUpTasks, NoneDue, WokenWhenDue, Q, SleepTime, KeysFit, Schedule, Switched, Popped;
    WakeUpExact(s, mid, clock, i);
    var w := WakeUpTasks(s, clock, i).s;
    KeysStillFit(s, w);
    ScheduleKeysFit(w);
    if mid.limbo.Some? { SwitchedKeysFit(w, mid.limbo.value, status); }
    if Schedule(w, 0).1.Some? { SwitchedKeysFit(Schedule(w, 0).0, Schedule(w, 0).1.value, status); }
  }

  lemma ScheduleKeysFit(s: State)
    requires BitsClear(s) && KeysFit(s)
    ensures KeysFit(Schedule(s, 0).0)
  {
    hide Q, Popped, Schedule;
    ScheduleIs(s);
    PopFrame(s, RunQueue(3, 0));
    PopFrame(s, RunQueue(4, 0));
  }

  lemma MovedKeysFit(s: State, t: Tid, th: Thread)
    requires KeysFit(s) && th.key < WORD
    ensures KeysFit(Moved(s, t, th))
  {
    hide Moved;
    MovedFrame(s, t, th);
  }

  lemma EnqueuedKeysFit(s: State, th: Thread, id: QueueId)
    requires KeysFit(s) && th.key < WORD
    ensures KeysFit(Enqueued(s, th, id))
  {
    hide Enqueued;
    EnqueuedFrame(s, th, id);
  }

  lemma {:induction false} ReleaseKeysFit(s: State, w: nat)
    requires KeysFit(s)
    ensures KeysFit(ReleaseAll(s, w))
    decreases |Q(s, WaitQueue(w))|
  {
    hide Moved, KeysFit;
    var q := Q(s, WaitQueue(w));
    if q != [] {
      KeyFits(s, q[0]);
      var s' := Moved(s, q[0], Th(s, q[0]).(status := Ready));
      MovedKeysFit(s, q[0], Th(s, q[0]).(status := Ready));
      if |Q(s', WaitQueue(w))| < |q| { ReleaseKeysFit(s', w); }
    }
  }

  lemma KeyFits(s: State, t: Tid)
    requires KeysFit(s)
    ensures Th(s, t).key < WORD
  {
  }

  lemma ApplyKeysFit(s: State, e: Step)
    requires Inv(s) && Enabled(s, e) && KeysFit(s) && IsBenign(s, e) && Apply(s, e).Done?
    ensures KeysFit(Apply(s, e).s)
  {
    hide Placed, Pass, Moved, Enqueued, Q, ReleaseAll, Popped, KeysFit, SmoothClock, IsFar;
    SettledFacts(s);
    KeyFits(s, s.current);
    var cur := s.threads[s.current];
    match e.op
    case Spawn(t, policy, priority) => MovedKeysFit(s, t, Thread(Ready, policy, priority, 0, 0));
    case Block(w) =>
      EnqueuedKeepsPlaced(s, cur.(wq := w), WaitQueue(w));
      EnqueuedKeysFit(s, cur.(wq := w), WaitQueue(w));
      var s' := Enqueued(s, cur.(wq := w), WaitQueue(w));
      PassKeysFit(s', Mid(Some(WaitQueue(w)), None), true, Blocked, e.clock, 0, e.cpuTime);
    case Sleep(until) =>
      if !(until < e.clock(0) || until - e.clock(0) < MIN_DELTA) {
        EnqueuedKeepsPlaced(s, cur.(key := until), SleepQueue);
        EnqueuedKeysFit(s, cur.(key := until), SleepQueue);
        var s' := Enqueued(s, cur.(key := until), SleepQueue);
        PassKeysFit(s', Mid(Some(SleepQueue), None), true, Sleeping, e.clock, 1, e.cpuTime);
      }
    case Yield => PassKeysFit(s, SETTLED, true, Ready, e.clock, 0, e.cpuTime);
    case Timer => PassKeysFit(s, SETTLED, false, Ready, e.clock, 0, e.cpuTime);
    case Exit(status) => PassKeysFit(s, SETTLED, true, status, e.clock, 0, e.cpuTime);
    case Release(w) => ReleaseKeysFit(s, w);
    case ReleaseStep(w) =>
      if Q(s, WaitQueue(w)) != [] {
        PopKeepsPlaced(s, None, WaitQueue(w));
        PoppedKeysFit(s, WaitQueue(w));
        PassKeysFit(Popped(s, WaitQueue(w)), Mid(None, Some(Q(s, WaitQueue(w))[0])), false, Ready, e.clock, 0,
                    e.cpuTime);
      }
    case Remove(t, status) => KeyFits(s, t); MovedKeysFit(s, t, Th(s, t).(status := status));
  }

  lemma PoppedKeysFit(s: State, id: QueueId)
    requires KeysFit(s)
    ensures KeysFit(Popped(s, id))
  {
    hide Popped;
    PopFrame(s, id);
  }

  // ---------------------------------------------------------------------------------------------
  // One step, and every run
  // ---------------------------------------------------------------------------------------------

  /** A benign step completes while a round-robin worker is there and does not stop. */
  lemma BenignCompletes(s: State, e: Step, t: Tid)
    requires Inv(s) && Enabled(s, e) && KeysFit(s) && IsBenign(s, e) && Working(s, t)
    requires e.op.Block? || e.op.Sleep? || e.op.Exit? ==> t != s.current
    ensures Apply(s, e).Done?
  {
    hide Placed, Pass, Moved, Enqueued, Q, ReleaseAll, Popped, KeysFit, SmoothClock, IsFar, Working, WakeUpTasks;
    SettledFacts(s);
    KeyFits(s, s.current);
    var cur := s.threads[s.current];
    match e.op
    case Block(w) =>
      EnqueuedKeepsPlaced(s, cur.(wq := w), WaitQueue(w));
      EnqueuedFrame(s, cur.(wq := w), WaitQueue(w));
      EnqueuedKeysFit(s, cur.(wq := w), WaitQueue(w));
      var s', mid := Enqueued(s, cur.(wq := w), WaitQueue(w)), Mid(Some(WaitQueue(w)), None);
      WorkerSpared(s, s', t);
      WakeUpCannotFail(s', mid, e.clock, 0);
      PassCompletes(s', mid, true, Blocked, e.clock, 0, e.cpuTime, t);
    case Sleep(until) => SleepCompletes(s, until, e.clock, e.cpuTime, t);
    case Yield =>
      WakeUpCannotFail(s, SETTLED, e.clock, 0);
      PassCompletes(s, SETTLED, true, Ready, e.clock, 0, e.cpuTime, t);
    case Timer =>
      WakeUpCannotFail(s, SETTLED, e.clock, 0);
      PassCompletes(s, SETTLED, false, Ready, e.clock, 0, e.cpuTime, t);
    case Exit(status) =>
      WakeUpCannotFail(s, SETTLED, e.clock, 0);
      PassCompletes(s, SETTLED, true, status, e.clock, 0, e.cpuTime, t);
    case ReleaseStep(w) =>
      if Q(s, WaitQueue(w)) != [] {
        var s', mid := Popped(s, WaitQueue(w)), Mid(None, Some(Q(s, WaitQueue(w))[0]));
        PopKeepsPlaced(s, None, WaitQueue(w));
        PopFrame(s, WaitQueue(w));
        PoppedKeysFit(s, WaitQueue(w));
        WorkerSpared(s, s', t);
        WakeUpCannotFail(s', mid, e.clock, 0);
        PassCompletes(s', mid, false, Ready, e.clock, 0, e.cpuTime, t);
      }
    case _ =>
  }

  lemma WorkerSpared(s: State, s': State, t: Tid)
    requires Working(s, t) && (t != s.current || s'.threads == s.threads)
    requires s'.threads == s.threads || s'.threads == s.threads[s.current := Th(s', s.current)]
    ensures Working(s', t)
  {
  }

  lemma SleepCompletes(s: State, until: nat, clock: nat -> nat, cpuTime: nat, t: Tid)
    requires Inv(s) && KeysFit(s) && SmoothClock(clock) && Working(s, t) && t != s.current
    requires until < clock(0) + MIN_DELTA || (until < WORD && IsFar(s, until, clock))
    ensures NanoSleepUntil(s, until, clock, cpuTime).Done?
  {
    hide Placed, Pass, Enqueued, Q, KeysFit, SmoothClock, IsFar, Working, WakeUpTasks;
    if !(until < clock(0) || until - clock(0) < MIN_DELTA) {
      SettledFacts(s);
      var th := s.threads[s.current].(key := until);
      EnqueuedKeepsPlaced(s, th, SleepQueue);
      EnqueuedFrame(s, th, SleepQueue);
      EnqueuedKeysFit(s, th, SleepQueue);
      var s' := Enqueued(s, th, SleepQueue);
      WorkerSpared(s, s', t);
      FarSleepCannotFail(s, until, clock);
      PassCompletes(s', Mid(Some(SleepQueue), None), true, Sleeping, clock, 1, cpuTime, t);
    }
  }

  /** Every step of the run is benign where it is taken. */
  ghost predicate AllBenign(s: State, es: seq<Step>)
    requires IsRun(s, es)
    decreases |es|
  {
    es == [] || (IsBenign(s, es[0]) && (Apply(s, es[0]).Done? ==> AllBenign(Apply(s, es[0]).s, es[1..])))
  }

  /** No run of benign steps panics while a round-robin worker only ever yields. */
  lemma {:induction false} BenignRunsNeverPanic(s: State, es: seq<Step>, t: Tid)
    requires Inv(s) && KeysFit(s) && IsRun(s, es) && AllBenign(s, es) && Working(s, t) && OnlyYields(s, es, t)
    ensures Run(s, es).Done? && Inv(Run(s, es).s)
    decreases |es|
  {
    hide Inv, Apply, Enabled, IsBenign, KeysFit;
    if es != [] {
      BenignCompletes(s, es[0], t);
      ApplyKeepsInv(s, es[0]);
      ApplyKeysFit(s, es[0]);
      ApplyEffect(s, es[0], t);
      BenignRunsNeverPanic(Apply(s, es[0]).s, es[1..], t);
    }
  }

  /** In particular from the moment the scheduler takes over. */
  lemma BootedNeverPanics(t: Tid, policy: nat, priority: nat, es: seq<Step>)
    requires PQ_POLICIES <= policy < POLICIES && IsRun(Booted(t, policy, priority), es)
    requires AllBenign(Booted(t, policy, priority), es) && OnlyYields(Booted(t, policy, priority), es, t)
    ensures Run(Booted(t, policy, priority), es).Done?
  {
    hide Inv, IsRun, Run, AllBenign, OnlyYields;
    BootedInv(t, policy, priority);
    BenignRunsNeverPanic(Booted(t, policy, priority), es, t);
  }
}
