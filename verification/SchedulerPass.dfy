/**
 What one scheduling pass decides, with its numbers written out: which woken threads ask for a new
 choice, which thread runs after the pass, and when the timer fires.
 */
module SchedulerPass {
  import opened Basics
  import BitmapQueue
  import opened Scheduler

  // ---------------------------------------------------------------------------------------------
  // What waking does to the queues and to the choice
  // ---------------------------------------------------------------------------------------------

  /** The run queues grow at their ends only. */
  ghost predicate RunQueuesGrow(s: State, s': State) {
    forall p, l :: Q(s, RunQueue(p, l)) <= Q(s', RunQueue(p, l))
  }

  lemma MovedGrows(s: State, m: Tid)
    requires m in s.threads && s.threads[m].status == Sleeping
    ensures RunQueuesGrow(s, Moved(s, m, s.threads[m].(status := Ready)))
  {
    hide Drop;
  }

  lemma GrowTransitive(a: State, b: State, c: State)
    requires RunQueuesGrow(a, b) && RunQueuesGrow(b, c)
    ensures RunQueuesGrow(a, c)
  {
    hide Q;
    forall p, l ensures Q(a, RunQueue(p, l)) <= Q(c, RunQueue(p, l)) {
      assert Q(a, RunQueue(p, l)) <= Q(b, RunQueue(p, l)) <= Q(c, RunQueue(p, l));
    }
  }

  /** Threads that are woken stand behind every thread that was ready before. */
  lemma {:induction false} WokenGoLast(s: State, mid: Mid, clock: nat -> nat, i: nat)
    requires Placed(s, mid) && WakeUpTasks(s, clock, i).Woken?
    ensures RunQueuesGrow(s, WakeUpTasks(s, clock, i).s)
    decreases |Q(s, SleepQueue)|
  {
    hide Placed, Due, Moved, IsFirstHigherPriority, FlagsOk, MinOf, RunQueuesGrow;
    if Q(s, SleepQueue) == [] {
      GrowNothing(s);
    } else {
      var m := MinOf(s, Q(s, SleepQueue));
      MinSleeper(s, mid);
      if Due(s.threads[m].key, clock(i)) {
        var s1 := Moved(s, m, s.threads[m].(status := Ready));
        WakeUpMoves(s, mid, m);
        WokenGoLast(s1, mid, clock, i + 1);
        MovedGrows(s, m);
        GrowTransitive(s, s1, WakeUpTasks(s1, clock, i + 1).s);
      } else {
        GrowNothing(s);
      }
    }
  }

  lemma GrowNothing(s: State)
    ensures RunQueuesGrow(s, s)
  {
  }

  /**
   The window of the wake-up is 6 microseconds: a thread is woken only when at some reading its deadline
   was at most that far away, and whoever stays asleep had more than that left at the last reading.
   */
  lemma WakeUpWindow(s: State, mid: Mid, clock: nat -> nat, i: nat, t: Tid)
    requires Placed(s, mid) && WakeUpTasks(s, clock, i).Woken? && mid.limbo != Some(t)
    requires t in s.threads && s.threads[t].status == Sleeping
    ensures var w := WakeUpTasks(s, clock, i);
            && t in w.s.threads && (w.s.threads[t].status == Ready || w.s.threads[t].status == Sleeping)
            && (w.s.threads[t].status == Ready ==> DueAtSome(s.threads[t].key, clock, i, w.looks))
            && (w.s.threads[t].status == Sleeping ==> i < w.looks && s.threads[t].key > clock(w.looks - 1) + 6_000)
  {
    hide NoDuplicates, BitmapQueue.AllFalse, FlagsOk, WakeUpTasks, RunQueueOf;
    WakeUpExact(s, mid, clock, i);
    var w := WakeUpTasks(s, clock, i);
    if w.s.threads[t].status == Sleeping {
      assert QueueExact(w.s, mid, SleepQueue);
      assert t in Q(w.s, SleepQueue);
    } else {
      var j :| i <= j < w.looks && Due(s.threads[t].key, clock(j));
      assert IsDue(s.threads[t].key, clock(j));
    }
  }

  /** At some of the readings the deadline was at most 6 microseconds away. */
  ghost predicate DueAtSome(key: nat, clock: nat -> nat, from: nat, to: nat) {
    exists j: nat :: from <= j < to && IsDue(key, clock(j))
  }

  ghost predicate IsDue(key: nat, time: nat) { key <= time + 6_000 }

  /**
   Where the bitmap of a priority policy has a bit set, the policy delivers the oldest thread of the first
   level that has one, and clears the bit exactly when that was the last thread of the level.
   */
  lemma PriorityPick(s: State, p: nat, level: nat)
    requires p < PQ_POLICIES && p < |s.bits| && level < |s.bits[p]| && s.bits[p][level]
    requires (forall l :: 0 <= l < level ==> !s.bits[p][l]) && Q(s, RunQueue(p, level)) != []
    ensures var ((s', t), q) := (PickNextTask(s, p), Q(s, RunQueue(p, level)));
            && t == Some(q[0]) && Q(s', RunQueue(p, level)) == q[1..] && s'.threads == s.threads
            && (forall id :: id != RunQueue(p, level) ==> Q(s', id) == Q(s, id))
            && |s'.bits| == |s.bits| && |s'.bits[p]| == |s.bits[p]| && (s'.bits[p][level] <==> |q| > 1)
            && (forall l :: 0 <= l < |s.bits[p]| && l != level ==> s'.bits[p][l] == s.bits[p][l])
            && (forall r :: 0 <= r < |s.bits| && r != p ==> s'.bits[r] == s.bits[r])
  {
    assert BitmapQueue.FindFirst(s.bits[p]) == Some(level);
  }

  /**
   A woken thread that calls for a new choice: its policy number is larger than the running thread's,
   or both have the same priority policy and it has the larger priority.
   */
  ghost predicate CallsForChoice(s: State, s': State, t: Tid) {
    && t in s.threads && s.threads[t].status == Sleeping && Th(s', t).status == Ready
    && var th, cur := s.threads[t], Th(s, s.current);
    (th.policy > cur.policy || (th.policy == cur.policy && th.policy < 3 && th.priority > cur.priority))
  }

  /** The wake-up asks for a new choice exactly when it woke such a thread. */
  lemma {:induction false} WakeAsksIff(s: State, mid: Mid, clock: nat -> nat, i: nat)
    requires Placed(s, mid) && WakeUpTasks(s, clock, i).Woken?
    ensures var w := WakeUpTasks(s, clock, i); w.preempt <==> exists t: Tid :: CallsForChoice(s, w.s, t)
    decreases |Q(s, SleepQueue)|
  {
    hide Placed, Due, Moved, FlagsOk, MinOf, CallsForChoice, IsFirstHigherPriority, OnlyWakes, WokenWhenDue, NoneDue;
    if Q(s, SleepQueue) == [] {
      NobodyCalls(s);
    } else {
      var m := MinOf(s, Q(s, SleepQueue));
      MinSleeper(s, mid);
      if Due(s.threads[m].key, clock(i)) {
        var s1 := Moved(s, m, s.threads[m].(status := Ready));
        WakeUpMoves(s, mid, m);
        WakeAsksIff(s1, mid, clock, i + 1);
        WakeUpExact(s1, mid, clock, i + 1);
        MovedFrame(s, m, s.threads[m].(status := Ready));
        CallersAdd(s, s1, WakeUpTasks(s1, clock, i + 1).s, m);
      } else {
        NobodyCalls(s);
      }
    }
  }

  lemma NobodyCalls(s: State)
    ensures forall t: Tid :: !CallsForChoice(s, s, t)
  {
  }

  lemma CallersAdd(s: State, s1: State, s2: State, m: Tid)
    requires m in s.threads && m != s.current && s.threads[m].status == Sleeping
    requires s1.threads == s.threads[m := s.threads[m].(status := Ready)] && s1.current == s.current
    requires OnlyWakes(s1, s2)
    ensures CallsForChoice(s, s2, m) <==> IsFirstHigherPriority(s.threads[m], Th(s, s.current))
    ensures forall t: Tid :: t != m ==> (CallsForChoice(s, s2, t) <==> CallsForChoice(s1, s2, t))
    ensures !CallsForChoice(s1, s2, m)
  {
    hide Q;
  }

  ghost predicate Wakes(s: State, s': State, t: Tid, policy: nat) {
    t in s.threads && s.threads[t].status == Sleeping && Th(s', t).status == Ready && s.threads[t].policy == policy
  }

  /** A woken thread that the policies deliver before the running one: they are asked from number 0 on. */
  ghost predicate ComesFirst(s: State, s': State, t: Tid) {
    var cur := Th(s, s.current);
    exists p: nat :: Wakes(s, s', t, p)
                     && (p < cur.policy || (p == cur.policy && p < 3 && s.threads[t].priority > cur.priority))
  }

  ghost predicate WakesAbove(s: State, s': State) {
    exists t: Tid, p: nat :: Wakes(s, s', t, p) && p > Th(s, s.current).policy
  }

  ghost predicate WakesBelow(s: State, s': State) {
    exists t: Tid, p: nat :: Wakes(s, s', t, p) && p < Th(s, s.current).policy
  }

  ghost predicate WakesPrior(s: State, s': State) {
    var cur := Th(s, s.current);
    exists t: Tid :: Wakes(s, s', t, cur.policy) && cur.policy < 3 && s.threads[t].priority > cur.priority
  }

  /**
   Policy numbers are compared the wrong way round: a wake-up asks for a choice just when it woke a thread
   that comes first if and only if it woke one of the same policy that comes first, or both a thread of
   a smaller and one of a larger policy number, or neither.
   */
  lemma WakeAsksRightlyIff(s: State, mid: Mid, clock: nat -> nat, i: nat)
    requires Placed(s, mid) && WakeUpTasks(s, clock, i).Woken?
    ensures var w := WakeUpTasks(s, clock, i);
            (w.preempt <==> exists t: Tid :: ComesFirst(s, w.s, t))
            <==> (WakesPrior(s, w.s) || (WakesAbove(s, w.s) <==> WakesBelow(s, w.s)))
  {
    hide Placed, WakeUpTasks;
    WakeAsksIff(s, mid, clock, i);
    AskingIs(s, WakeUpTasks(s, clock, i).s);
  }

  lemma AskingIs(s: State, s': State)
    ensures (exists t: Tid :: CallsForChoice(s, s', t)) <==> WakesPrior(s, s') || WakesAbove(s, s')
    ensures (exists t: Tid :: ComesFirst(s, s', t)) <==> WakesPrior(s, s') || WakesBelow(s, s')
  {
    var cur := Th(s, s.current);
    forall t: Tid | CallsForChoice(s, s', t) ensures WakesPrior(s, s') || WakesAbove(s, s') {
      assert Wakes(s, s', t, s.threads[t].policy);
    }
    if WakesPrior(s, s') {
      var t: Tid :| Wakes(s, s', t, cur.policy) && s.threads[t].priority > cur.priority;
      assert CallsForChoice(s, s', t) && ComesFirst(s, s', t);
    }
    if WakesAbove(s, s') {
      var t: Tid, p: nat :| Wakes(s, s', t, p) && p > cur.policy;
      assert CallsForChoice(s, s', t);
    }
    if WakesBelow(s, s') {
      var t: Tid, p: nat :| Wakes(s, s', t, p) && p < cur.policy;
      assert ComesFirst(s, s', t);
    }
  }

  // ---------------------------------------------------------------------------------------------
  // The thread and the timer of a completed pass
  // ---------------------------------------------------------------------------------------------

  ghost predicate IsFirstSleeper(s: State, m: Tid) {
    m in Q(s, SleepQueue) && forall t :: t in Q(s, SleepQueue) ==> Th(s, m).key <= Th(s, t).key
  }

  /** The time to the earliest remaining deadline in 64 bits, or the largest word when nobody sleeps. */
  ghost predicate IsTimeToFirst(s: State, time: nat, d: nat) {
    if Q(s, SleepQueue) == [] then d == 0xFFFF_FFFF_FFFF_FFFF
    else exists m: Tid :: IsFirstSleeper(s, m) && d == (Th(s, m).key - time) % 0x1_0000_0000_0000_0000
  }

  ghost predicate IsLesser(x: nat, a: nat, b: nat) { x <= a && x <= b && (x == a || x == b) }

  /**
   What a pass has decided, `w` being the state after the wake-up, `d` the time to the first deadline
   and `asked` whether the caller or a woken thread asks for a new choice.  A thread may run for 5 ms
   under a priority policy and for 20 ms under round robin.  A forced thread runs for its full time.
   When a choice is asked for, or less than 3 microseconds are left, the first ready round-robin thread
   runs for its full time, policy 3 before policy 4, and without one the running thread starts over.
   Otherwise the running thread goes on for what it has left.
   */
  ghost predicate Decides(w: State, forced: Option<Tid>, asked: bool, cpuTime: nat, d: nat, next: Tid, timer: nat) {
    var full := if Th(w, w.current).policy < 3 then 5_000_000 else 20_000_000;
    var left := if cpuTime < full then full - cpuTime else 0;
    if forced.Some? then
      && next == forced.value
      && IsLesser(timer, d, if Th(w, next).policy < 3 then 5_000_000 else 20_000_000)
    else if asked || left < 3_000 then
      if Q(w, RunQueue(3, 0)) != [] then next == Q(w, RunQueue(3, 0))[0] && IsLesser(timer, d, 20_000_000)
      else if Q(w, RunQueue(4, 0)) != [] then next == Q(w, RunQueue(4, 0))[0] && IsLesser(timer, d, 20_000_000)
      else next == w.current && IsLesser(timer, d, full)
    else next == w.current && IsLesser(timer, d, left)
  }

  lemma SleepTimeIs(s: State, time: nat)
    ensures IsTimeToFirst(s, time, SleepTime(s, time))
  {
    if Q(s, SleepQueue) != [] {
      assert IsFirstSleeper(s, MinOf(s, Q(s, SleepQueue)));
    }
  }

  lemma RescheduleDecides(s: State, ahead: Option<QueueId>, status: Status, sleepTime: nat, cpuTime: nat)
    requires Placed(s, Mid(ahead, None)) && Leaves(s, ahead, status) && Reschedule(s, status, sleepTime).Done?
    ensures var r := Reschedule(s, status, sleepTime);
            r.timer.Some? && Decides(s, None, true, cpuTime, sleepTime, r.s.current, r.timer.value)
  {
    hide QueuesExact, RunQueueOf, Q, Popped, Schedule, BitmapQueue.AllFalse, FlagsOk;
    ScheduleIs(s);
    var q3, q4 := Q(s, RunQueue(3, 0)), Q(s, RunQueue(4, 0));
    if q3 != [] || q4 != [] {
      var id := if q3 != [] then RunQueue(3, 0) else RunQueue(4, 0);
      NotAhead(s, ahead, status, id);
      PopKeepsPlaced(s, ahead, id);
      PopFrame(s, id);
      RunQueuePolicy(s.threads[Q(s, id)[0]], id);
    }
  }

  lemma DecidesWhenAsked(w: State, asked: bool, cpuTime: nat, d: nat, next: Tid, timer: nat)
    requires Decides(w, None, true, cpuTime, d, next, timer) && Th(w, w.current).status == Running
    requires asked || ShouldPreempt(PreemptTime(Th(w, w.current), cpuTime))
    ensures Decides(w, None, asked, cpuTime, d, next, timer)
  {
    hide Q;
  }

  /**
   The timer of a completed pass is the lesser of the time to the first remaining deadline and the time
   the chosen thread may still run.
   */
  lemma PassTimerIs(s: State, mid: Mid, preempt: bool, status: Status, clock: nat -> nat, i: nat, cpuTime: nat)
    requires Placed(s, mid) && Leaves(s, mid.ahead, status)
    requires Pass(s, preempt, status, mid.limbo, clock, i, cpuTime).Done?
    ensures var w, r := WakeUpTasks(s, clock, i), Pass(s, preempt, status, mid.limbo, clock, i, cpuTime);
            && w.Woken? && r.timer.Some?
            && exists d: nat :: IsTimeToFirst(w.s, clock(w.looks), d)
                 && Decides(w.s, mid.limbo, preempt || w.preempt, cpuTime, d, r.s.current, r.timer.value)
  {
    hide QueuesExact, OnlyWakes, WakeUpTasks, Leaves, Reschedule, RunQueueOf, NoneDue, WokenWhenDue, Q;
    hide SleepTime, IsTimeToFirst, BitmapQueue.AllFalse, FlagsOk, Decides;
    WakeUpExact(s, mid, clock, i);
    var woken := WakeUpTasks(s, clock, i);
    var w := woken.s;
    var d := SleepTime(w, clock(woken.looks));
    SleepTimeIs(w, clock(woken.looks));
    LeavesAfterWake(s, w, mid.ahead, status);
    var r := Pass(s, preempt, status, mid.limbo, clock, i, cpuTime);
    if mid.limbo.Some? {
      DecidesForced(w, mid.limbo.value, status, preempt || woken.preempt, cpuTime, d);
    } else if preempt || woken.preempt || ShouldPreempt(PreemptTime(Th(w, w.current), cpuTime)) {
      RescheduleDecides(w, mid.ahead, status, d, cpuTime);
      DecidesWhenAsked(w, preempt || woken.preempt, cpuTime, d, r.s.current, r.timer.value);
    } else {
      DecidesToGoOn(w, cpuTime, d, r.timer.value);
    }
  }

  lemma DecidesForced(w: State, t: Tid, status: Status, asked: bool, cpuTime: nat, d: nat)
    requires Arm(Switched(w, t, status), Quantum(Th(w, t)), d).Done?
    ensures var r := Arm(Switched(w, t, status), Quantum(Th(w, t)), d);
            r.timer.Some? && Decides(w, Some(t), asked, cpuTime, d, r.s.current, r.timer.value)
  {
    hide Q;
  }

  lemma DecidesToGoOn(w: State, cpuTime: nat, d: nat, timer: nat)
    requires Th(w, w.current).status == Running && !ShouldPreempt(PreemptTime(Th(w, w.current), cpuTime))
    requires Arm(w, PreemptTime(Th(w, w.current), cpuTime), d) == Done(w, Some(timer))
    ensures Decides(w, None, false, cpuTime, d, w.current, timer)
  {
    hide Q;
  }

  /**
   A timer pass of a thread with less than 3 microseconds left makes the first ready policy-3 thread
   run; without one it still gives way to some other thread whenever a policy-4 thread is ready.
   */
  lemma UsedUpThreadGivesWay(s: State, e: Step)
    requires Inv(s) && e.op == Timer && Apply(s, e).Done?
    requires e.cpuTime + 3_000 > if Th(s, s.current).policy < 3 then 5_000_000 else 20_000_000
    ensures var s', q3 := Apply(s, e).s, Q(s, RunQueue(3, 0));
            && (q3 != [] ==> s'.current == q3[0])
            && (q3 != [] || Q(s, RunQueue(4, 0)) != [] ==>
                  s'.current != s.current && Th(s', s.current).status == Ready)
  {
    hide QueuesExact, OnlyWakes, WakeUpTasks, RunQueueOf, NoneDue, WokenWhenDue, Q, IsTimeToFirst, Pass;
    PassTimerIs(s, SETTLED, false, Ready, e.clock, 0, e.cpuTime);
    WakeUpExact(s, SETTLED, e.clock, 0);
    WokenGoLast(s, SETTLED, e.clock, 0);
    PassKeepsInv(s, SETTLED, false, Ready, e.clock, 0, e.cpuTime);
    PassEffect(s, SETTLED, false, Ready, e.clock, 0, e.cpuTime, s.current);
    var w := WakeUpTasks(s, e.clock, 0).s;
    OnlyWakesKeys(s, w);
    WakeSpares(s, w, s.current);
    assert Q(s, RunQueue(3, 0)) <= Q(w, RunQueue(3, 0)) && Q(s, RunQueue(4, 0)) <= Q(w, RunQueue(4, 0));
    NotQueued(w, 3);
    NotQueued(w, 4);
  }

  /** The running thread is in no run queue. */
  lemma NotQueued(s: State, p: nat)
    requires Inv(s)
    ensures s.current !in Q(s, RunQueue(p, 0))
  {
    hide NoDuplicates, BitmapQueue.AllFalse, FlagsOk;
    assert QueueExact(s, SETTLED, RunQueue(p, 0));
  }

  /** Thread 0 of policy 3 is asleep, thread 1 of policy 4 runs. */
  const NAPPING: State :=
    State(map[0 := Thread(Sleeping, 3, 0, 1_000_000, 0), 1 := Thread(Running, 4, 0, 0, 0)], 1,
          map[SleepQueue := [0], RunQueue(4, 0) := []], Booted(0, 3, 0).bits)

  const FIRST_STEP: Step := Step(Spawn(1, 4, 0), ZERO_CLOCK, 0)
  const NAP: Step := Step(Sleep(1_000_000), ZERO_CLOCK, 0)

  /** The booted machine with the thread of policy 4. */
  const WITH_SECOND: State :=
    State(map[0 := Thread(Running, 3, 0, 0, 0), 1 := Thread(Ready, 4, 0, 0, 0)], 0, map[RunQueue(4, 0) := [1]],
          Booted(0, 3, 0).bits)

  lemma FirstStepIs()
    ensures Apply(Booted(0, 3, 0), FIRST_STEP) == Done(WITH_SECOND, None)
  {
    assert RunQueueOf(Thread(Ready, 4, 0, 0, 0)) == RunQueue(4, 0) && [] + [1] == [1];
    assert Moved(Booted(0, 3, 0), 1, Thread(Ready, 4, 0, 0, 0)).queues == WITH_SECOND.queues;
  }

  /** The machine while its first thread goes to sleep. */
  const DOZING: State :=
    WITH_SECOND.(threads := WITH_SECOND.threads[0 := Thread(Running, 3, 0, 1_000_000, 0)],
                 queues := map[RunQueue(4, 0) := [1], SleepQueue := [0]])

  lemma DozingWakesNobody()
    ensures Enqueued(WITH_SECOND, WITH_SECOND.threads[0].(key := 1_000_000), SleepQueue) == DOZING
    ensures WakeUpTasks(DOZING, ZERO_CLOCK, 1) == Woken(DOZING, 2, false) && SleepTime(DOZING, 0) == 1_000_000
    ensures BitsClear(DOZING)
  {
    assert [] + [0] == [0];
    assert Push(WITH_SECOND, Some(SleepQueue), 0).queues == DOZING.queues;
  }

  lemma NapIs()
    ensures Apply(WITH_SECOND, NAP) == Done(NAPPING, Some(1_000_000))
  {
    hide WakeUpTasks, Enqueued, SleepTime, Schedule, BitsClear;
    DozingWakesNobody();
    ScheduleIs(DOZING);
    var s := Popped(DOZING, RunQueue(4, 0));
    assert s.queues == NAPPING.queues;
    assert Switched(s, 1, Sleeping).threads == NAPPING.threads;
  }

  /** The first thread of a booted machine creates one of policy 4 and sleeps for a millisecond. */
  lemma NappingRun()
    ensures IsRun(Booted(0, 3, 0), [FIRST_STEP, NAP])
    ensures Run(Booted(0, 3, 0), [FIRST_STEP, NAP]) == Done(NAPPING, None) && Inv(NAPPING)
  {
    hide Apply, Inv;
    FirstStepIs();
    NapIs();
    assert [FIRST_STEP, NAP][1..] == [NAP] && [NAP][1..] == [];
    assert IsRun(NAPPING, []) && Run(NAPPING, []) == Done(NAPPING, None);
    assert IsRun(WITH_SECOND, [NAP]) && Run(WITH_SECOND, [NAP]) == Done(NAPPING, None);
    BootedInv(0, 3, 0);
    RunKeepsInv(Booted(0, 3, 0), [FIRST_STEP, NAP]);
  }

  const LATER: nat -> nat := _ => 1_000_000

  /** The machine after its sleeper is woken. */
  const AWAKE: State :=
    NAPPING.(threads := NAPPING.threads[0 := Thread(Ready, 3, 0, 1_000_000, 0)],
             queues := map[SleepQueue := [], RunQueue(4, 0) := [], RunQueue(3, 0) := [0]])

  lemma NappingWakes()
    ensures WakeUpTasks(NAPPING, LATER, 0) == Woken(AWAKE, 1, false)
  {
    var th := Thread(Ready, 3, 0, 1_000_000, 0);
    assert RunQueueOf(th) == RunQueue(3, 0) && Drop([0], 0) == [] && [] + [0] == [0];
    assert Moved(NAPPING, 0, th).queues == AWAKE.queues;
    assert Moved(NAPPING, 0, th).threads == AWAKE.threads;
    assert WakeUpTasks(AWAKE, LATER, 1) == Woken(AWAKE, 1, false);
  }

  /**
   A thread of policy 3 that wakes up while one of policy 4 runs has to wait for the end of the other's
   quantum, although policy 3 is asked first.
   */
  lemma UrgentSleeperWaits()
    ensures var r := Apply(NAPPING, Step(Timer, LATER, 1_000_000));
            r.Done? && r.s.current == 1 && Q(r.s, RunQueue(3, 0)) == [0] && r.timer == Some(19_000_000)
  {
    hide WakeUpTasks;
    NappingWakes();
  }
}
