/**
 The scheduler object: the loops of `WakeUpTasks`, `Schedule` and `ReleaseAll` and the scheduling pass
 itself, each proved to do what the corresponding function of module `Scheduler` says.
 */
module SchedulerObject {
  import opened Basics
  import opened Bits
  import opened BitmapQueue
  import opened Scheduler

  datatype PassResult = Panicked(why: Reason) | Armed(timer: nat)

  class Core {
    var threads: map<Tid, Thread>
    var current: Tid
    var queues: map<QueueId, seq<Tid>>
    var bits: seq<seq<bool>>

    ghost function Now(): State
      reads this
    {
      State(threads, current, queues, bits)
    }

    constructor (t: Tid, policy: nat, priority: nat)
      requires PQ_POLICIES <= policy < POLICIES
      ensures Now() == Booted(t, policy, priority) && Inv(Now())
    {
      threads, current, queues := map[t := Thread(Running, policy, priority, 0, 0)], t, map[];
      bits := seq(PQ_POLICIES, _ => seq(MAX_PRIORITY, _ => false));
      new;
      BootedInv(t, policy, priority);
    }

    function Queue(id: QueueId): (q: seq<Tid>)
      reads this
      ensures q == Q(Now(), id)
    {
      if id in queues then queues[id] else []
    }

    method Enqueue(id: QueueId, t: Tid)
      modifies this`queues
      ensures Now() == Push(old(Now()), Some(id), t)
    {
      queues := queues[id := Queue(id) + [t]];
    }

    method Dequeue(id: QueueId, t: Tid)
      modifies this`queues
      ensures Now() == Pull(old(Now()), Some(id), t)
    {
      queues := queues[id := Drop(Queue(id), t)];
    }

    /** The minimum of the sleep tree. */
    method Min() returns (m: Tid)
      requires Queue(SleepQueue) != [] && forall t :: t in Queue(SleepQueue) ==> t in threads
      ensures m == MinOf(Now(), Queue(SleepQueue))
    {
      var q := Queue(SleepQueue);
      var i := |q| - 1;
      m := q[i];
      while i > 0
        invariant 0 <= i < |q| && m in threads && m == MinOf(Now(), q[i..])
      {
        i := i - 1;
        assert q[i..][1..] == q[i + 1..] && q[i] in q;
        m := if threads[q[i]].key <= threads[m].key then q[i] else m;
      }
      assert q[0..] == q;
    }

    method WakeUpTasks(clock: nat -> nat, i: nat, ghost mid: Mid) returns (ok: bool, looks: nat, preempt: bool)
      requires Placed(Now(), mid)
      modifies this`threads, this`queues
      ensures var r := Scheduler.WakeUpTasks(old(Now()), clock, i);
              if ok then r == Woken(Now(), looks, preempt) && Placed(Now(), mid) else r == WakeFailed
    {
      hide Placed, Due, IsFirstHigherPriority, Moved, MinOf;
      preempt, looks := false, i;
      while Queue(SleepQueue) != []
        invariant current == old(current) && bits == old(bits) && Placed(Now(), mid)
        invariant var r := Scheduler.WakeUpTasks(Now(), clock, looks);
                  Scheduler.WakeUpTasks(old(Now()), clock, i)
                  == if r.WakeFailed? then WakeFailed else Woken(r.s, r.looks, r.preempt || preempt)
        decreases |Queue(SleepQueue)|
      {
        SleepersKnown(Now(), mid);
        MinSleeper(Now(), mid);
        var m := Min();
        var th := threads[m];
        if !Due(th.key, clock(looks)) {
          return true, looks + 1, preempt;
        }
        if th.status != Sleeping || !FlagsOk(th) {
          return false, looks, preempt;
        }
        MovedKeepsPlaced(Now(), mid, m, th.(status := Ready));
        WakeUpDecreases(Now(), m);
        WakeIsMove(Now(), m);
        preempt := preempt || IsFirstHigherPriority(th, threads[current]);
        Dequeue(SleepQueue, m);
        threads := threads[m := th.(status := Ready)];
        Enqueue(RunQueueOf(th), m);
        looks := looks + 1;
      }
      return true, looks, preempt;
    }

    /** Asks the policies in order. */
    method Schedule() returns (next: Option<Tid>)
      modifies this`queues, this`bits
      ensures (Now(), next) == Scheduler.Schedule(old(Now()), 0)
    {
      hide PickNextTask;
      next := None;
      var p := 0;
      while p < POLICIES
        invariant p <= POLICIES && next == None
        invariant Scheduler.Schedule(old(Now()), 0) == Scheduler.Schedule(Now(), p)
        decreases POLICIES - p
      {
        if p < PQ_POLICIES {
          next := PickPriority(p);
        } else {
          next := PickRoundRobin(p);
        }
        if next.Some? {
          return;
        }
        p := p + 1;
      }
    }

    /** The oldest thread of the lowest level whose bit is set. */
    method PickPriority(p: nat) returns (next: Option<Tid>)
      requires p < PQ_POLICIES
      modifies this`queues, this`bits
      ensures (Now(), next) == PickNextTask(old(Now()), p)
    {
      if p >= |bits| {
        return None;
      }
      var level := FindFirst(bits[p]);
      if level.None? {
        return None;
      }
      var id := RunQueue(p, level.value);
      var q := Queue(id);
      next := if q == [] then None else Some(q[0]);
      queues := queues[id := if q == [] then [] else q[1..]];
      if Queue(id) == [] {
        bits := bits[p := bits[p][level.value := false]];
      }
    }

    method PickRoundRobin(p: nat) returns (next: Option<Tid>)
      requires p >= PQ_POLICIES
      modifies this`queues
      ensures (Now(), next) == PickNextTask(old(Now()), p)
    {
      var q := Queue(RunQueue(p, 0));
      if q == [] {
        return None;
      }
      queues := queues[RunQueue(p, 0) := q[1..]];
      return Some(q[0]);
    }

    /** The current thread stops and `next` runs. */
    method SwitchTo(next: Tid, status: Status)
      requires next in threads && current in threads && next != current
      modifies this
      ensures Now() == Switched(old(Now()), next, status)
    {
      var cur := threads[current].(status := status);
      threads := threads[next := threads[next].(status := Running)][current := cur];
      if status == Ready {
        Enqueue(RunQueueOf(cur), current);
      }
      current := next;
    }

    /** Steps 4 and 5 of a pass. */
    method ArmTimer(preemptTime: nat, sleepTime: nat) returns (r: PassResult)
      ensures Arm(Now(), preemptTime, sleepTime) == if r.Armed? then Done(Now(), Some(r.timer)) else Panic(r.why)
    {
      if preemptTime <= MIN_DELTA {
        return Panicked(AssertFailed);
      }
      var time := if preemptTime < sleepTime then preemptTime else sleepTime;
      if time <= MIN_DELTA {
        return Panicked(AssertFailed);
      }
      return Armed(time);
    }

    method ScheduleAndUpdateThreads(preempt: bool, status: Status, forced: Option<Tid>,
                                    clock: nat -> nat, i: nat, cpuTime: nat, ghost mid: Mid) returns (r: PassResult)
      requires Placed(Now(), mid) && mid.limbo == forced && Leaves(Now(), mid.ahead, status)
               && (preempt || status == Ready)
      requires forced.Some? ==> forced.value in threads
      modifies this
      ensures var p := Pass(old(Now()), preempt, status, forced, clock, i, cpuTime);
              if r.Armed? then p == Done(Now(), Some(r.timer)) && Inv(Now()) else p == Panic(r.why)
    {
      hide QueuesExact, Q, Scheduler.WakeUpTasks, SleepTime, RunQueueOf, Leaves, PreemptTime, Switched;
      hide Scheduler.Schedule, Arm, OnlyWakes, WokenWhenDue, NoneDue;
      ghost var before := Now();
      var ok, looks, forcePreempt := WakeUpTasks(clock, i, mid);
      if !ok {
        return Panicked(AssertFailed);
      }
      ghost var woken := Now();
      WakeUpExact(before, mid, clock, i);
      OnlyWakesKeys(before, woken);
      LeavesAfterWake(before, woken, mid.ahead, status);
      if Pass(before, preempt, status, forced, clock, i, cpuTime).Done? {
        PassKeepsInv(before, mid, preempt, status, clock, i, cpuTime);
      }
      var sleepTime := TimeToFirstSleeper(clock(looks), mid);
      var preemptTime := PreemptTime(threads[current], cpuTime);
      if forced.Some? {
        preemptTime := Quantum(threads[forced.value]);
        SwitchTo(forced.value, status);
      } else if preempt || forcePreempt || ShouldPreempt(preemptTime) {
        NextIsOther(woken, mid.ahead, status);
        var next := Schedule();
        if next.None? {
          if status != Ready {
            return Panicked(IdleReached);
          }
          preemptTime := Quantum(threads[current]);
        } else {
          preemptTime := Quantum(threads[next.value]);
          SwitchTo(next.value, status);
        }
      }
      r := ArmTimer(preemptTime, sleepTime);
    }

    method TimeToFirstSleeper(time: nat, ghost mid: Mid) returns (r: nat)
      requires Placed(Now(), mid)
      ensures r == SleepTime(Now(), time)
    {
      hide Placed, MinOf;
      if Queue(SleepQueue) == [] {
        return WORD - 1;
      }
      SleepersKnown(Now(), mid);
      var m := Min();
      return (threads[m].key - time) % WORD;
    }

    /** Releases every waiting thread, first come first served. */
    method ReleaseAll(w: nat)
      requires Inv(Now())
      modifies this`threads, this`queues
      ensures Inv(Now()) && Now() == Scheduler.ReleaseAll(old(Now()), w)
      ensures Queue(WaitQueue(w)) == []
      ensures forall t :: t in old(Queue(WaitQueue(w))) ==> t in threads && threads[t].status == Ready
    {
      hide Placed, Moved, FlagsOk;
      ReleaseAllKeepsInv(Now(), w);
      while Queue(WaitQueue(w)) != []
        invariant current == old(current) && bits == old(bits) && Inv(Now())
        invariant Scheduler.ReleaseAll(Now(), w) == Scheduler.ReleaseAll(old(Now()), w)
        decreases |Queue(WaitQueue(w))|
      {
        FrontOfWaitQueue(Now(), w);
        DequeueMoves(Now(), w);
        var t := Queue(WaitQueue(w))[0];
        var th := threads[t];
        FlagsKept(th, Ready);
        MovedKeepsPlaced(Now(), SETTLED, t, th.(status := Ready));
        ReleaseIsMove(Now(), w);
        Dequeue(WaitQueue(w), t);
        threads := threads[t := th.(status := Ready)];
        Enqueue(RunQueueOf(th), t);
      }
    }
  }

  lemma SleepersKnown(s: State, mid: Mid)
    requires Placed(s, mid)
    ensures s.current in s.threads && forall t :: t in Q(s, SleepQueue) ==> t in s.threads
  {
    assert QueueExact(s, mid, SleepQueue);
  }

  lemma WakeIsMove(s: State, m: Tid)
    requires m in s.threads && s.threads[m].status == Sleeping
    ensures var th := s.threads[m];
            Moved(s, m, th.(status := Ready))
            == Push(Pull(s, Some(SleepQueue), m).(threads := s.threads[m := th.(status := Ready)]),
                    Some(RunQueueOf(th)), m)
  {
  }

  lemma ReleaseIsMove(s: State, w: nat)
    requires Q(s, WaitQueue(w)) != []
    requires var t := Q(s, WaitQueue(w))[0]; t in s.threads && Home(s.threads[t]) == Some(WaitQueue(w))
    ensures var t := Q(s, WaitQueue(w))[0];
            var th := s.threads[t];
            Moved(s, t, th.(status := Ready))
            == Push(Pull(s, Some(WaitQueue(w)), t).(threads := s.threads[t := th.(status := Ready)]),
                    Some(RunQueueOf(th)), t)
  {
  }

  /** A thread that the policies deliver is ready and is not the current one. */
  lemma NextIsOther(s: State, ahead: Option<QueueId>, status: Status)
    requires Placed(s, Mid(ahead, None)) && Leaves(s, ahead, status)
    ensures var (s', next) := Scheduler.Schedule(s, 0);
            && s'.threads == s.threads && s'.current == s.current
            && (next.Some? ==>
                  next.value in s.threads && next.value != s.current && s.threads[next.value].status == Ready)
  {
    hide QueuesExact, RunQueueOf, Q, Popped, Scheduler.Schedule, AllFalse, FlagsOk;
    ScheduleIs(s);
    if Q(s, RunQueue(3, 0)) != [] || Q(s, RunQueue(4, 0)) != [] {
      var id := if Q(s, RunQueue(3, 0)) != [] then RunQueue(3, 0) else RunQueue(4, 0);
      NotAhead(s, ahead, status, id);
      PopKeepsPlaced(s, ahead, id);
      PopFrame(s, id);
      RunQueueHoldsReady(s.threads[Q(s, id)[0]], id);
    }
  }
}
