/**
 The order of the scheduler's queues over every step and every run: threads that stay keep their
 order, threads that arrive stand last, and so a ready round-robin thread runs after a bounded number
 of choices.
 */
module SchedulerOrder {
  import opened Basics
  import BitmapQueue
  import opened Scheduler
  import opened SchedulerPass

  // ---------------------------------------------------------------------------------------------
  // Queues that keep their order
  // ---------------------------------------------------------------------------------------------

  ghost predicate Before(q: seq<Tid>, a: Tid, b: Tid) { exists i, j :: 0 <= i < j < |q| && q[i] == a && q[j] == b }

  /** Threads that stay keep their order, and a thread that arrives stands after all that were there. */
  ghost predicate KeepsOrder(q: seq<Tid>, q': seq<Tid>) {
    forall a, b :: a in q && a in q' && b in q' && (Before(q, a, b) || b !in q) ==> Before(q', a, b)
  }

  lemma SameKeepsOrder(q: seq<Tid>)
    ensures KeepsOrder(q, q)
  {
  }

  lemma TailKeepsOrder(q: seq<Tid>)
    requires q != [] && NoDuplicates(q)
    ensures KeepsOrder(q, q[1..])
  {
    TailExact(q);
    forall a, b | a in q && a in q[1..] && b in q[1..] && Before(q, a, b) ensures Before(q[1..], a, b) {
      var i, j :| 0 <= i < j < |q| && q[i] == a && q[j] == b;
      assert q[1..][i - 1] == a && q[1..][j - 1] == b;
    }
  }

  lemma AppendKeepsOrder(q: seq<Tid>, t: Tid)
    requires t !in q
    ensures KeepsOrder(q, q + [t])
  {
    forall a, b | a in q && b in q + [t] && (Before(q, a, b) || b !in q) ensures Before(q + [t], a, b) {
      if Before(q, a, b) {
        var i, j :| 0 <= i < j < |q| && q[i] == a && q[j] == b;
        assert (q + [t])[i] == a && (q + [t])[j] == b;
      } else {
        var i :| 0 <= i < |q| && q[i] == a;
        assert (q + [t])[i] == a && (q + [t])[|q|] == b;
      }
    }
  }

  lemma BeforeBehind(x: Tid, q: seq<Tid>, a: Tid, b: Tid)
    requires Before(q, a, b) || (a == x && b in q)
    ensures Before([x] + q, a, b)
  {
    var r := [x] + q;
    if Before(q, a, b) {
      var i, j :| 0 <= i < j < |q| && q[i] == a && q[j] == b;
      assert r[i + 1] == a && r[j + 1] == b;
    } else {
      var j :| 0 <= j < |q| && q[j] == b;
      assert r[0] == a && r[j + 1] == b;
    }
  }

  lemma {:induction false} DropKeepsBefore(q: seq<Tid>, t: Tid, i: nat, j: nat)
    requires NoDuplicates(q) && i < j < |q| && q[i] != t && q[j] != t
    ensures Before(Drop(q, t), q[i], q[j])
  {
    hide Before;
    TailExact(q);
    if q[0] == t {
      BeforeAt(q[1..], i - 1, j - 1);
    } else {
      if i > 0 { DropKeepsBefore(q[1..], t, i - 1, j - 1); }
      DropExact(q[1..], t);
      assert q[j] == q[1..][j - 1];
      BeforeBehind(q[0], Drop(q[1..], t), q[i], q[j]);
    }
  }

  lemma BeforeAt(q: seq<Tid>, i: nat, j: nat)
    requires i < j < |q|
    ensures Before(q, q[i], q[j])
  {
  }

  lemma DropKeepsOrder(q: seq<Tid>, t: Tid)
    requires NoDuplicates(q)
    ensures KeepsOrder(q, Drop(q, t))
  {
    hide Drop;
    DropExact(q, t);
    var r := Drop(q, t);
    forall a, b | a in q && a in r && b in r && (Before(q, a, b) || b !in q) ensures Before(r, a, b) {
      var i, j :| 0 <= i < j < |q| && q[i] == a && q[j] == b;
      DropKeepsBefore(q, t, i, j);
    }
  }

  lemma OrderTransitive(q: seq<Tid>, q1: seq<Tid>, q2: seq<Tid>)
    requires KeepsOrder(q, q1) && KeepsOrder(q1, q2) && forall t :: t in q && t in q2 ==> t in q1
    ensures KeepsOrder(q, q2)
  {
    hide Before;
  }

  // ---------------------------------------------------------------------------------------------
  // The pieces of a step
  // ---------------------------------------------------------------------------------------------

  ghost predicate OrderKept(s: State, s': State) { forall id :: KeepsOrder(Q(s, id), Q(s', id)) }

  lemma NothingKeepsOrder(s: State)
    ensures OrderKept(s, s)
  {
    forall id ensures KeepsOrder(Q(s, id), Q(s, id)) { SameKeepsOrder(Q(s, id)); }
  }

  lemma PushKeepsOrder(s: State, id: Option<QueueId>, t: Tid)
    requires id.Some? ==> t !in Q(s, id.value)
    ensures OrderKept(s, Push(s, id, t))
  {
    hide KeepsOrder;
    forall x ensures KeepsOrder(Q(s, x), Q(Push(s, id, t), x)) {
      if id == Some(x) { AppendKeepsOrder(Q(s, x), t); } else { SameKeepsOrder(Q(s, x)); }
    }
  }

  lemma PopKeepsOrder(s: State, id: QueueId)
    requires Q(s, id) != [] && NoDuplicates(Q(s, id))
    ensures OrderKept(s, Popped(s, id))
  {
    hide KeepsOrder, NoDuplicates;
    forall x ensures KeepsOrder(Q(s, x), Q(Popped(s, id), x)) {
      if id == x { TailKeepsOrder(Q(s, x)); } else { SameKeepsOrder(Q(s, x)); }
    }
  }

  lemma MovedQueueIs(s: State, t: Tid, th: Thread, x: QueueId)
    requires Home(Th(s, t)) != Home(th)
    ensures Q(Moved(s, t, th), x) ==
            if Home(Th(s, t)) == Some(x) then Drop(Q(s, x), t)
            else if Home(th) == Some(x) then Q(s, x) + [t]
            else Q(s, x)
  {
    hide Home;
  }

  /** Moving a thread from one queue to another. */
  lemma MovedKeepsOrder(s: State, mid: Mid, t: Tid, th: Thread)
    requires QueuesExact(s, mid) && Home(Th(s, t)) != Home(th) && t != s.current && mid.limbo != Some(t)
    ensures OrderKept(s, Moved(s, t, th))
  {
    hide KeepsOrder, NoDuplicates, Home, Moved, Drop;
    forall x ensures KeepsOrder(Q(s, x), Q(Moved(s, t, th), x)) {
      MovedQueueIs(s, t, th, x);
      assert QueueExact(s, mid, x);
      if Home(Th(s, t)) == Some(x) { DropKeepsOrder(Q(s, x), t); }
      else if Home(th) == Some(x) { AppendKeepsOrder(Q(s, x), t); }
      else { SameKeepsOrder(Q(s, x)); }
    }
  }

  // ---------------------------------------------------------------------------------------------
  // Waking, choosing, switching
  // ---------------------------------------------------------------------------------------------

  /** The sleep queue only loses threads. */
  ghost predicate SleepersLeave(s: State, s': State) { forall t :: t in Q(s', SleepQueue) ==> t in Q(s, SleepQueue) }

  lemma MovedSleepersLeave(s: State, m: Tid)
    requires NoDuplicates(Q(s, SleepQueue)) && m in s.threads && s.threads[m].status == Sleeping
    ensures SleepersLeave(s, Moved(s, m, s.threads[m].(status := Ready)))
  {
    hide NoDuplicates, Drop;
    DropExact(Q(s, SleepQueue), m);
  }

  lemma WakeOrderTransitive(s: State, s1: State, s2: State)
    requires OrderKept(s, s1) && OrderKept(s1, s2) && OnlyWakes(s, s1) && SleepersLeave(s1, s2)
    ensures OrderKept(s, s2)
  {
    hide KeepsOrder, Q;
    forall id ensures KeepsOrder(Q(s, id), Q(s2, id)) {
      assert KeepsOrder(Q(s, id), Q(s1, id)) && KeepsOrder(Q(s1, id), Q(s2, id));
      forall t | t in Q(s, id) && t in Q(s2, id) ensures t in Q(s1, id) {
        match id
        case RunQueue(p, l) => assert t in Q(s1, RunQueue(p, l));
        case SleepQueue =>
        case WaitQueue(w) => assert Q(s1, WaitQueue(w)) == Q(s, WaitQueue(w));
      }
      OrderTransitive(Q(s, id), Q(s1, id), Q(s2, id));
    }
  }

  lemma {:induction false} WakeKeepsOrder(s: State, mid: Mid, clock: nat -> nat, i: nat)
    requires Placed(s, mid) && WakeUpTasks(s, clock, i).Woken?
    ensures OrderKept(s, WakeUpTasks(s, clock, i).s) && SleepersLeave(s, WakeUpTasks(s, clock, i).s)
    decreases |Q(s, SleepQueue)|
  {
    hide QueueExact, Due, Moved, IsFirstHigherPriority, FlagsOk, MinOf, OnlyWakes, OrderKept, Home, BitsClear;
    hide OneRunning;
    NothingKeepsOrder(s);
    if Q(s, SleepQueue) != [] {
      var m := MinOf(s, Q(s, SleepQueue));
      MinSleeper(s, mid);
      if Due(s.threads[m].key, clock(i)) {
        var s1 := Moved(s, m, s.threads[m].(status := Ready));
        WakeUpMoves(s, mid, m);
        WakeKeepsOrder(s1, mid, clock, i + 1);
        WokenHome(s.threads[m]);
        MovedKeepsOrder(s, mid, m, s.threads[m].(status := Ready));
        MovedOnlyWakes(s, m);
        SleepQueueOnce(s, mid);
        MovedSleepersLeave(s, m);
        WakeOrderTransitive(s, s1, WakeUpTasks(s1, clock, i + 1).s);
      }
    }
  }

  lemma WokenHome(th: Thread)
    ensures Home(th) != Home(th.(status := Ready)) || th.status == Ready
  {
  }

  lemma SleepQueueOnce(s: State, mid: Mid)
    requires QueuesExact(s, mid)
    ensures NoDuplicates(Q(s, SleepQueue))
  {
    assert QueueExact(s, mid, SleepQueue);
  }

  /** The run queue the running thread goes back to, when it stays ready. */
  ghost function Back(s: State, status: Status): Option<QueueId> {
    if status == Ready then Some(RunQueueOf(Th(s, s.current))) else None
  }

  lemma SwitchedQueueIs(s: State, next: Tid, status: Status, x: QueueId)
    ensures Q(Switched(s, next, status), x) == Q(s, x) + if Back(s, status) == Some(x) then [s.current] else []
  {
  }

  lemma SwitchKeepsOrder(s: State, mid: Mid, next: Tid, status: Status)
    requires QueuesExact(s, mid) && Leaves(s, mid.ahead, status)
    ensures OrderKept(s, Switched(s, next, status))
  {
    hide KeepsOrder, NoDuplicates, Switched, RunQueueOf;
    forall x ensures KeepsOrder(Q(s, x), Q(Switched(s, next, status), x)) {
      SwitchedQueueIs(s, next, status, x);
      assert QueueExact(s, mid, x);
      if Back(s, status) == Some(x) {
        AppendKeepsOrder(Q(s, x), s.current);
      } else {
        assert Q(s, x) + [] == Q(s, x);
        SameKeepsOrder(Q(s, x));
      }
    }
  }

  /** Taking the first thread of a run queue and putting the running one behind the others. */
  lemma TakeKeepsOrder(s: State, ahead: Option<QueueId>, id: QueueId, status: Status)
    requires Placed(s, Mid(ahead, None)) && Leaves(s, ahead, status) && Q(s, id) != [] && ahead != Some(id)
    ensures OrderKept(s, Switched(Popped(s, id), Q(s, id)[0], status))
  {
    hide KeepsOrder, NoDuplicates, Switched, Popped, RunQueueOf, BitmapQueue.AllFalse, FlagsOk, OneRunning;
    var s1, next := Popped(s, id), Q(s, id)[0];
    var s2 := Switched(s1, next, status);
    assert QueueExact(s, Mid(ahead, None), id);
    PopKeepsOrder(s, id);
    PopKeepsPlaced(s, ahead, id);
    PopFrame(s, id);
    SwitchKeepsOrder(s1, Mid(ahead, Some(next)), next, status);
    forall x ensures KeepsOrder(Q(s, x), Q(s2, x)) {
      SwitchedQueueIs(s1, next, status, x);
      assert QueueExact(s, Mid(ahead, None), x);
      assert KeepsOrder(Q(s, x), Q(s1, x)) && KeepsOrder(Q(s1, x), Q(s2, x));
      OrderTransitive(Q(s, x), Q(s1, x), Q(s2, x));
    }
  }

  lemma RescheduleKeepsOrder(s: State, ahead: Option<QueueId>, status: Status, sleepTime: nat)
    requires Placed(s, Mid(ahead, None)) && Leaves(s, ahead, status) && Reschedule(s, status, sleepTime).Done?
    ensures OrderKept(s, Reschedule(s, status, sleepTime).s)
    ensures Q(Reschedule(s, status, sleepTime).s, SleepQueue) == Q(s, SleepQueue)
  {
    hide QueuesExact, RunQueueOf, Q, Popped, Schedule, BitmapQueue.AllFalse, FlagsOk, OrderKept, Leaves, Switched;
    ScheduleIs(s);
    NothingKeepsOrder(s);
    if Q(s, RunQueue(3, 0)) != [] || Q(s, RunQueue(4, 0)) != [] {
      var id := if Q(s, RunQueue(3, 0)) != [] then RunQueue(3, 0) else RunQueue(4, 0);
      NotAhead(s, ahead, status, id);
      TakeKeepsOrder(s, ahead, id, status);
      TakeKeepsSleepers(s, id, Q(s, id)[0], status);
    }
  }

  lemma TakeKeepsSleepers(s: State, id: QueueId, next: Tid, status: Status)
    requires id.RunQueue?
    ensures Q(Switched(Popped(s, id), next, status), SleepQueue) == Q(s, SleepQueue)
    ensures Q(Switched(s, next, status), SleepQueue) == Q(s, SleepQueue)
  {
  }

  /** A scheduling pass. */
  lemma PassKeepsOrder(s: State, mid: Mid, preempt: bool, status: Status, clock: nat -> nat, i: nat, cpuTime: nat)
    requires Placed(s, mid) && Leaves(s, mid.ahead, status)
    requires Pass(s, preempt, status, mid.limbo, clock, i, cpuTime).Done?
    ensures OrderKept(s, Pass(s, preempt, status, mid.limbo, clock, i, cpuTime).s)
  {
    hide QueuesExact, OnlyWakes, WakeUpTasks, Leaves, Reschedule, Switched, RunQueueOf, NoneDue, WokenWhenDue, Q;
    hide SleepTime, OrderKept, SleepersLeave, BitmapQueue.AllFalse, FlagsOk, PreemptTime;
    WakeUpExact(s, mid, clock, i);
    WakeKeepsOrder(s, mid, clock, i);
    var woken := WakeUpTasks(s, clock, i);
    var w := woken.s;
    var d := SleepTime(w, clock(woken.looks));
    LeavesAfterWake(s, w, mid.ahead, status);
    NothingKeepsOrder(w);
    if mid.limbo.Some? {
      SwitchKeepsOrder(w, mid, mid.limbo.value, status);
      TakeKeepsSleepers(w, RunQueue(3, 0), mid.limbo.value, status);
    } else if preempt || woken.preempt || ShouldPreempt(PreemptTime(Th(w, w.current), cpuTime)) {
      RescheduleKeepsOrder(w, mid.ahead, status, d);
    }
    SameSleepersLeave(w, Pass(s, preempt, status, mid.limbo, clock, i, cpuTime).s);
    WakeOrderTransitive(s, w, Pass(s, preempt, status, mid.limbo, clock, i, cpuTime).s);
  }

  lemma SameSleepersLeave(s: State, s': State)
    requires Q(s', SleepQueue) == Q(s, SleepQueue)
    ensures SleepersLeave(s, s')
  {
  }

  // ---------------------------------------------------------------------------------------------
  // Every step
  // ---------------------------------------------------------------------------------------------

  /** Composing with a first part that only adds to queues. */
  lemma GrownOrderTransitive(s: State, s1: State, s2: State)
    requires OrderKept(s, s1) && OrderKept(s1, s2) && forall id, t :: t in Q(s, id) ==> t in Q(s1, id)
    ensures OrderKept(s, s2)
  {
    hide KeepsOrder, Q;
    forall id ensures KeepsOrder(Q(s, id), Q(s2, id)) {
      assert KeepsOrder(Q(s, id), Q(s1, id)) && KeepsOrder(Q(s1, id), Q(s2, id));
      OrderTransitive(Q(s, id), Q(s1, id), Q(s2, id));
    }
  }

  /** Putting the running thread into a queue before it stops. */
  lemma EnqueuedKeepsOrder(s: State, th: Thread, id: QueueId)
    requires Inv(s)
    ensures var s1 := Enqueued(s, th, id); OrderKept(s, s1) && forall x, t :: t in Q(s, x) ==> t in Q(s1, x)
  {
    hide KeepsOrder, NoDuplicates, BitmapQueue.AllFalse, FlagsOk;
    assert QueueExact(s, SETTLED, id);
    PushKeepsOrder(s, Some(id), s.current);
    var s1, s2 := Push(s, Some(id), s.current), Enqueued(s, th, id);
    forall x ensures KeepsOrder(Q(s, x), Q(s2, x)) {
      assert KeepsOrder(Q(s, x), Q(s1, x)) && Q(s2, x) == Q(s1, x);
    }
  }

  lemma SwitchKeepsWaitQueue(s: State, id: QueueId, next: Tid, status: Status, w: nat)
    requires id.RunQueue?
    ensures Q(Switched(Popped(s, id), next, status), WaitQueue(w)) == Q(s, WaitQueue(w))
    ensures Q(Switched(s, next, status), WaitQueue(w)) == Q(s, WaitQueue(w))
  {
  }

  /** No pass touches a wait queue. */
  lemma PassKeepsWaitQueue(s: State, mid: Mid, preempt: bool, status: Status, clock: nat -> nat, i: nat,
                           cpuTime: nat, w: nat)
    requires Placed(s, mid) && Leaves(s, mid.ahead, status)
    requires Pass(s, preempt, status, mid.limbo, clock, i, cpuTime).Done?
    ensures Q(Pass(s, preempt, status, mid.limbo, clock, i, cpuTime).s, WaitQueue(w)) == Q(s, WaitQueue(w))
  {
    hide QueuesExact, WakeUpTasks, Leaves, Switched, RunQueueOf, NoneDue, WokenWhenDue, Q, Schedule, Popped;
    hide SleepTime, BitmapQueue.AllFalse, FlagsOk, PreemptTime;
    WakeUpExact(s, mid, clock, i);
    var s1 := WakeUpTasks(s, clock, i).s;
    assert Q(s1, WaitQueue(w)) == Q(s, WaitQueue(w));
    ScheduleIs(s1);
    if mid.limbo.Some? {
      SwitchKeepsWaitQueue(s1, RunQueue(3, 0), mid.limbo.value, status, w);
    } else if Q(s1, RunQueue(3, 0)) != [] {
      SwitchKeepsWaitQueue(s1, RunQueue(3, 0), Q(s1, RunQueue(3, 0))[0], status, w);
    } else if Q(s1, RunQueue(4, 0)) != [] {
      SwitchKeepsWaitQueue(s1, RunQueue(4, 0), Q(s1, RunQueue(4, 0))[0], status, w);
    }
  }

  lemma {:induction false} ReleaseAllKeepsOrder(s: State, w: nat)
    requires Inv(s)
    ensures OrderKept(s, ReleaseAll(s, w))
    decreases |Q(s, WaitQueue(w))|
  {
    hide Placed, RunQueueOf, FlagsOk, OrderKept, KeepsOrder;
    NothingKeepsOrder(s);
    var q := Q(s, WaitQueue(w));
    if q != [] {
      FrontOfWaitQueue(s, w);
      var th := s.threads[q[0]].(status := Ready);
      FlagsKept(s.threads[q[0]], Ready);
      MovedKeepsPlaced(s, SETTLED, q[0], th);
      DequeueMoves(s, w);
      var s1 := Moved(s, q[0], th);
      ReleaseAllKeepsOrder(s1, w);
      ReleaseAllKeepsInv(s1, w);
      SettledQueues(s);
      MovedKeepsOrder(s, SETTLED, q[0], th);
      ReleaseOrderTransitive(s, s1, ReleaseAll(s1, w), q[0], th, w);
    }
  }

  lemma SettledQueues(s: State)
    requires Inv(s)
    ensures QueuesExact(s, SETTLED)
  {
  }

  lemma ReleaseOrderTransitive(s: State, s1: State, s2: State, t: Tid, th: Thread, w: nat)
    requires OrderKept(s, s1) && OrderKept(s1, s2) && Q(s2, WaitQueue(w)) == [] && s1 == Moved(s, t, th)
    requires Home(Th(s, t)) == Some(WaitQueue(w)) != Home(th)
    ensures OrderKept(s, s2)
  {
    hide KeepsOrder, Q, Moved, Home;
    forall id ensures KeepsOrder(Q(s, id), Q(s2, id)) {
      assert KeepsOrder(Q(s, id), Q(s1, id)) && KeepsOrder(Q(s1, id), Q(s2, id));
      MovedQueueIs(s, t, th, id);
      OrderTransitive(Q(s, id), Q(s1, id), Q(s2, id));
    }
  }

  lemma ReleaseStepKeepsOrder(s: State, w: nat, clock: nat -> nat, cpuTime: nat)
    requires Inv(s) && ReleaseAndProcess(s, w, clock, cpuTime).Done?
    ensures OrderKept(s, ReleaseAndProcess(s, w, clock, cpuTime).s)
  {
    hide Placed, Pass, Popped, Q, OrderKept, KeepsOrder;
    NothingKeepsOrder(s);
    var q := Q(s, WaitQueue(w));
    if q != [] {
      var s1 := Popped(s, WaitQueue(w));
      PopKeepsPlaced(s, None, WaitQueue(w));
      PopFrame(s, WaitQueue(w));
      SettledQueues(s);
      assert QueueExact(s, SETTLED, WaitQueue(w));
      PopKeepsOrder(s, WaitQueue(w));
      PassKeepsOrder(s1, Mid(None, Some(q[0])), false, Ready, clock, 0, cpuTime);
      PassKeepsWaitQueue(s1, Mid(None, Some(q[0])), false, Ready, clock, 0, cpuTime, w);
      PoppedOrderTransitive(s, WaitQueue(w), Pass(s1, false, Ready, Some(q[0]), clock, 0, cpuTime).s);
    }
  }

  lemma PoppedOrderTransitive(s: State, x: QueueId, s2: State)
    requires OrderKept(s, Popped(s, x)) && OrderKept(Popped(s, x), s2) && Q(s2, x) == Q(Popped(s, x), x)
    ensures OrderKept(s, s2)
  {
    hide KeepsOrder;
    var s1 := Popped(s, x);
    forall id ensures KeepsOrder(Q(s, id), Q(s2, id)) {
      assert KeepsOrder(Q(s, id), Q(s1, id)) && KeepsOrder(Q(s1, id), Q(s2, id));
      OrderTransitive(Q(s, id), Q(s1, id), Q(s2, id));
    }
  }

  /**
   Over every step and in every queue: two threads that stay keep their order, and a thread that
   arrives stands after all that were there.
   */
  lemma StepKeepsOrder(s: State, e: Step)
    requires Inv(s) && Enabled(s, e) && Apply(s, e).Done?
    ensures OrderKept(s, Apply(s, e).s)
  {
    hide Placed, Pass, Moved, Enqueued, RunQueueOf, Q, ReleaseAll, Popped, OrderKept, ReleaseAndProcess;
    SettledFacts(s);
    SettledQueues(s);
    NothingKeepsOrder(s);
    var cur := s.threads[s.current];
    match e.op
    case Spawn(t, policy, priority) => MovedKeepsOrder(s, SETTLED, t, Thread(Ready, policy, priority, 0, 0));
    case Block(w) => EnqueuedPassKeepsOrder(s, cur.(wq := w), WaitQueue(w), Blocked, e.clock, 0, e.cpuTime);
    case Sleep(until) =>
      if !(until < e.clock(0) || until - e.clock(0) < MIN_DELTA) {
        EnqueuedPassKeepsOrder(s, cur.(key := until), SleepQueue, Sleeping, e.clock, 1, e.cpuTime);
      }
    case Yield => PassKeepsOrder(s, SETTLED, true, Ready, e.clock, 0, e.cpuTime);
    case Timer => PassKeepsOrder(s, SETTLED, false, Ready, e.clock, 0, e.cpuTime);
    case Exit(status) => PassKeepsOrder(s, SETTLED, true, status, e.clock, 0, e.cpuTime);
    case Release(w) => ReleaseAllKeepsOrder(s, w);
    case ReleaseStep(w) => ReleaseStepKeepsOrder(s, w, e.clock, e.cpuTime);
    case Remove(t, status) => MovedKeepsOrder(s, SETTLED, t, s.threads[t].(status := status));
  }

  lemma EnqueuedPassKeepsOrder(s: State, th: Thread, id: QueueId, status: Status, clock: nat -> nat, i: nat,
                               cpuTime: nat)
    requires Inv(s) && th.status == Running && FlagsOk(th) && Home(th.(status := status)) == Some(id)
    requires status != Ready && Pass(Enqueued(s, th, id), true, status, None, clock, i, cpuTime).Done?
    ensures OrderKept(s, Pass(Enqueued(s, th, id), true, status, None, clock, i, cpuTime).s)
  {
    hide Placed, Pass, Enqueued, RunQueueOf, Q, OrderKept, FlagsOk;
    EnqueuedKeepsPlaced(s, th, id);
    EnqueuedFrame(s, th, id);
    EnqueuedKeepsOrder(s, th, id);
    PassKeepsOrder(Enqueued(s, th, id), Mid(Some(id), None), true, status, clock, i, cpuTime);
    GrownOrderTransitive(s, Enqueued(s, th, id), Pass(Enqueued(s, th, id), true, status, None, clock, i, cpuTime).s);
  }

  // ---------------------------------------------------------------------------------------------
  // Wait queues are first in, first out
  // ---------------------------------------------------------------------------------------------

  /** The threads of a list that belong to one run queue, in the order of the list. */
  ghost function Bound(s: State, q: seq<Tid>, id: QueueId): seq<Tid> {
    if q == [] then [] else (if RunQueueOf(Th(s, q[0])) == id then [q[0]] else []) + Bound(s, q[1..], id)
  }

  lemma {:induction false} BoundSame(s: State, s': State, q: seq<Tid>, id: QueueId)
    requires forall t :: t in q ==> Th(s, t) == Th(s', t)
    ensures Bound(s, q, id) == Bound(s', q, id)
  {
    if q != [] { BoundSame(s, s', q[1..], id); }
  }

  /** The first thread of a wait queue goes to the end of its run queue. */
  lemma FirstReleased(s: State, w: nat, id: QueueId)
    requires Inv(s) && id != WaitQueue(w) && Q(s, WaitQueue(w)) != []
    ensures var q := Q(s, WaitQueue(w));
            var s1 := Moved(s, q[0], Th(s, q[0]).(status := Ready));
            && Inv(s1) && Q(s1, WaitQueue(w)) == q[1..]
            && Q(s1, id) == Q(s, id) + (if RunQueueOf(Th(s, q[0])) == id then [q[0]] else [])
            && forall t :: t in q[1..] ==> Th(s1, t) == Th(s, t)
  {
    hide Placed, RunQueueOf, FlagsOk, Moved, NoDuplicates;
    var q := Q(s, WaitQueue(w));
    FrontOfWaitQueue(s, w);
    var th := s.threads[q[0]].(status := Ready);
    FlagsKept(s.threads[q[0]], Ready);
    MovedKeepsPlaced(s, SETTLED, q[0], th);
    DequeueMoves(s, w);
    WokenHome(s.threads[q[0]]);
    SameRunQueue(s.threads[q[0]]);
    MovedQueueIs(s, q[0], th, id);
    SettledQueues(s);
    assert QueueExact(s, SETTLED, WaitQueue(w));
    TailExact(q);
  }

  lemma ReleaseAllUnfolds(s: State, w: nat)
    requires Q(s, WaitQueue(w)) != []
    ensures var q := Q(s, WaitQueue(w));
            var s1 := Moved(s, q[0], Th(s, q[0]).(status := Ready));
            |Q(s1, WaitQueue(w))| < |q| ==> ReleaseAll(s, w) == ReleaseAll(s1, w)
  {
  }

  /** A release empties the wait queue and appends its threads, in their order, to their run queues. */
  lemma {:induction false} ReleaseInOrder(s: State, w: nat, id: QueueId)
    requires Inv(s) && id != WaitQueue(w)
    ensures Q(ReleaseAll(s, w), id) == Q(s, id) + Bound(s, Q(s, WaitQueue(w)), id)
    ensures Q(ReleaseAll(s, w), WaitQueue(w)) == []
    decreases |Q(s, WaitQueue(w))|
  {
    hide Inv, RunQueueOf, Moved, Th, Q;
    var q := Q(s, WaitQueue(w));
    if q != [] {
      var s1 := Moved(s, q[0], Th(s, q[0]).(status := Ready));
      FirstReleased(s, w, id);
      ReleaseAllUnfolds(s, w);
      ReleaseInOrder(s1, w, id);
      BoundSame(s, s1, q[1..], id);
    }
  }

  lemma SameRunQueue(th: Thread)
    ensures Home(th.(status := Ready)) == Some(RunQueueOf(th))
  {
  }

  /** A thread that blocks stands last in its wait queue. */
  lemma BlockedGoesLast(s: State, e: Step)
    requires Inv(s) && e.op.Block? && Apply(s, e).Done?
    ensures Q(Apply(s, e).s, WaitQueue(e.op.w)) == Q(s, WaitQueue(e.op.w)) + [s.current]
  {
    hide Placed, Pass, RunQueueOf, Q, Enqueued;
    SettledFacts(s);
    var id, th := WaitQueue(e.op.w), s.threads[s.current].(wq := e.op.w);
    FlagsSame(s.threads[s.current], e.op.w);
    EnqueuedKeepsPlaced(s, th, id);
    EnqueuedFrame(s, th, id);
    PassKeepsWaitQueue(Enqueued(s, th, id), Mid(Some(id), None), true, Blocked, e.clock, 0, e.cpuTime, e.op.w);
    EnqueuedQueueIs(s, th, id);
  }

  lemma FlagsSame(th: Thread, w: nat)
    requires FlagsOk(th)
    ensures FlagsOk(th.(wq := w))
  {
  }

  lemma EnqueuedQueueIs(s: State, th: Thread, id: QueueId)
    ensures Q(Enqueued(s, th, id), id) == Q(s, id) + [s.current]
    ensures forall x :: x != id ==> Q(Enqueued(s, th, id), x) == Q(s, x)
  {
  }

  /** One turn of the processing release runs the first thread of the wait queue and takes it out. */
  lemma ReleaseStepTakesFirst(s: State, e: Step)
    requires Inv(s) && e.op.ReleaseStep? && Apply(s, e).Done? && Q(s, WaitQueue(e.op.w)) != []
    ensures var q, s' := Q(s, WaitQueue(e.op.w)), Apply(s, e).s;
            s'.current == q[0] && Q(s', WaitQueue(e.op.w)) == q[1..]
  {
    hide Placed, Pass, RunQueueOf, IsTimeToFirst, WakeUpTasks;
    var id := WaitQueue(e.op.w);
    var q, s1 := Q(s, id), Popped(s, id);
    PopKeepsPlaced(s, None, id);
    PopFrame(s, id);
    PassKeepsWaitQueue(s1, Mid(None, Some(q[0])), false, Ready, e.clock, 0, e.cpuTime, e.op.w);
    PassTimerIs(s1, Mid(None, Some(q[0])), false, Ready, e.clock, 0, e.cpuTime);
  }

  // ---------------------------------------------------------------------------------------------
  // No round-robin thread starves
  // ---------------------------------------------------------------------------------------------

  /** The threads that stand before one of a queue. */
  ghost function Ahead(q: seq<Tid>, t: Tid): set<Tid> { set b | b in q && Before(q, b, t) }

  lemma AheadShrinks(q: seq<Tid>, q': seq<Tid>, t: Tid)
    requires NoDuplicates(q) && NoDuplicates(q') && KeepsOrder(q, q') && t in q && t in q'
    ensures Ahead(q', t) <= Ahead(q, t)
  {
    forall b | b in Ahead(q', t) ensures b in Ahead(q, t) {
      assert !Before(q', t, b);
      assert b in q && !Before(q, t, b);
      OneIsFirst(q, t, b);
    }
  }

  lemma OneIsFirst(q: seq<Tid>, t: Tid, b: Tid)
    requires t in q && b in q && t != b
    ensures Before(q, t, b) || Before(q, b, t)
  {
    var i :| 0 <= i < |q| && q[i] == t;
    var j :| 0 <= j < |q| && q[j] == b;
  }

  lemma FirstIsAhead(q: seq<Tid>, t: Tid)
    requires q != [] && t in q && t != q[0]
    ensures q[0] in Ahead(q, t)
  {
    var j :| 0 <= j < |q| && q[j] == t;
    assert q[0] == q[0] && q[j] == t;
  }

  lemma SmallerSet(a: set<Tid>, b: set<Tid>)
    requires a <= b
    ensures |a| <= |b| && (a < b ==> |a| < |b|)
  {
    assert b == a + (b - a);
    assert |b| == |a| + |b - a|;
    if |b - a| == 0 { assert b - a == {}; }
  }

  /** A step that makes the first thread of round-robin queue `p` run. */
  ghost predicate Serves(s: State, e: Step, p: nat) {
    Q(s, RunQueue(p, 0)) != [] && Apply(s, e).Done? && Apply(s, e).s.current == Q(s, RunQueue(p, 0))[0]
  }

  lemma QueuedReady(s: State, t: Tid, p: nat)
    requires Inv(s) && PQ_POLICIES <= p
    ensures t in Q(s, RunQueue(p, 0)) <==>
            t in s.threads && t != s.current && s.threads[t].status == Ready && s.threads[t].policy == p
    ensures NoDuplicates(Q(s, RunQueue(p, 0)))
  {
    hide NoDuplicates, BitmapQueue.AllFalse;
    assert QueueExact(s, SETTLED, RunQueue(p, 0));
  }

  lemma RunningIsCurrent(s: State, t: Tid)
    requires Inv(s) && t in s.threads && s.threads[t].status == Running
    ensures s.current == t
  {
    hide QueuesExact, BitmapQueue.AllFalse;
  }

  /** A ready round-robin thread that is not removed runs, or moves up whenever its queue is served. */
  lemma StepMovesUp(s: State, e: Step, t: Tid, p: nat)
    requires Inv(s) && Enabled(s, e) && Apply(s, e).Done? && !(e.op.Remove? && e.op.t == t)
    requires PQ_POLICIES <= p && t in Q(s, RunQueue(p, 0))
    ensures var s' := Apply(s, e).s;
            var q, q' := Q(s, RunQueue(p, 0)), Q(s', RunQueue(p, 0));
            s'.current == t
            || (t in q' && |Ahead(q', t)| <= |Ahead(q, t)| && (Serves(s, e, p) ==> |Ahead(q', t)| < |Ahead(q, t)|))
  {
    hide Inv, Enabled, Apply, Q, KeepsOrder, Ahead, NoDuplicates;
    var s' := Apply(s, e).s;
    var q, q' := Q(s, RunQueue(p, 0)), Q(s', RunQueue(p, 0));
    ApplyKeepsInv(s, e);
    QueuedReady(s, t, p);
    ApplyEffect(s, e, t);
    if s'.current != t {
      if s'.threads[t].status == Running { RunningIsCurrent(s', t); }
      QueuedReady(s', t, p);
      StepKeepsOrder(s, e);
      assert KeepsOrder(q, q');
      AheadShrinks(q, q', t);
      SmallerSet(Ahead(q', t), Ahead(q, t));
      if Serves(s, e, p) {
        FirstIsAhead(q, t);
        QueuedReady(s', q[0], p);
        NotAheadUnlessQueued(q', q[0], t);
      }
    }
  }

  lemma NotAheadUnlessQueued(q: seq<Tid>, a: Tid, t: Tid)
    requires a !in q
    ensures a !in Ahead(q, t)
  {
  }

  /** How often a run serves a round-robin queue. */
  ghost function Served(s: State, es: seq<Step>, p: nat): nat
    decreases |es|
  {
    if es == [] || Apply(s, es[0]).Panic? then 0
    else (if Serves(s, es[0], p) then 1 else 0) + Served(Apply(s, es[0]).s, es[1..], p)
  }

  /** The thread runs after some step of the run. */
  ghost predicate Runs(s: State, es: seq<Step>, t: Tid)
    decreases |es|
  {
    es != [] && Apply(s, es[0]).Done? && (Apply(s, es[0]).s.current == t || Runs(Apply(s, es[0]).s, es[1..], t))
  }

  /** With `k` threads before it, a thread runs at the latest when its queue is served for the `k + 1`-th time. */
  lemma {:induction false} ServedThreadRuns(s: State, es: seq<Step>, t: Tid, p: nat)
    requires Inv(s) && IsRun(s, es) && Run(s, es).Done? && NeverRemoved(es, t)
    requires PQ_POLICIES <= p && t in Q(s, RunQueue(p, 0))
    requires Served(s, es, p) > |Ahead(Q(s, RunQueue(p, 0)), t)|
    ensures Runs(s, es, t)
    decreases |es|
  {
    hide Inv, Enabled, Apply, Q, Ahead, Serves;
    var s' := Apply(s, es[0]).s;
    StepMovesUp(s, es[0], t, p);
    if s'.current != t {
      ApplyKeepsInv(s, es[0]);
      ServedThreadRuns(s', es[1..], t, p);
    }
  }

  /**
   A step that chooses who runs next: the running thread stops or yields, or at a timer it has less
   than 3 microseconds left or a woken thread calls for a choice.
   */
  ghost predicate Chooses(s: State, e: Step) {
    match e.op
    case Block(_) => true
    case Yield => true
    case Exit(_) => true
    case Sleep(until) => until >= e.clock(0) + 3_000
    case Timer =>
      || e.cpuTime + 3_000 > (if Th(s, s.current).policy < 3 then 5_000_000 else 20_000_000)
      || (WakeUpTasks(s, e.clock, 0).Woken? && exists u: Tid :: CallsForChoice(s, WakeUpTasks(s, e.clock, 0).s, u))
    case _ => false
  }

  lemma SwitchKeepsPolicies(s: State, id: QueueId, next: Tid, status: Status, t: Tid)
    requires next in s.threads && s.current in s.threads && t in s.threads
    ensures Th(Switched(Popped(s, id), next, status), t).policy == Th(s, t).policy
    ensures Th(Switched(s, next, status), t).policy == Th(s, t).policy
  {
  }

  /** A choice makes the first policy-3 thread run, and the first policy-4 thread unless one of policy 3 runs. */
  lemma PassServes(s: State, ahead: Option<QueueId>, preempt: bool, status: Status, clock: nat -> nat, i: nat,
                   cpuTime: nat, p: nat)
    requires Placed(s, Mid(ahead, None)) && Leaves(s, ahead, status) && 3 <= p <= 4 && Q(s, RunQueue(p, 0)) != []
    requires Pass(s, preempt, status, None, clock, i, cpuTime).Done? && WakeUpTasks(s, clock, i).Woken?
    requires preempt || WakeUpTasks(s, clock, i).preempt
             || cpuTime + 3_000 > if Th(s, s.current).policy < 3 then 5_000_000 else 20_000_000
    requires var s' := Pass(s, preempt, status, None, clock, i, cpuTime).s; p == 4 ==> Th(s', s'.current).policy != 3
    ensures Pass(s, preempt, status, None, clock, i, cpuTime).s.current == Q(s, RunQueue(p, 0))[0]
  {
    hide QueuesExact, OnlyWakes, WakeUpTasks, RunQueueOf, NoneDue, WokenWhenDue, Q, IsTimeToFirst, Pass, Leaves;
    hide BitmapQueue.AllFalse, FlagsOk;
    var mid := Mid(ahead, None);
    WakeUpExact(s, mid, clock, i);
    WokenGoLast(s, mid, clock, i);
    PassTimerIs(s, mid, preempt, status, clock, i, cpuTime);
    var w := WakeUpTasks(s, clock, i).s;
    OnlyWakesKeys(s, w);
    WakeSpares(s, w, s.current);
    assert Q(s, RunQueue(3, 0)) <= Q(w, RunQueue(3, 0)) && Q(s, RunQueue(4, 0)) <= Q(w, RunQueue(4, 0));
    if Q(w, RunQueue(3, 0)) != [] {
      LeavesAfterWake(s, w, ahead, status);
      ChosenPolicy(s, w, ahead, preempt, status, clock, i, cpuTime);
    }
  }

  lemma ChosenPolicy(s: State, w: State, ahead: Option<QueueId>, preempt: bool, status: Status, clock: nat -> nat,
                     i: nat, cpuTime: nat)
    requires Placed(w, Mid(ahead, None)) && Leaves(w, ahead, status) && Q(w, RunQueue(3, 0)) != []
    requires WakeUpTasks(s, clock, i).Woken? && WakeUpTasks(s, clock, i).s == w
    requires Pass(s, preempt, status, None, clock, i, cpuTime).Done?
    requires Pass(s, preempt, status, None, clock, i, cpuTime).s.current == Q(w, RunQueue(3, 0))[0]
    ensures Th(Pass(s, preempt, status, None, clock, i, cpuTime).s, Q(w, RunQueue(3, 0))[0]).policy == 3
  {
    hide QueuesExact, WakeUpTasks, RunQueueOf, Q, Leaves, BitmapQueue.AllFalse, FlagsOk, Switched, Popped, Schedule;
    hide PreemptTime, SleepTime;
    var id := RunQueue(3, 0);
    var t := Q(w, id)[0];
    NotAhead(w, ahead, status, id);
    PopKeepsPlaced(w, ahead, id);
    PopFrame(w, id);
    RunQueuePolicy(w.threads[t], id);
    SwitchKeepsPolicies(w, id, t, status, t);
    ScheduleIs(w);
  }

  /** A step that chooses serves queue 3 when it has a thread, and queue 4 unless a policy-3 thread runs. */
  lemma ChoiceServes(s: State, e: Step, p: nat)
    requires Inv(s) && Enabled(s, e) && Apply(s, e).Done? && Chooses(s, e)
    requires 3 <= p <= 4 && Q(s, RunQueue(p, 0)) != []
    requires var s' := Apply(s, e).s; p == 4 ==> Th(s', s'.current).policy != 3
    ensures Serves(s, e, p)
  {
    hide Placed, Pass, Enqueued, Q, WakeUpTasks, CallsForChoice;
    SettledFacts(s);
    var cur := s.threads[s.current];
    match e.op
    case Block(w) => EnqueuedPassServes(s, cur.(wq := w), WaitQueue(w), Blocked, e.clock, 0, e.cpuTime, p);
    case Sleep(until) => EnqueuedPassServes(s, cur.(key := until), SleepQueue, Sleeping, e.clock, 1, e.cpuTime, p);
    case Timer =>
      PassTimerIs(s, SETTLED, false, Ready, e.clock, 0, e.cpuTime);
      WakeAsksIff(s, SETTLED, e.clock, 0);
      PassServes(s, None, false, Ready, e.clock, 0, e.cpuTime, p);
    case Yield =>
      PassTimerIs(s, SETTLED, true, Ready, e.clock, 0, e.cpuTime);
      PassServes(s, None, true, Ready, e.clock, 0, e.cpuTime, p);
    case Exit(status) =>
      PassTimerIs(s, SETTLED, true, status, e.clock, 0, e.cpuTime);
      PassServes(s, None, true, status, e.clock, 0, e.cpuTime, p);
  }

  lemma EnqueuedPassServes(s: State, th: Thread, id: QueueId, status: Status, clock: nat -> nat, i: nat,
                           cpuTime: nat, p: nat)
    requires Inv(s) && th.status == Running && FlagsOk(th) && Home(th.(status := status)) == Some(id)
    requires status != Ready && status != Running && 3 <= p <= 4 && Q(s, RunQueue(p, 0)) != [] && !id.RunQueue?
    requires Pass(Enqueued(s, th, id), true, status, None, clock, i, cpuTime).Done?
    requires var s' := Pass(Enqueued(s, th, id), true, status, None, clock, i, cpuTime).s;
             p == 4 ==> Th(s', s'.current).policy != 3
    ensures Pass(Enqueued(s, th, id), true, status, None, clock, i, cpuTime).s.current == Q(s, RunQueue(p, 0))[0]
  {
    hide Placed, Pass, Enqueued, RunQueueOf, Q, FlagsOk, WakeUpTasks;
    EnqueuedKeepsPlaced(s, th, id);
    EnqueuedFrame(s, th, id);
    EnqueuedQueueIs(s, th, id);
    PassTimerIs(Enqueued(s, th, id), Mid(Some(id), None), true, status, clock, i, cpuTime);
    PassServes(Enqueued(s, th, id), Some(id), true, status, clock, i, cpuTime, p);
  }

  /** How many steps of a run choose; for policy 4 those count that leave no policy-3 thread running. */
  ghost function Choices(s: State, es: seq<Step>, p: nat): nat
    decreases |es|
  {
    if es == [] || Apply(s, es[0]).Panic? then 0
    else
      var s' := Apply(s, es[0]).s;
      (if Chooses(s, es[0]) && (p == 4 ==> Th(s', s'.current).policy != 3) then 1 else 0) + Choices(s', es[1..], p)
  }

  /** While a thread waits in a round-robin queue, every choice serves the queue. */
  lemma {:induction false} ChoicesServe(s: State, es: seq<Step>, t: Tid, p: nat)
    requires Inv(s) && IsRun(s, es) && Run(s, es).Done? && NeverRemoved(es, t)
    requires 3 <= p <= 4 && t in Q(s, RunQueue(p, 0)) && !Runs(s, es, t)
    ensures Choices(s, es, p) <= Served(s, es, p)
    decreases |es|
  {
    hide Inv, Enabled, Apply, Q, Ahead, Serves, Chooses;
    if es != [] {
      var s' := Apply(s, es[0]).s;
      StepMovesUp(s, es[0], t, p);
      ApplyKeepsInv(s, es[0]);
      if Chooses(s, es[0]) && (p == 4 ==> Th(s', s'.current).policy != 3) { ChoiceServes(s, es[0], p); }
      ChoicesServe(s', es[1..], t, p);
    }
  }

  /**
   No round-robin thread starves: over every run that does not remove it, a ready policy-3 thread with
   `k` threads before it runs after at most `k + 1` choices, and a ready policy-4 thread after at most
   `k + 1` choices that leave no policy-3 thread running.
   */
  lemma NoRoundRobinThreadStarves(s: State, es: seq<Step>, t: Tid, p: nat)
    requires Inv(s) && IsRun(s, es) && Run(s, es).Done? && NeverRemoved(es, t)
    requires 3 <= p <= 4 && t in s.threads && s.threads[t].status == Ready && s.threads[t].policy == p
    requires Choices(s, es, p) >= |Ahead(Q(s, RunQueue(p, 0)), t)| + 1
    ensures Runs(s, es, t)
  {
    hide Placed, Enabled, Apply, Q, Ahead, Run, IsRun, NeverRemoved;
    if s.current == t { SettledFacts(s); }
    QueuedReady(s, t, p);
    if !Runs(s, es, t) {
      ChoicesServe(s, es, t, p);
      ServedThreadRuns(s, es, t, p);
    }
  }
}
