/**
 The scheduler core (`Sched::Scheduler`): thread states, policy queues, sleep queue and wait queues.

 Each section under the core lock is one step; a context switch makes another thread current.  The
 clock and the CPU time of the current thread are inputs.  A failed assertion and the unimplemented
 `Idle` end the run with a panic.  All queues are sequences keyed by `QueueId`; the priority policies
 take their next thread through the bitmap of module `BitmapQueue`.
 */
module Scheduler {
  import opened Basics
  import opened Bits
  import opened BitmapQueue

  const MIN_DELTA: nat := 3_000
  const POLICIES: nat := 5
  const PQ_POLICIES: nat := 3
  const MAX_PRIORITY: nat := 64

  datatype Status = Ready | Running | Sleeping | Blocked | WaitingForJoin | Terminated

  datatype Thread = Thread(status: Status, policy: nat, priority: nat, key: nat, wq: nat)

  datatype QueueId = RunQueue(policy: nat, level: nat) | SleepQueue | WaitQueue(w: nat)

  datatype State = State(threads: map<Tid, Thread>, current: Tid, queues: map<QueueId, seq<Tid>>, bits: seq<seq<bool>>)

  function Th(s: State, t: Tid): Thread { if t in s.threads then s.threads[t] else Thread(Terminated, 0, 0, 0, 0) }

  function Q(s: State, id: QueueId): seq<Tid> { if id in s.queues then s.queues[id] else [] }

  // ---------------------------------------------------------------------------------------------
  // Where a thread belongs
  // ---------------------------------------------------------------------------------------------

  /** Priority policies have one list per priority, round robin has one list. */
  function RunQueueOf(th: Thread): QueueId { RunQueue(th.policy, if th.policy < PQ_POLICIES then th.priority else 0) }

  function Home(th: Thread): Option<QueueId> {
    match th.status
    case Ready => Some(RunQueueOf(th))
    case Sleeping => Some(SleepQueue)
    case Blocked => Some(WaitQueue(th.wq))
    case _ => None
  }

  /**
   What differs in the middle of an operation: the running thread may already have been queued where
   it will wait, and one thread may have been taken out of its queue in order to run.
   */
  datatype Mid = Mid(ahead: Option<QueueId>, limbo: Option<Tid>)

  const SETTLED: Mid := Mid(None, None)

  function HomeAt(s: State, mid: Mid, t: Tid): Option<QueueId> {
    if t == s.current then mid.ahead else if mid.limbo == Some(t) then None else Home(Th(s, t))
  }

  /** The queue holds exactly the threads that belong to it, each once. */
  ghost predicate QueueExact(s: State, mid: Mid, id: QueueId) {
    NoDuplicates(Q(s, id)) && forall t :: t in Q(s, id) <==> t in s.threads && HomeAt(s, mid, t) == Some(id)
  }

  ghost predicate QueuesExact(s: State, mid: Mid) { forall id :: QueueExact(s, mid, id) }

  /** What `AddReadyThread` asserts of a thread. */
  predicate FlagsOk(th: Thread) { th.policy < POLICIES && (th.policy < PQ_POLICIES ==> th.priority < MAX_PRIORITY) }

  ghost predicate OneRunning(s: State) {
    s.current in s.threads && forall t :: t in s.threads ==> (s.threads[t].status == Running <==> t == s.current)
  }

  ghost predicate BitsClear(s: State) {
    |s.bits| == PQ_POLICIES && forall p :: 0 <= p < PQ_POLICIES ==> AllFalse(s.bits[p])
  }

  ghost predicate Placed(s: State, mid: Mid) {
    OneRunning(s) && mid.limbo != Some(s.current) && QueuesExact(s, mid) && BitsClear(s)
      && forall t :: t in s.threads ==> FlagsOk(s.threads[t])
  }

  ghost predicate Inv(s: State) { Placed(s, SETTLED) }

  // ---------------------------------------------------------------------------------------------
  // Moving a thread between queues
  // ---------------------------------------------------------------------------------------------

  function Pull(s: State, id: Option<QueueId>, t: Tid): State {
    match id case None => s case Some(q) => s.(queues := s.queues[q := Drop(Q(s, q), t)])
  }

  function Push(s: State, id: Option<QueueId>, t: Tid): State {
    match id case None => s case Some(q) => s.(queues := s.queues[q := Q(s, q) + [t]])
  }

  /** Takes the thread out of its queue, changes it, and puts it into the queue it belongs to then. */
  function Moved(s: State, t: Tid, th: Thread): State {
    Push(Pull(s, Home(Th(s, t)), t), Home(th), t).(threads := s.threads[t := th])
  }

  lemma PullExact(s: State, id: Option<QueueId>, t: Tid, x: QueueId)
    requires NoDuplicates(Q(s, x))
    ensures NoDuplicates(Q(Pull(s, id, t), x))
    ensures forall u :: u in Q(Pull(s, id, t), x) <==> u in Q(s, x) && !(u == t && id == Some(x))
  {
    DropExact(Q(s, x), t);
  }

  lemma PushExact(s: State, id: Option<QueueId>, t: Tid, x: QueueId)
    requires NoDuplicates(Q(s, x)) && (id == Some(x) ==> t !in Q(s, x))
    ensures NoDuplicates(Q(Push(s, id, t), x))
    ensures forall u :: u in Q(Push(s, id, t), x) <==> u in Q(s, x) || (u == t && id == Some(x))
  {
  }

  lemma MovedQueueExact(s: State, mid: Mid, t: Tid, th: Thread, x: QueueId)
    requires QueueExact(s, mid, x) && t != s.current && mid.limbo != Some(t)
             && (t !in s.threads ==> Home(Th(s, t)) == None)
    ensures QueueExact(Moved(s, t, th), mid, x)
  {
    hide NoDuplicates, RunQueueOf, Pull, Push;
    var s1 := Pull(s, Home(Th(s, t)), t);
    PullExact(s, Home(Th(s, t)), t, x);
    PushExact(s1, Home(th), t, x);
    MovedFrame(s, t, th);
    assert Q(Moved(s, t, th), x) == Q(Push(s1, Home(th), t), x);
  }

  /** Moving any thread but the running one keeps every thread where it belongs. */
  lemma MovedKeepsPlaced(s: State, mid: Mid, t: Tid, th: Thread)
    requires Placed(s, mid) && t != s.current && mid.limbo != Some(t) && th.status != Running && FlagsOk(th)
    ensures Placed(Moved(s, t, th), mid)
  {
    hide QueueExact, Moved, FlagsOk, Q;
    forall x ensures QueueExact(Moved(s, t, th), mid, x) {
      assert QueueExact(s, mid, x);
      MovedQueueExact(s, mid, t, th, x);
    }
    MovedFrame(s, t, th);
  }

  lemma MovedFrame(s: State, t: Tid, th: Thread)
    ensures var s' := Moved(s, t, th); s'.threads == s.threads[t := th] && s'.current == s.current && s'.bits == s.bits
  {
  }

  // ---------------------------------------------------------------------------------------------
  // Choosing and switching
  // ---------------------------------------------------------------------------------------------

  function Popped(s: State, id: QueueId): State {
    var q := Q(s, id);
    s.(queues := s.queues[id := if q == [] then [] else q[1..]])
  }

  /** `PickNextTask` of one policy. */
  function PickNextTask(s: State, p: nat): (State, Option<Tid>) {
    if p < PQ_POLICIES then
      if p >= |s.bits| then (s, None)
      else match FindFirst(s.bits[p])
        case None => (s, None)
        case Some(level) =>
          var id := RunQueue(p, level);
          var s' := Popped(s, id);
          (if Q(s', id) == [] then s'.(bits := s.bits[p := s.bits[p][level := false]]) else s',
           if Q(s, id) == [] then None else Some(Q(s, id)[0]))
    else if Q(s, RunQueue(p, 0)) == [] then (s, None)
    else (Popped(s, RunQueue(p, 0)), Some(Q(s, RunQueue(p, 0))[0]))
  }

  /** `Schedule`: the first policy, from `p` on, that has a thread. */
  function Schedule(s: State, p: nat): (State, Option<Tid>)
    decreases POLICIES - p
  {
    if p >= POLICIES then (s, None)
    else
      var (s', t) := PickNextTask(s, p);
      if t.Some? then (s', t) else Schedule(s', p + 1)
  }

  function Switched(s: State, next: Tid, status: Status): State {
    var cur := Th(s, s.current).(status := status);
    var queued := if status == Ready then Push(s, Some(RunQueueOf(cur)), s.current) else s;
    queued.(threads := s.threads[next := Th(s, next).(status := Running)][s.current := cur], current := next)
  }

  lemma PopQueueExact(s: State, ahead: Option<QueueId>, id: QueueId, x: QueueId)
    requires QueueExact(s, Mid(ahead, None), x) && QueueExact(s, Mid(ahead, None), id) && Q(s, id) != []
    requires ahead != Some(id)
    ensures QueueExact(Popped(s, id), Mid(ahead, Some(Q(s, id)[0])), x)
  {
    hide RunQueueOf, NoDuplicates;
    var q := Q(s, id);
    assert q[0] in q;
    TailExact(q);
    assert Q(Popped(s, id), x) == if x == id then q[1..] else Q(s, x);
  }

  /** Taking the first thread out of a queue leaves only that thread unqueued. */
  lemma PopKeepsPlaced(s: State, ahead: Option<QueueId>, id: QueueId)
    requires Placed(s, Mid(ahead, None)) && Q(s, id) != [] && ahead != Some(id)
    ensures Placed(Popped(s, id), Mid(ahead, Some(Q(s, id)[0])))
    ensures var t := Q(s, id)[0]; t in s.threads && t != s.current && Home(s.threads[t]) == Some(id)
  {
    hide NoDuplicates, RunQueueOf, AllFalse;
    assert QueueExact(s, Mid(ahead, None), id);
    assert Q(s, id)[0] in Q(s, id);
    forall x ensures QueueExact(Popped(s, id), Mid(ahead, Some(Q(s, id)[0])), x) {
      assert QueueExact(s, Mid(ahead, None), x);
      PopQueueExact(s, ahead, id, x);
    }
  }

  lemma SwitchQueueExact(s: State, ahead: Option<QueueId>, next: Tid, status: Status, x: QueueId)
    requires QueueExact(s, Mid(ahead, Some(next)), x) && next in s.threads && s.current in s.threads
    requires next != s.current
    requires status != Running
    requires ahead == if status == Ready then None else Home(s.threads[s.current].(status := status))
    ensures QueueExact(Switched(s, next, status), SETTLED, x)
  {
    hide NoDuplicates, Push;
    var cur := s.threads[s.current].(status := status);
    if status == Ready { PushExact(s, Some(RunQueueOf(cur)), s.current, x); }
  }

  /** After the switch every thread is where it belongs, and the new one runs. */
  lemma SwitchKeepsPlaced(s: State, ahead: Option<QueueId>, next: Tid, status: Status)
    requires Placed(s, Mid(ahead, Some(next))) && next in s.threads && next != s.current
    requires status != Running
    requires ahead == if status == Ready then None else Home(s.threads[s.current].(status := status))
    ensures Inv(Switched(s, next, status))
  {
    hide QueueExact, RunQueueOf, AllFalse, Q;
    forall x ensures QueueExact(Switched(s, next, status), SETTLED, x) {
      assert QueueExact(s, Mid(ahead, Some(next)), x);
      SwitchQueueExact(s, ahead, next, status, x);
    }
  }

  /** With the bitmaps clear, only the round-robin policies ever deliver a thread. */
  lemma ScheduleIs(s: State)
    requires BitsClear(s)
    ensures var q3, q4 := Q(s, RunQueue(3, 0)), Q(s, RunQueue(4, 0));
            Schedule(s, 0) == if q3 != [] then (Popped(s, RunQueue(3, 0)), Some(q3[0]))
                              else if q4 != [] then (Popped(s, RunQueue(4, 0)), Some(q4[0]))
                              else (s, None)
  {
    hide Q, Popped;
    assert forall p :: 0 <= p < PQ_POLICIES ==> PickNextTask(s, p) == (s, None);
    assert Schedule(s, 0) == Schedule(s, 1) == Schedule(s, 2) == Schedule(s, 3);
    assert Schedule(s, 5) == (s, None);
  }

  // ---------------------------------------------------------------------------------------------
  // Waking sleepers
  // ---------------------------------------------------------------------------------------------

  /** The first thread of the sleep queue. */
  function MinOf(s: State, q: seq<Tid>): (m: Tid)
    requires q != []
    ensures m in q && forall t :: t in q ==> Th(s, m).key <= Th(s, t).key
  {
    if |q| == 1 then q[0]
    else
      var m := MinOf(s, q[1..]);
      assert forall t :: t in q <==> t == q[0] || t in q[1..];
      if Th(s, q[0]).key <= Th(s, m).key then q[0] else m
  }

  predicate IsFirstHigherPriority(a: Thread, b: Thread) {
    if a.policy == b.policy then a.policy < PQ_POLICIES && a.priority > b.priority else a.policy > b.policy
  }

  predicate Due(key: nat, time: nat) { !(key > time && key - time > 2 * MIN_DELTA) }

  datatype Wake = WakeFailed | Woken(s: State, looks: nat, preempt: bool)

  /** `WakeUpTasks`: `clock(i)` is the `i`-th reading of the clock. */
  function WakeUpTasks(s: State, clock: nat -> nat, i: nat): Wake
    decreases |Q(s, SleepQueue)|
  {
    var q := Q(s, SleepQueue);
    if q == [] then Woken(s, i, false)
    else
      var m := MinOf(s, q);
      var th := Th(s, m);
      if !Due(th.key, clock(i)) then Woken(s, i + 1, false)
      else if th.status != Sleeping || !FlagsOk(th) then WakeFailed
      else
        match WakeUpTasks(Moved(s, m, th.(status := Ready)), clock, i + 1)
        case WakeFailed => WakeFailed
        case Woken(s', looks, preempt) => Woken(s', looks, preempt || IsFirstHigherPriority(th, Th(s, s.current)))
  }

  lemma MinSleeper(s: State, mid: Mid)
    requires Placed(s, mid) && Q(s, SleepQueue) != []
    ensures var m := MinOf(s, Q(s, SleepQueue));
            && m in s.threads && mid.limbo != Some(m)
            && FlagsOk(s.threads[m]) && FlagsOk(s.threads[m].(status := Ready))
            && (m == s.current ==> mid.ahead == Some(SleepQueue))
            && (m != s.current <==> s.threads[m].status == Sleeping)
  {
    hide NoDuplicates, AllFalse;
    assert QueueExact(s, mid, SleepQueue);
    var m := MinOf(s, Q(s, SleepQueue));
    assert m in Q(s, SleepQueue);
  }

  /** What waking may change: sleepers become ready; run queues grow; nothing else moves. */
  ghost predicate OnlyWakes(s: State, s': State) {
    && s'.current == s.current && s'.threads.Keys == s.threads.Keys && s'.bits == s.bits
    && (forall t :: t in s.threads ==>
                      s'.threads[t] == s.threads[t]
                      || (s.threads[t].status == Sleeping && s'.threads[t] == s.threads[t].(status := Ready)))
    && (forall p, l, t :: t in Q(s, RunQueue(p, l)) ==> t in Q(s', RunQueue(p, l)))
    && (forall w :: Q(s', WaitQueue(w)) == Q(s, WaitQueue(w)))
  }

  lemma MovedOnlyWakes(s: State, m: Tid)
    requires m in s.threads && s.threads[m].status == Sleeping && m != s.current
    ensures OnlyWakes(s, Moved(s, m, s.threads[m].(status := Ready)))
  {
    hide Drop;
  }

  lemma OnlyWakesTransitive(a: State, b: State, c: State)
    requires OnlyWakes(a, b) && OnlyWakes(b, c)
    ensures OnlyWakes(a, c)
  {
    hide Q;
  }

  ghost predicate NoneDue(s: State, time: nat) {
    forall t :: t in Q(s, SleepQueue) ==> !Due(Th(s, t).key, time)
  }

  /** Every thread that was changed was due at one of the readings. */
  ghost predicate WokenWhenDue(s: State, s': State, clock: nat -> nat, from: nat, to: nat) {
    forall t :: t in s.threads && Th(s', t) != s.threads[t]
      ==> exists j :: from <= j < to && Due(s.threads[t].key, clock(j))
  }

  /**
   A completed wake-up keeps every thread where it belongs, leaves no sleeper that was due at the last
   reading, and only wakes threads that were due when they were looked at.
   */
  lemma {:induction false} WakeUpExact(s: State, mid: Mid, clock: nat -> nat, i: nat)
    requires Placed(s, mid) && WakeUpTasks(s, clock, i).Woken?
    ensures var w := WakeUpTasks(s, clock, i);
            && Placed(w.s, mid) && OnlyWakes(s, w.s) && i <= w.looks
            && (Q(w.s, SleepQueue) != [] ==> i < w.looks && NoneDue(w.s, clock(w.looks - 1)))
            && WokenWhenDue(s, w.s, clock, i, w.looks)
    decreases |Q(s, SleepQueue)|
  {
    hide Placed, Due, OnlyWakes, Moved, WokenWhenDue, NoneDue, IsFirstHigherPriority, FlagsOk, MinOf;
    var q := Q(s, SleepQueue);
    if q == [] {
      OnlyWakesNothing(s, clock, i, i);
    } else {
      var m := MinOf(s, q);
      MinSleeper(s, mid);
      if !Due(s.threads[m].key, clock(i)) {
        OnlyWakesNothing(s, clock, i, i + 1);
        NoneDueFromMin(s, clock(i));
      } else {
        var s1 := Moved(s, m, s.threads[m].(status := Ready));
        WakeUpMoves(s, mid, m);
        WakeUpExact(s1, mid, clock, i + 1);
        WakeUpAdds(s, WakeUpTasks(s1, clock, i + 1), m, clock, i);
      }
    }
  }

  /** Waking one sleeper. */
  lemma WakeUpMoves(s: State, mid: Mid, m: Tid)
    requires Placed(s, mid) && m in s.threads && m in Q(s, SleepQueue) && mid.limbo != Some(m)
    requires m != s.current && s.threads[m].status == Sleeping && FlagsOk(s.threads[m].(status := Ready))
    ensures var s1 := Moved(s, m, s.threads[m].(status := Ready));
            Placed(s1, mid) && |Q(s1, SleepQueue)| < |Q(s, SleepQueue)|
  {
    hide Placed, Moved, FlagsOk;
    MovedKeepsPlaced(s, mid, m, s.threads[m].(status := Ready));
    WakeUpDecreases(s, m);
  }

  /** What the remaining wake-ups do, with this one in front. */
  lemma WakeUpAdds(s: State, w: Wake, m: Tid, clock: nat -> nat, i: nat)
    requires m in s.threads && s.threads[m].status == Sleeping && m != s.current && Due(s.threads[m].key, clock(i))
    requires var s1 := Moved(s, m, s.threads[m].(status := Ready));
             w.Woken? && i < w.looks && OnlyWakes(s1, w.s) && WokenWhenDue(s1, w.s, clock, i + 1, w.looks)
    ensures OnlyWakes(s, w.s) && WokenWhenDue(s, w.s, clock, i, w.looks)
  {
    hide Due, OnlyWakes, Moved, WokenWhenDue;
    var s1 := Moved(s, m, s.threads[m].(status := Ready));
    MovedFrame(s, m, s.threads[m].(status := Ready));
    MovedOnlyWakes(s, m);
    OnlyWakesTransitive(s, s1, w.s);
    ReasonsAdd(s, s1, w.s, m, clock, i, w.looks);
  }

  lemma NoneDueFromMin(s: State, time: nat)
    requires Q(s, SleepQueue) != [] && !Due(Th(s, MinOf(s, Q(s, SleepQueue))).key, time)
    ensures NoneDue(s, time)
  {
  }

  lemma OnlyWakesNothing(s: State, clock: nat -> nat, from: nat, to: nat)
    ensures OnlyWakes(s, s) && WokenWhenDue(s, s, clock, from, to)
  {
  }

  lemma WakeUpDecreases(s: State, m: Tid)
    requires m in s.threads && s.threads[m].status == Sleeping && m in Q(s, SleepQueue)
    ensures |Q(Moved(s, m, s.threads[m].(status := Ready)), SleepQueue)| < |Q(s, SleepQueue)|
  {
  }

  lemma ReasonsAdd(s: State, s1: State, s2: State, m: Tid, clock: nat -> nat, i: nat, to: nat)
    requires m in s.threads && s1.threads == s.threads[m := s.threads[m].(status := Ready)]
    requires Due(s.threads[m].key, clock(i)) && i < to && WokenWhenDue(s1, s2, clock, i + 1, to)
    ensures WokenWhenDue(s, s2, clock, i, to)
  {
    hide Due;
    forall t | t in s.threads && Th(s2, t) != s.threads[t]
      ensures exists j :: i <= j < to && Due(s.threads[t].key, clock(j))
    {
      if t == m {
        assert i <= i < to && Due(s.threads[t].key, clock(i));
      } else {
        var j :| i + 1 <= j < to && Due(s1.threads[t].key, clock(j));
        assert i <= j < to && Due(s.threads[t].key, clock(j));
      }
    }
  }

  // ---------------------------------------------------------------------------------------------
  // When the wake-up loop fails
  // ---------------------------------------------------------------------------------------------

  /** The order in which the loop takes the sleepers. */
  function Turns(s: State, q: seq<Tid>): (r: seq<Tid>)
    ensures |r| == |q| && forall t :: t in r <==> t in q
    decreases |q|
  {
    if q == [] then []
    else
      var m := MinOf(s, q);
      DropMembers(q, m);
      [m] + Turns(s, Drop(q, m))
  }

  /** Nothing but `m` is lost, and all of the others are there. */
  lemma {:induction false} DropMembers(q: seq<Tid>, m: Tid)
    requires m in q
    ensures forall t :: t in q <==> t == m || t in Drop(q, m)
  {
    assert q == [q[0]] + q[1..];
    if q[0] != m { DropMembers(q[1..], m); }
  }

  /** The sleepers take their turns in the order of their keys. */
  lemma {:induction false} TurnsSorted(s: State, q: seq<Tid>)
    ensures forall a, b :: 0 <= a < b < |q| ==> Th(s, Turns(s, q)[a]).key <= Th(s, Turns(s, q)[b]).key
    decreases |q|
  {
    if q != [] {
      var m := MinOf(s, q);
      var rest := Turns(s, Drop(q, m));
      DropMembers(q, m);
      TurnsSorted(s, Drop(q, m));
      forall a, b | 0 <= a < b < |q| ensures Th(s, Turns(s, q)[a]).key <= Th(s, Turns(s, q)[b]).key {
        assert Turns(s, q) == [m] + rest;
        assert rest[b - 1] in rest;
      }
    }
  }

  ghost predicate SameKeys(s: State, s': State, q: seq<Tid>) { forall t :: t in q ==> Th(s, t).key == Th(s', t).key }

  lemma {:induction false} MinOfSame(s: State, s': State, q: seq<Tid>)
    requires q != [] && SameKeys(s, s', q)
    ensures MinOf(s, q) == MinOf(s', q)
  {
    if |q| > 1 { MinOfSame(s, s', q[1..]); }
  }

  lemma {:induction false} TurnsSame(s: State, s': State, q: seq<Tid>)
    requires SameKeys(s, s', q)
    ensures Turns(s, q) == Turns(s', q)
    decreases |q|
  {
    if q != [] {
      MinOfSame(s, s', q);
      DropMembers(q, MinOf(s, q));
      TurnsSame(s, s', Drop(q, MinOf(s, q)));
    }
  }

  /** Everyone up to turn `r` is due at its own turn, and turn `r` is the running thread's. */
  ghost predicate FailsAtTurn(s: State, clock: nat -> nat, i: nat, r: nat) {
    var turns := Turns(s, Q(s, SleepQueue));
    r < |turns| && turns[r] == s.current && forall j: nat :: j <= r ==> Due(Th(s, turns[j]).key, clock(i + j))
  }

  ghost predicate FailsInTurn(s: State, clock: nat -> nat, i: nat) { exists r: nat :: FailsAtTurn(s, clock, i, r) }

  /**
   The loop fails exactly when the running thread is among the sleepers and everyone before it in the
   order of the turns, and then it itself, is due at the reading of its own turn.
   */
  lemma {:induction false} WakeUpFailsIff(s: State, mid: Mid, clock: nat -> nat, i: nat)
    requires Placed(s, mid)
    ensures WakeUpTasks(s, clock, i).WakeFailed? <==> FailsInTurn(s, clock, i)
    decreases |Q(s, SleepQueue)|
  {
    hide Placed, Due, Moved, FailsInTurn, Turns;
    var q := Q(s, SleepQueue);
    if q == [] {
      NoTurns(s, clock, i);
    } else {
      var m := MinOf(s, q);
      MinSleeper(s, mid);
      var th := s.threads[m].(status := Ready);
      if !Due(s.threads[m].key, clock(i)) || m == s.current {
        FirstTurn(s, clock, i);
      } else {
        var s1 := Moved(s, m, th);
        MovedKeepsPlaced(s, mid, m, th);
        WakeUpDecreases(s, m);
        WakeUpFailsIff(s1, mid, clock, i + 1);
        LaterTurns(s, clock, i);
      }
    }
  }

  lemma NoTurns(s: State, clock: nat -> nat, i: nat)
    requires Q(s, SleepQueue) == []
    ensures !FailsInTurn(s, clock, i)
  {
  }

  lemma TurnsUnfold(s: State, q: seq<Tid>)
    requires q != []
    ensures Turns(s, q) == [MinOf(s, q)] + Turns(s, Drop(q, MinOf(s, q)))
  {
  }

  lemma FirstTurn(s: State, clock: nat -> nat, i: nat)
    requires Q(s, SleepQueue) != []
    ensures var m := MinOf(s, Q(s, SleepQueue));
            && (!Due(Th(s, m).key, clock(i)) ==> !FailsInTurn(s, clock, i))
            && (Due(Th(s, m).key, clock(i)) && m == s.current ==> FailsInTurn(s, clock, i))
  {
    hide Due, Drop, Turns, MinOf;
    TurnsUnfold(s, Q(s, SleepQueue));
    var turns := Turns(s, Q(s, SleepQueue));
    if r: nat :| FailsAtTurn(s, clock, i, r) { assert Due(Th(s, turns[0]).key, clock(i + 0)); }
    if Due(Th(s, turns[0]).key, clock(i)) && turns[0] == s.current { assert FailsAtTurn(s, clock, i, 0); }
  }

  lemma MovedTurns(s: State, m: Tid)
    requires Q(s, SleepQueue) != [] && m == MinOf(s, Q(s, SleepQueue)) && m in s.threads
    requires s.threads[m].status == Sleeping
    ensures var s1 := Moved(s, m, s.threads[m].(status := Ready));
            && s1.current == s.current && (forall t :: Th(s1, t).key == Th(s, t).key)
            && Turns(s, Q(s, SleepQueue)) == [m] + Turns(s1, Q(s1, SleepQueue))
  {
    hide Drop, Turns, MinOf;
    var q := Q(s, SleepQueue);
    var s1 := Moved(s, m, s.threads[m].(status := Ready));
    assert Q(s1, SleepQueue) == Drop(q, m);
    TurnsUnfold(s, q);
    TurnsSame(s, s1, Drop(q, m));
  }

  lemma LaterTurns(s: State, clock: nat -> nat, i: nat)
    requires Q(s, SleepQueue) != []
    requires var m := MinOf(s, Q(s, SleepQueue));
             m in s.threads && s.threads[m].status == Sleeping && m != s.current && Due(s.threads[m].key, clock(i))
    ensures var m := MinOf(s, Q(s, SleepQueue));
            FailsInTurn(s, clock, i) <==> FailsInTurn(Moved(s, m, s.threads[m].(status := Ready)), clock, i + 1)
  {
    hide Due, Drop, Turns, MinOf, Moved, Q;
    var m, k := MinOf(s, Q(s, SleepQueue)), i + 1;
    var s1 := Moved(s, m, s.threads[m].(status := Ready));
    MovedTurns(s, m);
    if r: nat :| FailsAtTurn(s, clock, i, r) {
      assert r > 0;
      ShiftTurns(s, s1, m, clock, i, r);
    }
    if r: nat :| FailsAtTurn(s1, clock, k, r) { ShiftTurns(s, s1, m, clock, i, r + 1); }
  }

  lemma ShiftTurns(s: State, s1: State, m: Tid, clock: nat -> nat, i: nat, r: nat)
    requires r > 0 && s1.current == s.current && Due(Th(s, m).key, clock(i))
    requires Turns(s, Q(s, SleepQueue)) == [m] + Turns(s1, Q(s1, SleepQueue))
    requires forall t :: Th(s1, t).key == Th(s, t).key
    ensures FailsAtTurn(s, clock, i, r) <==> FailsAtTurn(s1, clock, i + 1, r - 1)
  {
    hide Due, Turns, Q, Th;
    var turns, rest := Turns(s, Q(s, SleepQueue)), Turns(s1, Q(s1, SleepQueue));
    if r < |turns| {
      assert turns[r] == rest[r - 1];
      forall j: nat ensures 0 < j <= r ==> turns[j] == rest[j - 1] {}
      ShiftDue(s, s1, turns, rest, clock, i, r);
    }
  }

  lemma ShiftDue(s: State, s1: State, turns: seq<Tid>, rest: seq<Tid>, clock: nat -> nat, i: nat, r: nat)
    requires 0 < r < |turns| == |rest| + 1 && Due(Th(s, turns[0]).key, clock(i))
    requires forall t :: Th(s1, t).key == Th(s, t).key
    requires forall j: nat :: 0 < j <= r ==> turns[j] == rest[j - 1]
    ensures (forall j: nat :: j <= r ==> Due(Th(s, turns[j]).key, clock(i + j)))
            <==> forall j: nat :: j <= r - 1 ==> Due(Th(s1, rest[j]).key, clock(i + 1 + j))
  {
    hide Due, Th;
    if forall j: nat :: j <= r ==> Due(Th(s, turns[j]).key, clock(i + j)) {
      forall j: nat | j <= r - 1 ensures Due(Th(s1, rest[j]).key, clock(i + 1 + j)) {
        assert Due(Th(s, turns[j + 1]).key, clock(i + (j + 1)));
      }
    }
    if forall j: nat :: j <= r - 1 ==> Due(Th(s1, rest[j]).key, clock(i + 1 + j)) {
      forall j: nat | j <= r ensures Due(Th(s, turns[j]).key, clock(i + j)) {
        if j > 0 { assert Due(Th(s1, rest[j - 1]).key, clock(i + 1 + (j - 1))); }
      }
    }
  }

  // ---------------------------------------------------------------------------------------------
  // One scheduling pass
  // ---------------------------------------------------------------------------------------------

  datatype Reason = IdleReached | AssertFailed

  /** The timer is `None` when a call returns without a scheduling pass. */
  datatype Outcome = Panic(why: Reason) | Done(s: State, timer: Option<nat>)

  function Quantum(th: Thread): nat { if th.policy < PQ_POLICIES then 5_000_000 else 20_000_000 }

  function PreemptTime(th: Thread, cpuTime: nat): nat {
    if th.status != Running then Quantum(th) else if cpuTime < Quantum(th) then Quantum(th) - cpuTime else 0
  }

  predicate ShouldPreempt(preemptTime: nat) { preemptTime == 0 || preemptTime < MIN_DELTA }

  /** The time to the first sleeper's deadline, as the word subtraction gives it. */
  function SleepTime(s: State, time: nat): nat {
    var q := Q(s, SleepQueue);
    if q == [] then WORD - 1 else (Th(s, MinOf(s, q)).key - time) % WORD
  }

  /** Steps 4 and 5: the two assertions and the timer. */
  function Arm(s: State, preemptTime: nat, sleepTime: nat): Outcome {
    var time := if preemptTime < sleepTime then preemptTime else sleepTime;
    if preemptTime <= MIN_DELTA || time <= MIN_DELTA then Panic(AssertFailed) else Done(s, Some(time))
  }

  /** The branch of step 3 that asks the policies for a thread. */
  function Reschedule(s: State, status: Status, sleepTime: nat): Outcome {
    var (s', next) := Schedule(s, 0);
    if next.None? then
      if status == Ready then Arm(s', Quantum(Th(s', s'.current)), sleepTime) else Panic(IdleReached)
    else if Th(s', next.value).status != Ready || Th(s', s'.current).status != Running then Panic(AssertFailed)
    else Arm(Switched(s', next.value, status), Quantum(Th(s', next.value)), sleepTime)
  }

  /** `ScheduleAndUpdateThreads`, with the context switch its callers perform. */
  function Pass(s: State, preempt: bool, status: Status, forced: Option<Tid>, clock: nat -> nat, i: nat,
                cpuTime: nat): Outcome
  {
    match WakeUpTasks(s, clock, i)
    case WakeFailed => Panic(AssertFailed)
    case Woken(w, looks, forcePreempt) =>
      var sleepTime := SleepTime(w, clock(looks));
      var preemptTime := PreemptTime(Th(w, w.current), cpuTime);
      if forced.Some? then
        if Th(w, w.current).status != Running then Panic(AssertFailed)
        else Arm(Switched(w, forced.value, status), Quantum(Th(w, forced.value)), sleepTime)
      else if preempt || forcePreempt || ShouldPreempt(preemptTime) then Reschedule(w, status, sleepTime)
      else Arm(w, preemptTime, sleepTime)
  }

  // ---------------------------------------------------------------------------------------------
  // The operations
  // ---------------------------------------------------------------------------------------------

  /** The current thread is queued before it stops running. */
  function Enqueued(s: State, th: Thread, id: QueueId): State {
    Push(s, Some(id), s.current).(threads := s.threads[s.current := th])
  }

  function BlockOnWaitQueue(s: State, w: nat, clock: nat -> nat, cpuTime: nat): Outcome {
    Pass(Enqueued(s, Th(s, s.current).(wq := w), WaitQueue(w)), true, Blocked, None, clock, 0, cpuTime)
  }

  function NanoSleepUntil(s: State, until: nat, clock: nat -> nat, cpuTime: nat): Outcome {
    if until < clock(0) || until - clock(0) < MIN_DELTA then Done(s, None)
    else Pass(Enqueued(s, Th(s, s.current).(key := until), SleepQueue), true, Sleeping, None, clock, 1, cpuTime)
  }

  function ReleaseAll(s: State, w: nat): State
    decreases |Q(s, WaitQueue(w))|
  {
    var q := Q(s, WaitQueue(w));
    if q == [] then s
    else
      var s' := Moved(s, q[0], Th(s, q[0]).(status := Ready));
      if |Q(s', WaitQueue(w))| < |q| then ReleaseAll(s', w) else s'
  }

  /** One turn of the loop of `ReleaseAndProcessAllBeforeProceeding`. */
  function ReleaseAndProcess(s: State, w: nat, clock: nat -> nat, cpuTime: nat): Outcome {
    var q := Q(s, WaitQueue(w));
    if q == [] then Done(s, None) else Pass(Popped(s, WaitQueue(w)), false, Ready, Some(q[0]), clock, 0, cpuTime)
  }

  /** `RemoveThread`, after which the caller marks the thread as finished. */
  function Kill(s: State, t: Tid, status: Status): Outcome {
    if Home(Th(s, t)).None? then Panic(AssertFailed) else Done(Moved(s, t, Th(s, t).(status := status)), None)
  }

  datatype Op =
    | Spawn(t: Tid, policy: nat, priority: nat)
    | Block(w: nat)
    | Sleep(until: nat)
    | Yield
    | Timer
    | Exit(status: Status)
    | Release(w: nat)
    | ReleaseStep(w: nat)
    | Remove(t: Tid, status: Status)

  /** A step: what is called, the clock readings during the call and the CPU time used so far. */
  datatype Step = Step(op: Op, clock: nat -> nat, cpuTime: nat)

  predicate IsFinal(status: Status) { status.WaitingForJoin? || status.Terminated? }

  ghost predicate Enabled(s: State, e: Step) {
    match e.op
    case Spawn(t, policy, priority) =>
      (t in s.threads ==> s.threads[t].status == Terminated) && FlagsOk(Thread(Ready, policy, priority, 0, 0))
    case Exit(status) => IsFinal(status)
    case Remove(t, status) => t in s.threads && t != s.current && IsFinal(status)
    case _ => true
  }

  function Apply(s: State, e: Step): Outcome {
    match e.op
    case Spawn(t, policy, priority) => Done(Moved(s, t, Thread(Ready, policy, priority, 0, 0)), None)
    case Block(w) => BlockOnWaitQueue(s, w, e.clock, e.cpuTime)
    case Sleep(until) => NanoSleepUntil(s, until, e.clock, e.cpuTime)
    case Yield => Pass(s, true, Ready, None, e.clock, 0, e.cpuTime)
    case Timer => Pass(s, false, Ready, None, e.clock, 0, e.cpuTime)
    case Exit(status) => Pass(s, true, status, None, e.clock, 0, e.cpuTime)
    case Release(w) => Done(ReleaseAll(s, w), None)
    case ReleaseStep(w) => ReleaseAndProcess(s, w, e.clock, e.cpuTime)
    case Remove(t, status) => Kill(s, t, status)
  }

  // ---------------------------------------------------------------------------------------------
  // Every operation keeps every thread where it belongs
  // ---------------------------------------------------------------------------------------------

  /** How the current thread may leave: it is already queued where the new status says. */
  ghost predicate Leaves(s: State, ahead: Option<QueueId>, status: Status) {
    status != Running && ahead == if status == Ready then None else Home(Th(s, s.current).(status := status))
  }

  lemma LeavesAfterWake(s: State, s': State, ahead: Option<QueueId>, status: Status)
    requires Leaves(s, ahead, status) && OnlyWakes(s, s') && OneRunning(s)
    ensures Leaves(s', ahead, status)
  {
    hide Q, RunQueueOf;
  }

  lemma RescheduleKeepsInv(s: State, ahead: Option<QueueId>, status: Status, sleepTime: nat)
    requires Placed(s, Mid(ahead, None)) && Leaves(s, ahead, status) && Reschedule(s, status, sleepTime).Done?
    ensures Inv(Reschedule(s, status, sleepTime).s)
  {
    hide QueuesExact, RunQueueOf, Q, Popped, Switched, Schedule, AllFalse, FlagsOk;
    ScheduleIs(s);
    var q3, q4 := Q(s, RunQueue(3, 0)), Q(s, RunQueue(4, 0));
    if q3 != [] || q4 != [] {
      var id := if q3 != [] then RunQueue(3, 0) else RunQueue(4, 0);
      NotAhead(s, ahead, status, id);
      PopKeepsPlaced(s, ahead, id);
      PopFrame(s, id);
      SwitchKeepsPlaced(Popped(s, id), ahead, Q(s, id)[0], status);
    }
  }

  lemma NotAhead(s: State, ahead: Option<QueueId>, status: Status, id: QueueId)
    requires Leaves(s, ahead, status) && id.RunQueue?
    ensures ahead != Some(id)
  {
  }

  lemma PopFrame(s: State, id: QueueId)
    ensures Popped(s, id).threads == s.threads && Popped(s, id).current == s.current
  {
  }

  lemma PassKeepsInv(s: State, mid: Mid, preempt: bool, status: Status, clock: nat -> nat, i: nat, cpuTime: nat)
    requires Placed(s, mid) && Leaves(s, mid.ahead, status) && (preempt || status == Ready)
    requires mid.limbo.Some? ==> mid.limbo.value in s.threads
    requires Pass(s, preempt, status, mid.limbo, clock, i, cpuTime).Done?
    ensures Inv(Pass(s, preempt, status, mid.limbo, clock, i, cpuTime).s)
  {
    hide QueuesExact, OnlyWakes, WakeUpTasks, Leaves, Reschedule, Switched, RunQueueOf, NoneDue, WokenWhenDue, Q;
    hide SleepTime;
    WakeUpExact(s, mid, clock, i);
    var w := WakeUpTasks(s, clock, i).s;
    LeavesAfterWake(s, w, mid.ahead, status);
    OnlyWakesKeys(s, w);
    if mid.limbo.Some? {
      LeavesMeans(w, mid.ahead, status);
      SwitchKeepsPlaced(w, mid.ahead, mid.limbo.value, status);
    } else if preempt || WakeUpTasks(s, clock, i).preempt || ShouldPreempt(PreemptTime(Th(w, w.current), cpuTime)) {
      RescheduleKeepsInv(w, mid.ahead, status, SleepTime(w, clock(WakeUpTasks(s, clock, i).looks)));
    } else {
      LeavesMeans(w, mid.ahead, status);
    }
  }

  lemma LeavesMeans(s: State, ahead: Option<QueueId>, status: Status)
    requires Leaves(s, ahead, status)
    ensures status != Running && ahead == if status == Ready then None else Home(Th(s, s.current).(status := status))
  {
  }

  lemma OnlyWakesKeys(s: State, s': State)
    requires OnlyWakes(s, s')
    ensures s'.threads.Keys == s.threads.Keys && s'.current == s.current
  {
  }

  lemma EnqueuedKeepsPlaced(s: State, th: Thread, id: QueueId)
    requires Inv(s) && th.status == Running && FlagsOk(th)
    ensures Placed(Enqueued(s, th, id), Mid(Some(id), None))
  {
    hide QueueExact, AllFalse, Enqueued, FlagsOk;
    forall x ensures QueueExact(Enqueued(s, th, id), Mid(Some(id), None), x) {
      assert QueueExact(s, SETTLED, x);
      EnqueuedQueueExact(s, th, id, x);
    }
    EnqueuedFrame(s, th, id);
  }

  lemma EnqueuedQueueExact(s: State, th: Thread, id: QueueId, x: QueueId)
    requires QueueExact(s, SETTLED, x) && s.current in s.threads
    ensures QueueExact(Enqueued(s, th, id), Mid(Some(id), None), x)
  {
    hide NoDuplicates, RunQueueOf, Push;
    PushExact(s, Some(id), s.current, x);
    EnqueuedFrame(s, th, id);
    assert Q(Enqueued(s, th, id), x) == Q(Push(s, Some(id), s.current), x);
  }

  lemma EnqueuedFrame(s: State, th: Thread, id: QueueId)
    ensures var s' := Enqueued(s, th, id);
            s'.threads == s.threads[s.current := th] && s'.current == s.current && s'.bits == s.bits
  {
  }

  lemma FrontOfWaitQueue(s: State, w: nat)
    requires Inv(s) && Q(s, WaitQueue(w)) != []
    ensures var t := Q(s, WaitQueue(w))[0];
            t in s.threads && t != s.current && s.threads[t].status == Blocked && s.threads[t].wq == w
              && FlagsOk(s.threads[t])
  {
    hide NoDuplicates, AllFalse;
    assert QueueExact(s, SETTLED, WaitQueue(w));
    assert Q(s, WaitQueue(w))[0] in Q(s, WaitQueue(w));
  }

  /** Releasing empties the wait queue and keeps every thread where it belongs. */
  lemma {:induction false} ReleaseAllKeepsInv(s: State, w: nat)
    requires Inv(s)
    ensures Inv(ReleaseAll(s, w)) && Q(ReleaseAll(s, w), WaitQueue(w)) == []
    ensures forall t :: t in Q(s, WaitQueue(w)) ==>
                          t in ReleaseAll(s, w).threads && ReleaseAll(s, w).threads[t].status == Ready
    ensures forall t :: t in s.threads && t !in Q(s, WaitQueue(w)) ==>
                          t in ReleaseAll(s, w).threads && ReleaseAll(s, w).threads[t] == s.threads[t]
    decreases |Q(s, WaitQueue(w))|
  {
    hide Placed, RunQueueOf, FlagsOk;
    var q := Q(s, WaitQueue(w));
    if q != [] {
      FrontOfWaitQueue(s, w);
      var th := s.threads[q[0]].(status := Ready);
      FlagsKept(s.threads[q[0]], Ready);
      MovedKeepsPlaced(s, SETTLED, q[0], th);
      DequeueMoves(s, w);
      ReleaseAllKeepsInv(Moved(s, q[0], th), w);
    }
  }

  lemma FlagsKept(th: Thread, status: Status)
    requires FlagsOk(th)
    ensures FlagsOk(th.(status := status))
  {
  }

  lemma DequeueMoves(s: State, w: nat)
    requires Q(s, WaitQueue(w)) != [] && var t := Q(s, WaitQueue(w))[0];
             t in s.threads && Home(s.threads[t]) == Some(WaitQueue(w))
    ensures var q := Q(s, WaitQueue(w));
            var s' := Moved(s, q[0], s.threads[q[0]].(status := Ready));
            Q(s', WaitQueue(w)) == q[1..] && s'.threads == s.threads[q[0] := s.threads[q[0]].(status := Ready)]
  {
  }

  lemma SettledFacts(s: State)
    requires Inv(s)
    ensures s.current in s.threads && s.threads[s.current].status == Running && FlagsOk(s.threads[s.current])
    ensures forall t :: t in s.threads ==> FlagsOk(s.threads[t])
  {
  }

  /** One step of any kind. */
  lemma ApplyKeepsInv(s: State, e: Step)
    requires Inv(s) && Enabled(s, e) && Apply(s, e).Done?
    ensures Inv(Apply(s, e).s)
  {
    hide Placed, Pass, Moved, Enqueued, RunQueueOf, Q, ReleaseAll, Popped;
    SettledFacts(s);
    var cur := s.threads[s.current];
    match e.op
    case Spawn(t, policy, priority) => MovedKeepsPlaced(s, SETTLED, t, Thread(Ready, policy, priority, 0, 0));
    case Block(w) =>
      EnqueuedKeepsPlaced(s, cur.(wq := w), WaitQueue(w));
      EnqueuedFrame(s, cur.(wq := w), WaitQueue(w));
      PassKeepsInv(Enqueued(s, cur.(wq := w), WaitQueue(w)), Mid(Some(WaitQueue(w)), None), true, Blocked, e.clock,
                   0, e.cpuTime);
    case Sleep(until) =>
      if !(until < e.clock(0) || until - e.clock(0) < MIN_DELTA) {
        EnqueuedKeepsPlaced(s, cur.(key := until), SleepQueue);
        EnqueuedFrame(s, cur.(key := until), SleepQueue);
        PassKeepsInv(Enqueued(s, cur.(key := until), SleepQueue), Mid(Some(SleepQueue), None), true, Sleeping,
                     e.clock, 1, e.cpuTime);
      }
    case Yield => PassKeepsInv(s, SETTLED, true, Ready, e.clock, 0, e.cpuTime);
    case Timer => PassKeepsInv(s, SETTLED, false, Ready, e.clock, 0, e.cpuTime);
    case Exit(status) => PassKeepsInv(s, SETTLED, true, status, e.clock, 0, e.cpuTime);
    case Release(w) => ReleaseAllKeepsInv(s, w);
    case ReleaseStep(w) =>
      if Q(s, WaitQueue(w)) != [] {
        PopKeepsPlaced(s, None, WaitQueue(w));
        PopFrame(s, WaitQueue(w));
        PassKeepsInv(Popped(s, WaitQueue(w)), Mid(None, Some(Q(s, WaitQueue(w))[0])), false, Ready, e.clock, 0,
                     e.cpuTime);
      }
    case Remove(t, status) => MovedKeepsPlaced(s, SETTLED, t, s.threads[t].(status := status));
  }

  // ---------------------------------------------------------------------------------------------
  // When a pass panics
  // ---------------------------------------------------------------------------------------------

  /** The clock does not go back and moves by less than the minimal delta between two readings. */
  ghost predicate SmoothClock(clock: nat -> nat) {
    forall j: nat :: clock(j) <= clock(j + 1) < clock(j) + MIN_DELTA
  }

  ghost predicate KeysFit(s: State) { forall t :: t in s.threads ==> s.threads[t].key < WORD }

  /** No sleeper's deadline lies behind the given time. */
  ghost predicate NonePassed(s: State, time: nat) { forall t :: t in Q(s, SleepQueue) ==> time <= Th(s, t).key }

  /** Unless a deadline has passed, the subtraction does not wrap. */
  lemma SleepTimeExact(s: State, time: nat)
    requires NonePassed(s, time) && KeysFit(s)
    ensures forall t :: t in Q(s, SleepQueue) ==> SleepTime(s, time) <= Th(s, t).key - time
  {
    var q := Q(s, SleepQueue);
    if q != [] {
      var d := Th(s, MinOf(s, q)).key - time;
      assert 0 <= d < WORD && d % WORD == d;
    }
  }

  lemma NotDueSoonAfter(s: State, time: nat, later: nat)
    requires NoneDue(s, time) && time <= later < time + MIN_DELTA && KeysFit(s)
    ensures NonePassed(s, later) && MIN_DELTA < SleepTime(s, later)
  {
    var q := Q(s, SleepQueue);
    if q != [] {
      var d := Th(s, MinOf(s, q)).key - later;
      assert 0 <= d < WORD && d % WORD == d;
    }
  }

  lemma KeysStillFit(s: State, s': State)
    requires OnlyWakes(s, s') && KeysFit(s)
    ensures KeysFit(s')
  {
    hide Q;
  }

  lemma NoSleepers(s: State, time: nat)
    requires Q(s, SleepQueue) == []
    ensures SleepTime(s, time) == WORD - 1 && NonePassed(s, time)
  {
  }

  /** Neither round-robin queue has a thread. */
  ghost predicate NoRunnable(s: State) { Q(s, RunQueue(3, 0)) == [] && Q(s, RunQueue(4, 0)) == [] }

  lemma RescheduleOutcome(s: State, ahead: Option<QueueId>, status: Status, sleepTime: nat)
    requires Placed(s, Mid(ahead, None)) && Leaves(s, ahead, status)
    ensures var r := Reschedule(s, status, sleepTime);
            var idle := status != Ready && NoRunnable(s);
            && (r == Panic(IdleReached) <==> idle) && (r == Panic(AssertFailed) <==> !idle && sleepTime <= MIN_DELTA)
            && (r.Done? ==> r.timer.Some? && MIN_DELTA < r.timer.value <= sleepTime)
  {
    hide QueuesExact, RunQueueOf, Q, Popped, Switched, Schedule, AllFalse, FlagsOk;
    ScheduleIs(s);
    var q3, q4 := Q(s, RunQueue(3, 0)), Q(s, RunQueue(4, 0));
    if q3 != [] || q4 != [] {
      var id := if q3 != [] then RunQueue(3, 0) else RunQueue(4, 0);
      NotAhead(s, ahead, status, id);
      PopKeepsPlaced(s, ahead, id);
      PopFrame(s, id);
      RunQueueHoldsReady(s.threads[Q(s, id)[0]], id);
    }
  }

  lemma RunQueueHoldsReady(th: Thread, id: QueueId)
    requires Home(th) == Some(id) && id.RunQueue?
    ensures th.status == Ready
  {
  }

  /**
   Exactly when a pass panics: the wake-up loop fails; or the thread stops and no round-robin thread is
   ready; or the next deadline is too close when it is read; or nothing preempts and the remaining
   quantum is the minimal delta to the nanosecond.  A pass that completes arms the timer above the
   minimal delta and no later than the time to the first deadline.
   */
  lemma PassPanicsIff(s: State, mid: Mid, preempt: bool, status: Status, clock: nat -> nat, i: nat, cpuTime: nat)
    requires Placed(s, mid) && Leaves(s, mid.ahead, status)
    ensures var r := Pass(s, preempt, status, mid.limbo, clock, i, cpuTime);
            match WakeUpTasks(s, clock, i)
            case WakeFailed => r == Panic(AssertFailed)
            case Woken(w, looks, wokenFirst) =>
              var remaining := PreemptTime(Th(w, w.current), cpuTime);
              var asks := mid.limbo.None? && (preempt || wokenFirst || ShouldPreempt(remaining));
              var idle := asks && status != Ready && NoRunnable(w);
              var sleepTime := SleepTime(w, clock(looks));
              && (r == Panic(IdleReached) <==> idle)
              && (r == Panic(AssertFailed) <==>
                    !idle && (sleepTime <= MIN_DELTA || (mid.limbo.None? && !asks && remaining == MIN_DELTA)))
              && (r.Done? ==> r.timer.Some? && MIN_DELTA < r.timer.value <= sleepTime)
  {
    hide QueuesExact, OnlyWakes, WakeUpTasks, Leaves, Reschedule, Switched, RunQueueOf, NoneDue, WokenWhenDue, Q;
    hide SleepTime, NoRunnable;
    if WakeUpTasks(s, clock, i).Woken? {
      WakeUpExact(s, mid, clock, i);
      var w := WakeUpTasks(s, clock, i).s;
      LeavesAfterWake(s, w, mid.ahead, status);
      OnlyWakesKeys(s, w);
      if mid.limbo.None? {
        RescheduleOutcome(w, mid.ahead, status, SleepTime(w, clock(WakeUpTasks(s, clock, i).looks)));
      }
    }
  }

  /**
   The timer of a completed pass fires before the deadline of every thread still asleep, unless the
   clock has passed such a deadline between the wake-up and the second reading.
   */
  lemma TimerBeforeDeadlines(s: State, mid: Mid, preempt: bool, status: Status, clock: nat -> nat, i: nat,
                             cpuTime: nat, t: Tid)
    requires Placed(s, mid) && Leaves(s, mid.ahead, status) && KeysFit(s)
    requires Pass(s, preempt, status, mid.limbo, clock, i, cpuTime).Done?
    ensures var w := WakeUpTasks(s, clock, i);
            var timer := Pass(s, preempt, status, mid.limbo, clock, i, cpuTime).timer;
            && w.Woken? && timer.Some? && MIN_DELTA < timer.value
            && (NonePassed(w.s, clock(w.looks)) && t in Q(w.s, SleepQueue) ==>
                  timer.value <= Th(w.s, t).key - clock(w.looks))
  {
    hide QueuesExact, OnlyWakes, WakeUpTasks, Leaves, RunQueueOf, Q, SleepTime, Reschedule, Switched;
    hide KeysFit, NoRunnable, NoneDue, WokenWhenDue, NonePassed;
    WakeUpExact(s, mid, clock, i);
    PassPanicsIff(s, mid, preempt, status, clock, i, cpuTime);
    var w := WakeUpTasks(s, clock, i);
    KeysStillFit(s, w.s);
    if NonePassed(w.s, clock(w.looks)) { SleepTimeExact(w.s, clock(w.looks)); }
  }

  /** A clock that moves by less than the minimal delta between two readings passes no deadline there. */
  lemma SmoothClockPassesNone(s: State, mid: Mid, clock: nat -> nat, i: nat)
    requires Placed(s, mid) && SmoothClock(clock) && KeysFit(s) && WakeUpTasks(s, clock, i).Woken?
    ensures var w := WakeUpTasks(s, clock, i);
            NonePassed(w.s, clock(w.looks)) && MIN_DELTA < SleepTime(w.s, clock(w.looks))
  {
    hide Placed, WakeUpTasks, SleepTime, NoneDue, WokenWhenDue, OnlyWakes, NonePassed, KeysFit;
    WakeUpExact(s, mid, clock, i);
    var w := WakeUpTasks(s, clock, i);
    KeysStillFit(s, w.s);
    if Q(w.s, SleepQueue) != [] {
      assert clock(w.looks - 1) <= clock(w.looks - 1 + 1) < clock(w.looks - 1) + MIN_DELTA;
      NotDueSoonAfter(w.s, clock(w.looks - 1), clock(w.looks));
    } else {
      NoSleepers(w.s, clock(w.looks));
    }
  }

  // ---------------------------------------------------------------------------------------------
  // When a sleep fails
  // ---------------------------------------------------------------------------------------------

  /** How many of the turns come before a deadline. */
  function TurnsUpTo(s: State, turns: seq<Tid>, key: nat): (n: nat)
    ensures n <= |turns| && forall j :: 0 <= j < n ==> Th(s, turns[j]).key <= key
    ensures n < |turns| ==> Th(s, turns[n]).key > key
  {
    if turns == [] || Th(s, turns[0]).key > key then 0 else 1 + TurnsUpTo(s, turns[1..], key)
  }

  lemma {:induction false} MinOfAppend(s: State, q: seq<Tid>, c: Tid)
    requires q != []
    ensures MinOf(s, q + [c]) == if Th(s, MinOf(s, q)).key <= Th(s, c).key then MinOf(s, q) else c
  {
    assert (q + [c])[1..] == q[1..] + [c];
    if |q| > 1 { MinOfAppend(s, q[1..], c); } else { assert q[1..] + [c] == [c]; }
  }

  lemma {:induction false} DropAppend(q: seq<Tid>, m: Tid, c: Tid)
    ensures m in q ==> Drop(q + [c], m) == Drop(q, m) + [c]
    ensures c !in q ==> Drop(q + [c], c) == q
  {
    if q != [] {
      assert (q + [c])[1..] == q[1..] + [c];
      DropAppend(q[1..], m, c);
      assert q == [q[0]] + q[1..];
    }
  }

  /** The last to be queued takes its turn after everyone whose deadline is not later. */
  lemma {:induction false} TurnsAppend(s: State, q: seq<Tid>, c: Tid)
    requires c !in q
    ensures var turns := Turns(s, q);
            var n := TurnsUpTo(s, turns, Th(s, c).key);
            Turns(s, q + [c]) == turns[..n] + [c] + turns[n..]
    decreases |q|
  {
    hide Turns, MinOf, TurnsUpTo, Drop, Th;
    TurnsUnfold(s, q + [c]);
    if q == [] {
      TurnsOfOne(s, c);
      assert q + [c] == [c];
    } else {
      var m := MinOf(s, q);
      MinOfAppend(s, q, c);
      DropAppend(q, m, c);
      if Th(s, m).key <= Th(s, c).key {
        DropMembers(q, m);
        TurnsAppend(s, Drop(q, m), c);
        TurnsAfterFirst(s, q, c);
      } else {
        TurnsAfterAll(s, q, c);
      }
    }
  }

  lemma TurnsOfOne(s: State, c: Tid)
    ensures Turns(s, []) == [] && Turns(s, [c]) == [c] && [] + [c] == [c] && TurnsUpTo(s, [], Th(s, c).key) == 0
  {
    assert Drop([c], c) == [];
  }

  lemma TurnsAfterAll(s: State, q: seq<Tid>, c: Tid)
    requires q != [] && Th(s, MinOf(s, q)).key > Th(s, c).key
    ensures TurnsUpTo(s, Turns(s, q), Th(s, c).key) == 0
  {
    hide Turns, MinOf, Drop;
    TurnsUnfold(s, q);
  }

  lemma TurnsAfterFirst(s: State, q: seq<Tid>, c: Tid)
    requires q != [] && Th(s, MinOf(s, q)).key <= Th(s, c).key
    ensures var m := MinOf(s, q);
            var turns, rest := Turns(s, q), Turns(s, Drop(q, m));
            var n, k := TurnsUpTo(s, turns, Th(s, c).key), TurnsUpTo(s, rest, Th(s, c).key);
            turns == [m] + rest && n == k + 1 && turns[..n] == [m] + rest[..k] && turns[n..] == rest[k..]
  {
    hide Drop, Turns, MinOf;
    TurnsUnfold(s, q);
    var rest := Turns(s, Drop(q, MinOf(s, q)));
    assert ([MinOf(s, q)] + rest)[1..] == rest;
  }

  /**
   A sleep that is queued fails in the wake-up loop exactly when every sleeper with a deadline that is
   not later, one reading each, and then the caller at the next reading, is due.
   */
  lemma SleepFailsIff(s: State, until: nat, clock: nat -> nat)
    requires Inv(s)
    ensures var turns := Turns(s, Q(s, SleepQueue));
            var n := TurnsUpTo(s, turns, until);
            WakeUpTasks(Enqueued(s, Th(s, s.current).(key := until), SleepQueue), clock, 1).WakeFailed?
            <==> (forall j: nat :: j < n ==> Due(Th(s, turns[j]).key, clock(1 + j))) && Due(until, clock(1 + n))
  {
    hide Placed, WakeUpTasks, Enqueued, Due, Turns, FailsAtTurn;
    var cur := Th(s, s.current).(key := until);
    var s' := Enqueued(s, cur, SleepQueue);
    SettledFacts(s);
    EnqueuedKeepsPlaced(s, cur, SleepQueue);
    EnqueuedFrame(s, cur, SleepQueue);
    WakeUpFailsIff(s', Mid(Some(SleepQueue), None), clock, 1);
    var q, n := Q(s, SleepQueue), TurnsUpTo(s, Turns(s, Q(s, SleepQueue)), until);
    CurrentAwake(s);
    EnqueuedTurns(s, until, s');
    forall r: nat ensures FailsAtTurn(s', clock, 1, r) ==> r == n { TurnOfCurrent(s, s', until, clock, r); }
    TurnOfCurrent(s, s', until, clock, n);
  }

  lemma CurrentAwake(s: State)
    requires Inv(s)
    ensures s.current !in Q(s, SleepQueue)
  {
    assert QueueExact(s, SETTLED, SleepQueue);
  }

  lemma EnqueuedTurns(s: State, until: nat, s': State)
    requires s' == Enqueued(s, Th(s, s.current).(key := until), SleepQueue) && s.current !in Q(s, SleepQueue)
    ensures var turns := Turns(s, Q(s, SleepQueue));
            var n := TurnsUpTo(s, turns, until);
            && Turns(s', Q(s', SleepQueue)) == turns[..n] + [s.current] + turns[n..]
            && Th(s', s.current).key == until && SameKeys(s, s', Q(s, SleepQueue)) && s.current !in turns
  {
    hide Turns, MinOf;
    var q := Q(s, SleepQueue);
    assert Q(s', SleepQueue) == q + [s.current];
    TurnsSame(s, s', q);
    TurnsAppend(s', q, s.current);
    SameTurnsUpTo(s, s', Turns(s, q), until);
  }

  lemma {:induction false} SameTurnsUpTo(s: State, s': State, turns: seq<Tid>, key: nat)
    requires SameKeys(s, s', turns)
    ensures TurnsUpTo(s, turns, key) == TurnsUpTo(s', turns, key)
  {
    if turns != [] { SameTurnsUpTo(s, s', turns[1..], key); }
  }

  lemma OnlyPlace(turns: seq<Tid>, n: nat, c: Tid, r: nat)
    requires n <= |turns| && c !in turns
    ensures r <= |turns| ==> ((turns[..n] + [c] + turns[n..])[r] == c <==> r == n)
  {
  }

  lemma TurnOfCurrent(s: State, s': State, until: nat, clock: nat -> nat, r: nat)
    requires s'.current == s.current && Th(s', s.current).key == until && SameKeys(s, s', Q(s, SleepQueue))
    requires var turns := Turns(s, Q(s, SleepQueue));
             var n := TurnsUpTo(s, turns, until);
             s.current !in turns && Turns(s', Q(s', SleepQueue)) == turns[..n] + [s.current] + turns[n..]
    ensures var turns := Turns(s, Q(s, SleepQueue));
            var n := TurnsUpTo(s, turns, until);
            FailsAtTurn(s', clock, 1, r)
            <==> && r == n && Due(until, clock(1 + n))
                 && forall j: nat :: j < n ==> Due(Th(s, turns[j]).key, clock(1 + j))
  {
    hide Due, Turns, Th, Q;
    var turns := Turns(s, Q(s, SleepQueue));
    var n := TurnsUpTo(s, turns, until);
    var turns' := Turns(s', Q(s', SleepQueue));
    OnlyPlace(turns, n, s.current, r);
    assert forall j: nat :: j < n ==> turns[j] in turns;
    InsertedDue(s, s', turns, turns', n, until, clock);
  }

  lemma InsertedDue(s: State, s': State, turns: seq<Tid>, turns': seq<Tid>, n: nat, until: nat, clock: nat -> nat)
    requires n <= |turns| && |turns'| == |turns| + 1 && turns'[..n] == turns[..n] && Th(s', turns'[n]).key == until
    requires forall j: nat :: j < n ==> Th(s', turns[j]).key == Th(s, turns[j]).key
    ensures (forall j: nat :: j <= n ==> Due(Th(s', turns'[j]).key, clock(1 + j)))
            <==> (forall j: nat :: j < n ==> Due(Th(s, turns[j]).key, clock(1 + j))) && Due(until, clock(1 + n))
  {
    hide Due, Th;
    forall j: nat | j < n ensures turns'[j] == turns[j] { assert turns'[..n][j] == turns[..n][j]; }
    if forall j: nat :: j <= n ==> Due(Th(s', turns'[j]).key, clock(1 + j)) {
      forall j: nat | j < n ensures Due(Th(s, turns[j]).key, clock(1 + j)) {
        assert Due(Th(s', turns'[j]).key, clock(1 + j));
      }
    }
  }

  /** With a clock that does not go back, a sleep that is queued when already due always fails there. */
  lemma NearSleepPanics(s: State, until: nat, clock: nat -> nat, cpuTime: nat)
    requires Inv(s) && clock(0) + MIN_DELTA <= until && Due(until, clock(1))
    requires forall j: nat, k: nat :: j <= k ==> clock(j) <= clock(k)
    ensures NanoSleepUntil(s, until, clock, cpuTime) == Panic(AssertFailed)
  {
    hide Placed, WakeUpTasks, Enqueued, Turns;
    SleepFailsIff(s, until, clock);
  }

  // ---------------------------------------------------------------------------------------------
  // A worker that only yields keeps the machine from idling
  // ---------------------------------------------------------------------------------------------

  /** A round-robin thread that is running or ready. */
  ghost predicate Working(s: State, t: Tid) {
    t in s.threads && PQ_POLICIES <= s.threads[t].policy < POLICIES
      && (s.threads[t].status == Ready || s.threads[t].status == Running)
  }

  lemma WorkingIsQueued(s: State, ahead: Option<QueueId>, t: Tid)
    requires Placed(s, Mid(ahead, None)) && Working(s, t) && t != s.current
    ensures !NoRunnable(s)
  {
    hide NoDuplicates, AllFalse;
    assert QueueExact(s, Mid(ahead, None), RunQueue(3, 0)) && QueueExact(s, Mid(ahead, None), RunQueue(4, 0));
  }

  lemma WakeKeepsWorking(s: State, s': State, t: Tid)
    requires OnlyWakes(s, s') && Working(s, t)
    ensures Working(s', t)
  {
    hide Q;
  }

  lemma PassNeverIdle(s: State, mid: Mid, preempt: bool, status: Status, clock: nat -> nat, i: nat, cpuTime: nat,
                      t: Tid)
    requires Placed(s, mid) && Leaves(s, mid.ahead, status) && Working(s, t) && (t == s.current ==> status == Ready)
    ensures Pass(s, preempt, status, mid.limbo, clock, i, cpuTime) != Panic(IdleReached)
  {
    hide OnlyWakes, WakeUpTasks, Leaves, Q, Switched, NoneDue, WokenWhenDue, SleepTime, Working, NoRunnable;
    hide QueuesExact, AllFalse, Schedule, Popped;
    if WakeUpTasks(s, clock, i).Woken? && mid.limbo.None? && status != Ready {
      WakeUpExact(s, mid, clock, i);
      var w := WakeUpTasks(s, clock, i).s;
      WakeKeepsWorking(s, w, t);
      OnlyWakesKeys(s, w);
      WorkingIsQueued(w, mid.ahead, t);
      RunnableIs(w);
      ScheduleIs(w);
    }
  }

  lemma RunnableIs(s: State)
    ensures NoRunnable(s) <==> Q(s, RunQueue(3, 0)) == [] && Q(s, RunQueue(4, 0)) == []
  {
  }

  /** Before and after a change of the running thread: it stops, or another takes over. */
  ghost predicate Effect(s: State, s': State, t: Tid, status: Status, limbo: Option<Tid>) {
    && t in s.threads && t in s'.threads
    && var th := s.threads[t];
    && (s'.threads[t] == th
        || (t == s.current && s'.threads[t] == th.(status := status))
        || (t != s.current && s'.threads[t] == th.(status := Running)
            && (limbo == Some(t) || (th.status == Ready && th.policy >= PQ_POLICIES))))
  }

  lemma RescheduleEffect(s: State, ahead: Option<QueueId>, status: Status, sleepTime: nat, t: Tid)
    requires Placed(s, Mid(ahead, None)) && Leaves(s, ahead, status) && t in s.threads
    requires Reschedule(s, status, sleepTime).Done?
    ensures Effect(s, Reschedule(s, status, sleepTime).s, t, status, None)
  {
    hide QueuesExact, RunQueueOf, Q, Popped, Schedule, AllFalse, FlagsOk;
    ScheduleIs(s);
    if Q(s, RunQueue(3, 0)) != [] || Q(s, RunQueue(4, 0)) != [] {
      var id := if Q(s, RunQueue(3, 0)) != [] then RunQueue(3, 0) else RunQueue(4, 0);
      NotAhead(s, ahead, status, id);
      PopKeepsPlaced(s, ahead, id);
      PopFrame(s, id);
      RunQueueHoldsReady(s.threads[Q(s, id)[0]], id);
      RunQueuePolicy(s.threads[Q(s, id)[0]], id);
    }
  }

  /** What a completed pass does to a thread that is not asleep. */
  lemma PassEffect(s: State, mid: Mid, preempt: bool, status: Status, clock: nat -> nat, i: nat, cpuTime: nat, t: Tid)
    requires Placed(s, mid) && Leaves(s, mid.ahead, status) && t in s.threads
    requires mid.limbo.Some? ==> mid.limbo.value in s.threads
    requires Pass(s, preempt, status, mid.limbo, clock, i, cpuTime).Done? && s.threads[t].status != Sleeping
    ensures Effect(s, Pass(s, preempt, status, mid.limbo, clock, i, cpuTime).s, t, status, mid.limbo)
  {
    hide OnlyWakes, WakeUpTasks, Leaves, Q, NoneDue, WokenWhenDue, SleepTime, QueuesExact, AllFalse, Reschedule;
    hide RunQueueOf, PreemptTime;
    WakeUpExact(s, mid, clock, i);
    var w := WakeUpTasks(s, clock, i).s;
    WakeSpares(s, w, t);
    LeavesAfterWake(s, w, mid.ahead, status);
    var sleepTime := SleepTime(w, clock(WakeUpTasks(s, clock, i).looks));
    if mid.limbo.None? && Reschedule(w, status, sleepTime).Done? {
      RescheduleEffect(w, mid.ahead, status, sleepTime, t);
    }
  }

  lemma WakeSpares(s: State, s': State, t: Tid)
    requires OnlyWakes(s, s') && t in s.threads && s.threads[t].status != Sleeping
    ensures t in s'.threads && s'.threads[t] == s.threads[t] && s'.current == s.current
    ensures s'.threads.Keys == s.threads.Keys
  {
    hide Q;
  }

  lemma RunQueuePolicy(th: Thread, id: QueueId)
    requires Home(th) == Some(id) && id.RunQueue?
    ensures th.policy == id.policy
  {
  }

  /** The same for a whole step, of a thread that is ready or running and is not removed or spawned again. */
  lemma ApplyEffect(s: State, e: Step, t: Tid)
    requires Inv(s) && Enabled(s, e) && Apply(s, e).Done? && t in s.threads
    requires s.threads[t].status == Ready || s.threads[t].status == Running
    requires !(e.op.Remove? && e.op.t == t)
    ensures var th, s' := s.threads[t], Apply(s, e).s;
            && t in s'.threads && s'.threads[t].policy == th.policy && s'.threads[t].priority == th.priority
            && (s'.threads[t].status == th.status
                || (t == s.current && (e.op.Block? || e.op.Sleep? || e.op.Exit? || s'.threads[t].status == Ready))
                || (t != s.current && s'.threads[t].status == Running && th.policy >= PQ_POLICIES))
  {
    hide Placed, Pass, Moved, Enqueued, RunQueueOf, Q, ReleaseAll, Popped;
    SettledFacts(s);
    var cur := s.threads[s.current];
    match e.op
    case Spawn(u, policy, priority) => MovedFrame(s, u, Thread(Ready, policy, priority, 0, 0));
    case Block(w) =>
      EnqueuedKeepsPlaced(s, cur.(wq := w), WaitQueue(w));
      EnqueuedFrame(s, cur.(wq := w), WaitQueue(w));
      PassEffect(Enqueued(s, cur.(wq := w), WaitQueue(w)), Mid(Some(WaitQueue(w)), None), true, Blocked, e.clock, 0,
                 e.cpuTime, t);
    case Sleep(until) =>
      if !(until < e.clock(0) || until - e.clock(0) < MIN_DELTA) {
        EnqueuedKeepsPlaced(s, cur.(key := until), SleepQueue);
        EnqueuedFrame(s, cur.(key := until), SleepQueue);
        PassEffect(Enqueued(s, cur.(key := until), SleepQueue), Mid(Some(SleepQueue), None), true, Sleeping, e.clock,
                   1, e.cpuTime, t);
      }
    case Yield => PassEffect(s, SETTLED, true, Ready, e.clock, 0, e.cpuTime, t);
    case Timer => PassEffect(s, SETTLED, false, Ready, e.clock, 0, e.cpuTime, t);
    case Exit(status) => PassEffect(s, SETTLED, true, status, e.clock, 0, e.cpuTime, t);
    case Release(w) => ReleaseAllKeepsInv(s, w); NotWaiting(s, w, t);
    case ReleaseStep(w) =>
      if Q(s, WaitQueue(w)) != [] {
        PopKeepsPlaced(s, None, WaitQueue(w));
        FrontOfWaitQueue(s, w);
        PopFrame(s, WaitQueue(w));
        PassEffect(Popped(s, WaitQueue(w)), Mid(None, Some(Q(s, WaitQueue(w))[0])), false, Ready, e.clock, 0,
                   e.cpuTime, t);
      }
    case Remove(u, status) => MovedFrame(s, u, s.threads[u].(status := status));
  }

  lemma NotWaiting(s: State, w: nat, t: Tid)
    requires Inv(s) && t in s.threads && (s.threads[t].status == Ready || s.threads[t].status == Running)
    ensures t !in Q(s, WaitQueue(w))
  {
    hide NoDuplicates, AllFalse;
    assert QueueExact(s, SETTLED, WaitQueue(w));
  }

  lemma ApplyNeverIdle(s: State, e: Step, t: Tid)
    requires Inv(s) && Enabled(s, e) && Working(s, t) && (e.op.Block? || e.op.Sleep? || e.op.Exit? ==> t != s.current)
    ensures Apply(s, e) != Panic(IdleReached)
  {
    hide Placed, Pass, Moved, Enqueued, RunQueueOf, Q, ReleaseAll, Popped;
    SettledFacts(s);
    var cur := s.threads[s.current];
    match e.op
    case Block(w) =>
      EnqueuedKeepsPlaced(s, cur.(wq := w), WaitQueue(w));
      EnqueuedFrame(s, cur.(wq := w), WaitQueue(w));
      PassNeverIdle(Enqueued(s, cur.(wq := w), WaitQueue(w)), Mid(Some(WaitQueue(w)), None), true, Blocked, e.clock,
                    0, e.cpuTime, t);
    case Sleep(until) =>
      EnqueuedKeepsPlaced(s, cur.(key := until), SleepQueue);
      EnqueuedFrame(s, cur.(key := until), SleepQueue);
      PassNeverIdle(Enqueued(s, cur.(key := until), SleepQueue), Mid(Some(SleepQueue), None), true, Sleeping,
                    e.clock, 1, e.cpuTime, t);
    case Yield => PassNeverIdle(s, SETTLED, true, Ready, e.clock, 0, e.cpuTime, t);
    case Timer => PassNeverIdle(s, SETTLED, false, Ready, e.clock, 0, e.cpuTime, t);
    case Exit(status) => PassNeverIdle(s, SETTLED, true, status, e.clock, 0, e.cpuTime, t);
    case ReleaseStep(w) =>
      if Q(s, WaitQueue(w)) != [] {
        PopKeepsPlaced(s, None, WaitQueue(w));
        PopFrame(s, WaitQueue(w));
        PassNeverIdle(Popped(s, WaitQueue(w)), Mid(None, Some(Q(s, WaitQueue(w))[0])), false, Ready, e.clock, 0,
                      e.cpuTime, t);
      }
    case _ =>
  }

  // ---------------------------------------------------------------------------------------------
  // Every run
  // ---------------------------------------------------------------------------------------------

  ghost predicate IsRun(s: State, es: seq<Step>)
    decreases |es|
  {
    es == [] || (Enabled(s, es[0]) && (Apply(s, es[0]).Done? ==> IsRun(Apply(s, es[0]).s, es[1..])))
  }

  /** Runs until the end or the first panic. */
  ghost function Run(s: State, es: seq<Step>): Outcome
    requires IsRun(s, es)
    decreases |es|
  {
    if es == [] then Done(s, None)
    else match Apply(s, es[0])
      case Panic(why) => Panic(why)
      case Done(s', _) => Run(s', es[1..])
  }

  /** The machine after `ConvertToScheduling`, which can only have picked a round-robin thread. */
  function Booted(t: Tid, policy: nat, priority: nat): State
    requires PQ_POLICIES <= policy < POLICIES
  {
    State(map[t := Thread(Running, policy, priority, 0, 0)], t, map[],
          seq(PQ_POLICIES, _ => seq(MAX_PRIORITY, _ => false)))
  }

  lemma BootedInv(t: Tid, policy: nat, priority: nat)
    requires PQ_POLICIES <= policy < POLICIES
    ensures Inv(Booted(t, policy, priority))
  {
    var s := Booted(t, policy, priority);
    forall id ensures QueueExact(s, SETTLED, id) {}
  }

  lemma {:induction false} RunKeepsInv(s: State, es: seq<Step>)
    requires Inv(s) && IsRun(s, es) && Run(s, es).Done?
    ensures Inv(Run(s, es).s)
    decreases |es|
  {
    hide Inv, Apply, Enabled;
    if es != [] {
      ApplyKeepsInv(s, es[0]);
      RunKeepsInv(Apply(s, es[0]).s, es[1..]);
    }
  }

  /** The thread never blocks, sleeps or exits while it runs, and nobody removes it. */
  ghost predicate OnlyYields(s: State, es: seq<Step>, t: Tid)
    requires IsRun(s, es)
    decreases |es|
  {
    es == [] || (
      && (es[0].op.Block? || es[0].op.Sleep? || es[0].op.Exit? ==> t != s.current)
      && !(es[0].op.Remove? && es[0].op.t == t)
      && (Apply(s, es[0]).Done? ==> OnlyYields(Apply(s, es[0]).s, es[1..], t)))
  }

  /** With one round-robin thread that only ever yields, `Idle` is never reached in any run. */
  lemma {:induction false} WorkerPreventsIdle(s: State, es: seq<Step>, t: Tid)
    requires Inv(s) && IsRun(s, es) && Working(s, t) && OnlyYields(s, es, t)
    ensures Run(s, es) != Panic(IdleReached)
    decreases |es|
  {
    hide Inv, Apply, Enabled;
    if es != [] {
      ApplyNeverIdle(s, es[0], t);
      if Apply(s, es[0]).Done? {
        ApplyKeepsInv(s, es[0]);
        ApplyEffect(s, es[0], t);
        WorkerPreventsIdle(Apply(s, es[0]).s, es[1..], t);
      }
    }
  }

  /** A ready or running thread of the policy that only ever yields keeps every run from idling. */
  ghost predicate PreventsIdle(policy: nat) {
    forall s: State, es: seq<Step>, t: Tid ::
      Inv(s) && IsRun(s, es) && Alive(s, t) && s.threads[t].policy == policy && OnlyYields(s, es, t)
      ==> Run(s, es) != Panic(IdleReached)
  }

  ghost predicate Alive(s: State, t: Tid) {
    t in s.threads && (s.threads[t].status == Ready || s.threads[t].status == Running)
  }

  const ZERO_CLOCK: nat -> nat := _ => 0

  /** A machine with a running round-robin thread and a ready thread of another policy. */
  function WithReady(policy: nat): State { Moved(Booted(0, 3, 0), 1, Thread(Ready, policy, 0, 0, 0)) }

  /** The round-robin thread exits: the machine idles although a priority thread is ready. */
  lemma PriorityWorkerIdles(policy: nat)
    requires policy < PQ_POLICIES
    ensures var s, es := WithReady(policy), [Step(Exit(Terminated), ZERO_CLOCK, 0)];
            && Apply(Booted(0, 3, 0), Step(Spawn(1, policy, 0), ZERO_CLOCK, 0)) == Done(s, None)
            && Inv(s) && IsRun(s, es) && Alive(s, 1) && s.threads[1].policy == policy && OnlyYields(s, es, 1)
            && Run(s, es) == Panic(IdleReached)
  {
    var s, e := WithReady(policy), Step(Exit(Terminated), ZERO_CLOCK, 0);
    BootedInv(0, 3, 0);
    MovedKeepsPlaced(Booted(0, 3, 0), SETTLED, 1, Thread(Ready, policy, 0, 0, 0));
    ScheduleIs(s);
    assert WakeUpTasks(s, ZERO_CLOCK, 0) == Woken(s, 0, false);
    assert Apply(s, e) == Panic(IdleReached);
  }

  /** Exactly the round-robin policies keep the machine from idling. */
  lemma PreventsIdleIff(policy: nat)
    requires policy < POLICIES
    ensures PreventsIdle(policy) <==> policy >= PQ_POLICIES
  {
    hide Inv, Apply, Enabled, IsRun, Run, OnlyYields, WithReady;
    if policy < PQ_POLICIES {
      PriorityWorkerIdles(policy);
    } else {
      forall s: State, es: seq<Step>, t: Tid
        | Inv(s) && IsRun(s, es) && Alive(s, t) && s.threads[t].policy == policy && OnlyYields(s, es, t)
        ensures Run(s, es) != Panic(IdleReached)
      {
        WorkerPreventsIdle(s, es, t);
      }
    }
  }

  ghost predicate NeverRemoved(es: seq<Step>, t: Tid) {
    forall i :: 0 <= i < |es| ==> !(es[i].op.Remove? && es[i].op.t == t)
  }

  /** A ready thread of a priority policy never runs again: it stays ready until it is removed. */
  lemma {:induction false} PriorityThreadsStarve(s: State, es: seq<Step>, t: Tid)
    requires Inv(s) && IsRun(s, es) && NeverRemoved(es, t) && Run(s, es).Done?
    requires t in s.threads && s.threads[t].status == Ready && s.threads[t].policy < PQ_POLICIES
    ensures var s' := Run(s, es).s; t in s'.threads && s'.threads[t].status == Ready
    decreases |es|
  {
    hide Apply, Enabled, QueuesExact, AllFalse;
    if es != [] {
      assert !(es[0].op.Remove? && es[0].op.t == t);
      ApplyKeepsInv(s, es[0]);
      ApplyEffect(s, es[0], t);
      PriorityThreadsStarve(Apply(s, es[0]).s, es[1..], t);
    }
  }
}
