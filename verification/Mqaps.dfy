/**
 Multi-queue adaptive priority scheduling (`MQAPSPolicy`): a ready queue for priorities above the
 threshold, a secondary queue for the others, and running sums from which the time quantum is taken.

 Each of the two queues is represented by the threads in it in order of arrival, under the contract of
 a priority queue: the oldest thread of the highest priority comes out.
 */
module Mqaps {
  import opened Basics
  import opened Bits
  import BitmapQueue

  const MAX_PRIORITY: nat := 5
  const THRESHOLD: nat := 2
  const DEFAULT_TQ: nat := 10_000_000
  const MIN_BURST: nat := 1_000_000

  /** The scheduling fields of a thread. */
  datatype Info = Info(priority: nat, avgBurst: nat, lastBurst: nat)

  /** One queue with the statistics kept about it. */
  datatype Level = Level(queue: seq<Tid>, sum: nat, count: nat)

  datatype State = State(rq: Level, sq: Level, info: map<Tid, Info>)

  function Burst(i: Info): nat { if i.avgBurst == 0 then DEFAULT_TQ else i.avgBurst }

  // ---------------------------------------------------------------------------------------------
  // The operations
  // ---------------------------------------------------------------------------------------------

  ghost predicate Known(info: map<Tid, Info>, q: seq<Tid>) { forall i :: 0 <= i < |q| ==> q[i] in info }

  /** The position of the oldest thread of the highest priority. */
  function BestAt(info: map<Tid, Info>, q: seq<Tid>): (k: nat)
    requires q != [] && Known(info, q)
    ensures k < |q|
    ensures forall i :: 0 <= i < |q| ==> info[q[i]].priority <= info[q[k]].priority
    ensures forall i :: 0 <= i < k ==> info[q[i]].priority < info[q[k]].priority
  {
    var n := |q| - 1;
    if n == 0 then 0
    else
      var k := BestAt(info, q[..n]);
      assert forall i :: 0 <= i < n ==> q[i] == q[..n][i];
      if info[q[n]].priority > info[q[k]].priority then n else k
  }

  function Without(q: seq<Tid>, k: nat): seq<Tid>
    requires k < |q|
  {
    q[..k] + q[k + 1..]
  }

  /** `UpdateStats`: the sum wraps like a 64-bit word, and a removal is guarded by the count. */
  function Counted(sum: nat, count: nat, burst: nat, add: bool): (nat, nat) {
    if add then ((sum + burst) % WORD, count + 1)
    else if count > 0 then ((sum - burst) % WORD, count - 1)
    else (sum, count)
  }

  function Add(l: Level, t: Tid, burst: nat): Level {
    var (sum, count) := Counted(l.sum, l.count, burst, true);
    Level(l.queue + [t], sum, count)
  }

  function Take(l: Level, k: nat, burst: nat): Level
    requires k < |l.queue|
  {
    var (sum, count) := Counted(l.sum, l.count, burst, false);
    Level(Without(l.queue, k), sum, count)
  }

  function AddTask(s: State, t: Tid): State
    requires t in s.info
  {
    if s.info[t].priority > THRESHOLD then s.(rq := Add(s.rq, t, Burst(s.info[t])))
    else s.(sq := Add(s.sq, t, Burst(s.info[t])))
  }

  function PickNextTask(s: State): (State, Option<Tid>)
    requires Known(s.info, s.rq.queue) && Known(s.info, s.sq.queue)
  {
    if s.rq.queue != [] then
      var k := BestAt(s.info, s.rq.queue);
      (s.(rq := Take(s.rq, k, Burst(s.info[s.rq.queue[k]]))), Some(s.rq.queue[k]))
    else if s.sq.queue != [] then
      var k := BestAt(s.info, s.sq.queue);
      (s.(sq := Take(s.sq, k, Burst(s.info[s.sq.queue[k]]))), Some(s.sq.queue[k]))
    else (s, None)
  }

  function LevelOf(s: State, i: Info): Level { if i.priority > THRESHOLD then s.rq else s.sq }

  function CalculateTQ(s: State, i: Info): nat {
    var l := LevelOf(s, i);
    if l.count == 0 then Burst(i) else l.sum / l.count
  }

  /** `UpdateThreadBurst`: a moving average, never below one millisecond. */
  function WithBurst(i: Info, burst: nat): Info {
    var avg := if i.avgBurst == 0 then burst else (i.avgBurst + burst) % WORD / 2;
    Info(i.priority, if avg < MIN_BURST then MIN_BURST else avg, burst)
  }

  /** `OnThreadQuantumExpired`. */
  function Expired(i: Info, burst: nat): Info {
    WithBurst(if i.priority > 1 then i.(priority := i.priority - 1) else i, burst)
  }

  /** `GetPreemptTime` of a thread that is not queued. */
  function GetPreemptTime(s: State, t: Tid, running: bool, cpuTime: nat): (State, nat)
    requires t in s.info
  {
    var tq := CalculateTQ(s, s.info[t]);
    if !running then (s, tq)
    else if cpuTime >= tq then (s.(info := s.info[t := Expired(s.info[t], cpuTime)]), 0)
    else (s, tq - cpuTime)
  }

  datatype Op =
    | Spawn(t: Tid, priority: nat)
    | AddReady(t: Tid)
    | Pick
    | Preempt(t: Tid, running: bool, cpuTime: nat)
    | Yield(t: Tid, cpuTime: nat)

  ghost predicate Queued(s: State, t: Tid) { t in s.rq.queue || t in s.sq.queue }

  ghost predicate Enabled(s: State, op: Op) {
    match op
    case Spawn(t, priority) => t !in s.info && priority < MAX_PRIORITY
    case AddReady(t) => t in s.info && !Queued(s, t)
    case Pick => Known(s.info, s.rq.queue) && Known(s.info, s.sq.queue)
    case Preempt(t, running, _) => t in s.info && (running ==> !Queued(s, t))
    case Yield(t, _) => t in s.info && !Queued(s, t)
  }

  ghost function Apply(s: State, op: Op): State
    requires Enabled(s, op)
  {
    match op
    case Spawn(t, priority) => s.(info := s.info[t := Info(priority, 0, 0)])
    case AddReady(t) => AddTask(s, t)
    case Pick => PickNextTask(s).0
    case Preempt(t, running, cpuTime) => GetPreemptTime(s, t, running, cpuTime).0
    case Yield(t, cpuTime) => s.(info := s.info[t := WithBurst(s.info[t], cpuTime)])
  }

  // ---------------------------------------------------------------------------------------------
  // Sums over a queue
  // ---------------------------------------------------------------------------------------------

  function BurstSum(info: map<Tid, Info>, q: seq<Tid>): nat
    requires Known(info, q)
  {
    if q == [] then 0 else BurstSum(info, q[..|q| - 1]) + Burst(info[q[|q| - 1]])
  }

  lemma {:induction false} SumWithout(info: map<Tid, Info>, q: seq<Tid>, k: nat)
    requires Known(info, q) && k < |q|
    ensures BurstSum(info, q) == BurstSum(info, Without(q, k)) + Burst(info[q[k]])
  {
    var n := |q| - 1;
    if k == n {
      assert Without(q, k) == q[..n];
    } else {
      SumWithout(info, q[..n], k);
      assert Without(q, k)[..n - 1] == Without(q[..n], k);
    }
  }

  lemma SumAppend(info: map<Tid, Info>, q: seq<Tid>, t: Tid)
    requires Known(info, q) && t in info
    ensures BurstSum(info, q + [t]) == BurstSum(info, q) + Burst(info[t])
  {
    assert (q + [t])[..|q|] == q;
  }

  /** The sum does not depend on threads that are not queued. */
  lemma {:induction false} SumElsewhere(info: map<Tid, Info>, q: seq<Tid>, t: Tid, i: Info)
    requires Known(info, q) && t !in q
    ensures Known(info[t := i], q) && BurstSum(info[t := i], q) == BurstSum(info, q)
  {
    if q != [] { SumElsewhere(info, q[..|q| - 1], t, i); }
  }

  lemma {:induction false} SumBounds(info: map<Tid, Info>, q: seq<Tid>, lo: nat, hi: nat)
    requires Known(info, q) && forall i :: 0 <= i < |q| ==> lo <= Burst(info[q[i]]) <= hi
    ensures |q| * lo <= BurstSum(info, q) <= |q| * hi
  {
    hide Burst;
    if q != [] {
      var n := |q| - 1;
      SumBounds(info, q[..n], lo, hi);
      MulStep(n, lo);
      MulStep(n, hi);
    }
  }

  lemma MulStep(n: nat, x: nat)
    ensures (n + 1) * x == n * x + x
  {
  }

  // ---------------------------------------------------------------------------------------------
  // What every run keeps
  // ---------------------------------------------------------------------------------------------

  ghost predicate LevelOk(info: map<Tid, Info>, l: Level, high: bool) {
    && Known(info, l.queue)
    && NoDuplicates(l.queue)
    && (forall i :: 0 <= i < |l.queue| ==> (info[l.queue[i]].priority > THRESHOLD <==> high))
    && l.sum == BurstSum(info, l.queue) % WORD && l.count == |l.queue|
  }

  ghost predicate InfoOk(info: map<Tid, Info>) {
    forall t :: t in info ==>
                  info[t].priority < MAX_PRIORITY && (info[t].avgBurst == 0 || info[t].avgBurst >= MIN_BURST)
  }

  ghost predicate Inv(s: State) { LevelOk(s.info, s.rq, true) && LevelOk(s.info, s.sq, false) && InfoOk(s.info) }

  lemma AddKeepsLevel(info: map<Tid, Info>, l: Level, high: bool, t: Tid)
    requires LevelOk(info, l, high) && t in info && t !in l.queue && (info[t].priority > THRESHOLD <==> high)
    ensures LevelOk(info, Add(l, t, Burst(info[t])), high)
  {
    hide BurstSum;
    SumAppend(info, l.queue, t);
    AddWraps(BurstSum(info, l.queue), Burst(info[t]));
  }

  lemma AddWraps(a: nat, b: nat)
    ensures (a % WORD + b) % WORD == (a + b) % WORD
  {
  }

  lemma SubWraps(a: nat, b: nat)
    ensures ((a + b) % WORD - b) % WORD == a % WORD
  {
  }

  lemma TakeKeepsLevel(info: map<Tid, Info>, l: Level, high: bool, k: nat)
    requires LevelOk(info, l, high) && k < |l.queue|
    ensures LevelOk(info, Take(l, k, Burst(info[l.queue[k]])), high)
    ensures l.queue[k] !in Take(l, k, Burst(info[l.queue[k]])).queue
  {
    hide BurstSum;
    SumWithout(info, l.queue, k);
    SubWraps(BurstSum(info, Without(l.queue, k)), Burst(info[l.queue[k]]));
  }

  /** The stored sum is exact exactly below 2^64 in all, and taking a thread out then does not underflow. */
  lemma NoUnderflow(info: map<Tid, Info>, l: Level, high: bool, k: nat)
    requires LevelOk(info, l, high) && k < |l.queue|
    ensures l.sum == BurstSum(info, l.queue) <==> BurstSum(info, l.queue) < WORD
    ensures BurstSum(info, l.queue) < WORD ==> l.sum >= Burst(info[l.queue[k]])
    ensures l.count > 0
  {
    SumWithout(info, l.queue, k);
  }

  lemma ChangeElsewhereKeepsLevel(info: map<Tid, Info>, l: Level, high: bool, t: Tid, i: Info)
    requires LevelOk(info, l, high) && t !in l.queue
    ensures LevelOk(info[t := i], l, high)
  {
    hide BurstSum;
    SumElsewhere(info, l.queue, t, i);
  }

  lemma ChangeKeepsInv(s: State, t: Tid, i: Info)
    requires Inv(s) && !Queued(s, t) && i.priority < MAX_PRIORITY && (i.avgBurst == 0 || i.avgBurst >= MIN_BURST)
    ensures Inv(s.(info := s.info[t := i]))
  {
    hide LevelOk;
    ChangeElsewhereKeepsLevel(s.info, s.rq, true, t, i);
    ChangeElsewhereKeepsLevel(s.info, s.sq, false, t, i);
  }

  lemma UnknownIsNotQueued(s: State, t: Tid)
    requires Inv(s) && t !in s.info
    ensures !Queued(s, t)
  {
  }

  lemma ApplyKeepsInv(s: State, op: Op)
    requires Inv(s) && Enabled(s, op)
    ensures Inv(Apply(s, op))
  {
    hide LevelOk, Known;
    match op
    case Spawn(t, priority) =>
      UnknownIsNotQueued(s, t);
      ChangeKeepsInv(s, t, Info(priority, 0, 0));
    case AddReady(t) =>
      if s.info[t].priority > THRESHOLD {
        AddKeepsLevel(s.info, s.rq, true, t);
      } else {
        AddKeepsLevel(s.info, s.sq, false, t);
      }
    case Pick =>
      if s.rq.queue != [] { TakeKeepsLevel(s.info, s.rq, true, BestAt(s.info, s.rq.queue)); }
      else if s.sq.queue != [] { TakeKeepsLevel(s.info, s.sq, false, BestAt(s.info, s.sq.queue)); }
    case Preempt(t, running, cpuTime) =>
      if running && cpuTime >= CalculateTQ(s, s.info[t]) { ChangeKeepsInv(s, t, Expired(s.info[t], cpuTime)); }
    case Yield(t, cpuTime) =>
      ChangeKeepsInv(s, t, WithBurst(s.info[t], cpuTime));
  }

  ghost predicate IsRun(s: State, ops: seq<Op>)
    decreases |ops|
  {
    ops == [] || (Enabled(s, ops[0]) && IsRun(Apply(s, ops[0]), ops[1..]))
  }

  ghost function Run(s: State, ops: seq<Op>): State
    requires IsRun(s, ops)
    decreases |ops|
  {
    if ops == [] then s else Run(Apply(s, ops[0]), ops[1..])
  }

  const EMPTY: State := State(Level([], 0, 0), Level([], 0, 0), map[])

  lemma {:induction false} RunKeepsInv(s: State, ops: seq<Op>)
    requires Inv(s) && IsRun(s, ops)
    ensures Inv(Run(s, ops))
    decreases |ops|
  {
    hide Inv, Apply, Enabled;
    if ops != [] {
      ApplyKeepsInv(s, ops[0]);
      RunKeepsInv(Apply(s, ops[0]), ops[1..]);
    }
  }

  /**
   The quantum lies between the least and the greatest burst in the thread's queue, or is the thread's
   own burst when that queue is empty, and is at least one millisecond.
   */
  lemma QuantumBounds(s: State, t: Tid, lo: nat, hi: nat)
    requires Inv(s) && t in s.info
    requires var l := LevelOf(s, s.info[t]);
             && Known(s.info, l.queue) && BurstSum(s.info, l.queue) < WORD
             && (forall i :: 0 <= i < |l.queue| ==> lo <= Burst(s.info[l.queue[i]]) <= hi)
    ensures CalculateTQ(s, s.info[t]) >= MIN_BURST
    ensures LevelOf(s, s.info[t]).queue != [] ==> lo <= CalculateTQ(s, s.info[t]) <= hi
    ensures LevelOf(s, s.info[t]).queue == [] ==> CalculateTQ(s, s.info[t]) == Burst(s.info[t])
  {
    hide BurstSum, LevelOk;
    var l := LevelOf(s, s.info[t]);
    LevelExact(s.info, l, s.info[t].priority > THRESHOLD);
    if l.queue != [] {
      SumBounds(s.info, l.queue, lo, hi);
      SumBounds(s.info, l.queue, MIN_BURST, hi);
      QuotientBounds(BurstSum(s.info, l.queue), |l.queue|, lo, hi);
      QuotientBounds(BurstSum(s.info, l.queue), |l.queue|, MIN_BURST, hi);
    }
  }

  /** The quantum is the mean burst of the queue exactly when the bursts add up to less than 2^64. */
  lemma QuantumIsMeanIff(s: State, t: Tid)
    requires Inv(s) && t in s.info && 0 < |LevelOf(s, s.info[t]).queue| <= WORD
    ensures var q := LevelOf(s, s.info[t]).queue;
            && Known(s.info, q)
            && (CalculateTQ(s, s.info[t]) == BurstSum(s.info, q) / |q| <==> BurstSum(s.info, q) < WORD)
  {
    hide BurstSum;
    WrappedQuotient(BurstSum(s.info, LevelOf(s, s.info[t]).queue), |LevelOf(s, s.info[t]).queue|);
  }

  lemma WrappedQuotient(a: nat, n: nat)
    requires 0 < n <= WORD
    ensures a % WORD / n == a / n <==> a < WORD
  {
    if a >= WORD {
      var r := a % WORD;
      assert r + WORD <= a;
      QuotientGrows(r, a, n);
    }
  }

  lemma QuotientGrows(r: nat, a: nat, n: nat)
    requires 0 < n && r + n <= a
    ensures r / n < a / n
  {
    var q := r / n;
    assert n * (q + 1) == n * q + n;
    if a / n <= q {
      MulMonotone(n, a / n, q);
    }
  }

  lemma {:induction false} RunSnoc(s: State, ops: seq<Op>, op: Op)
    requires IsRun(s, ops) && Enabled(Run(s, ops), op)
    ensures IsRun(s, ops + [op]) && Run(s, ops + [op]) == Apply(Run(s, ops), op)
    decreases |ops|
  {
    hide Apply, Enabled;
    if ops == [] {
      assert ops + [op] == [op];
      assert IsRun(Apply(s, op), []);
    } else {
      assert (ops + [op])[1..] == ops[1..] + [op];
      RunSnoc(Apply(s, ops[0]), ops[1..], op);
    }
  }

  const HALF: nat := 0x8000_0000_0000_0000

  const LONG: Info := Info(MAX_PRIORITY - 1, HALF, HALF)

  /** One thread is spawned, runs for 2^63 nanoseconds, yields and is queued. */
  function LongOps(t: Tid): seq<Op> { [Spawn(t, MAX_PRIORITY - 1), Yield(t, HALF), AddReady(t)] }

  lemma LongRun(ops: seq<Op>, s: State, t: Tid)
    requires IsRun(EMPTY, ops) && Run(EMPTY, ops) == s && t !in s.info && !Queued(s, t)
    ensures IsRun(EMPTY, ops + LongOps(t))
    ensures Run(EMPTY, ops + LongOps(t)) == s.(info := s.info[t := LONG], rq := Add(s.rq, t, HALF))
  {
    hide IsRun, Run, Add;
    var s1 := s.(info := s.info[t := Info(MAX_PRIORITY - 1, 0, 0)]);
    var s2 := s.(info := s.info[t := LONG]);
    RunSnoc(EMPTY, ops, Spawn(t, MAX_PRIORITY - 1));
    RunSnoc(EMPTY, ops + [Spawn(t, MAX_PRIORITY - 1)], Yield(t, HALF));
    assert s1.info[t := LONG] == s2.info;
    RunSnoc(EMPTY, ops + [Spawn(t, MAX_PRIORITY - 1)] + [Yield(t, HALF)], AddReady(t));
    assert ops + [Spawn(t, MAX_PRIORITY - 1)] + [Yield(t, HALF)] + [AddReady(t)] == ops + LongOps(t);
  }

  /** Two bursts of 2^63 leave a quantum of zero. */
  lemma WrappedQuantum()
    ensures var s := State(Level([0, 1], 0, 2), Level([], 0, 0), map[0 := LONG, 1 := LONG]);
            && IsRun(EMPTY, LongOps(0) + LongOps(1)) && Run(EMPTY, LongOps(0) + LongOps(1)) == s
            && CalculateTQ(s, LONG) == 0 < MIN_BURST
  {
    hide IsRun, Run;
    assert IsRun(EMPTY, []) && Run(EMPTY, []) == EMPTY by { EmptyRun(); }
    LongRun([], EMPTY, 0);
    assert [] + LongOps(0) == LongOps(0);
    var s := State(Level([0], HALF, 1), Level([], 0, 0), map[0 := LONG]);
    assert Add(EMPTY.rq, 0, HALF) == s.rq && EMPTY.info[0 := LONG] == s.info;
    LongRun(LongOps(0), s, 1);
    assert Add(s.rq, 1, HALF) == Level([0, 1], 0, 2) && s.info[1 := LONG] == map[0 := LONG, 1 := LONG];
  }

  lemma EmptyRun()
    ensures IsRun(EMPTY, []) && Run(EMPTY, []) == EMPTY
  {
  }

  lemma LevelExact(info: map<Tid, Info>, l: Level, high: bool)
    requires LevelOk(info, l, high) && BurstSum(info, l.queue) < WORD
    ensures l.sum == BurstSum(info, l.queue) && l.count == |l.queue|
  {
  }

  lemma QuotientBounds(a: nat, n: nat, lo: nat, hi: nat)
    requires n > 0 && n * lo <= a <= n * hi
    ensures lo <= a / n <= hi
  {
    var q := a / n;
    assert a == n * q + a % n;
    MulMonotone(n, q + 1, lo);
    MulMonotone(n, hi + 1, q);
  }

  /** What is picked has the highest priority of all queued threads, oldest first; none only if none is queued. */
  lemma PickIsHighest(s: State, t: Tid)
    requires Inv(s)
    ensures PickNextTask(s).1.None? <==> s.rq.queue == [] && s.sq.queue == []
    ensures PickNextTask(s).1.Some? ==> Queued(s, PickNextTask(s).1.value)
    ensures PickNextTask(s).1.Some? && Queued(s, t) ==> s.info[t].priority <= s.info[PickNextTask(s).1.value].priority
    ensures PickNextTask(s).1.Some? && Queued(s, t) ==>
              (Queued(PickNextTask(s).0, t) <==> t != PickNextTask(s).1.value)
  {
    hide BurstSum;
    var rq, sq := s.rq.queue, s.sq.queue;
    var q := if rq != [] then rq else sq;
    if q != [] {
      var k := BestAt(s.info, q);
      TakeKeepsLevel(s.info, if rq != [] then s.rq else s.sq, rq != [], k);
      assert t in q && t != q[k] ==> t in Without(q, k);
    }
  }

  /** A thread joins the end of the ready queue above priority 2, of the secondary queue otherwise. */
  lemma AddJoinsItsQueue(s: State, t: Tid)
    requires t in s.info
    ensures var s' := AddTask(s, t);
            && s'.info == s.info
            && s'.rq.queue == s.rq.queue + (if s.info[t].priority > 2 then [t] else [])
            && s'.sq.queue == s.sq.queue + (if s.info[t].priority > 2 then [] else [t])
  {
  }

  /** Over every step a thread is queued exactly if it is added, or was queued and is not picked. */
  lemma QueuedStepIff(s: State, op: Op, t: Tid)
    requires Inv(s) && Enabled(s, op)
    ensures Queued(Apply(s, op), t) <==>
            op == AddReady(t) || (Queued(s, t) && !(op.Pick? && PickNextTask(s).1 == Some(t)))
  {
    hide LevelOk, PickNextTask, AddTask;
    match op
    case AddReady(u) => AddJoinsItsQueue(s, u);
    case Pick =>
      PickIsHighest(s, t);
      if Queued(PickNextTask(s).0, t) { PickAddsNobody(s, t); }
    case _ =>
  }

  lemma PickAddsNobody(s: State, t: Tid)
    requires Inv(s) && Queued(PickNextTask(s).0, t)
    ensures Queued(s, t) && PickNextTask(s).1.Some?
  {
    hide BurstSum, NoDuplicates;
  }

  /** The policy from its construction on: exact statistics and global priority order, whatever the run. */
  lemma EveryRunIsExact(ops: seq<Op>, t: Tid)
    requires IsRun(EMPTY, ops)
    ensures var s := Run(EMPTY, ops);
            && Inv(s)
            && (PickNextTask(s).1.Some? && Queued(s, t) ==>
                  s.info[t].priority <= s.info[PickNextTask(s).1.value].priority)
  {
    hide IsRun, Run, PickNextTask;
    RunKeepsInv(EMPTY, ops);
    PickIsHighest(Run(EMPTY, ops), t);
  }

  // ---------------------------------------------------------------------------------------------
  // How bursts and priorities adapt
  // ---------------------------------------------------------------------------------------------

  /**
   The average after a burst: the first burst itself, later the midpoint of average and burst rounded
   down, and never less than one millisecond.  The midpoint is right exactly while the two add up to
   less than 2^64.
   */
  lemma AverageIsMidpoint(i: Info, burst: nat)
    requires burst < 0x1_0000_0000_0000_0000
    ensures var r := WithBurst(i, burst);
            && r.priority == i.priority && r.lastBurst == burst && r.avgBurst >= 1_000_000
            && (i.avgBurst == 0 ==> r.avgBurst == if burst < 1_000_000 then 1_000_000 else burst)
            && (i.avgBurst >= 1_000_000 && i.avgBurst + burst < 0x1_0000_0000_0000_0000 ==>
                  (r.avgBurst == 1_000_000 && i.avgBurst + burst < 2_000_000)
                  || 2 * r.avgBurst <= i.avgBurst + burst <= 2 * r.avgBurst + 1)
            && (0x1_0000_0000_0000_0000 <= i.avgBurst + burst && 0 < i.avgBurst < 0x1_0000_0000_0000_0000 ==>
                  2 * r.avgBurst + 1 < i.avgBurst + burst)
  {
  }

  function AfterBursts(i: Info, burst: nat, n: nat): Info
    decreases n
  {
    if n == 0 then i else AfterBursts(WithBurst(i, burst), burst, n - 1)
  }

  /** Under a constant burst the average comes as close as one nanosecond, the distance halving each time. */
  lemma {:induction false} AverageConverges(i: Info, burst: nat, n: nat)
    requires 1_000_000 <= i.avgBurst < HALF && 1_000_000 <= burst < HALF
    requires burst <= i.avgBurst + Pow2(n) && i.avgBurst < burst + Pow2(n)
    ensures burst - 1 <= AfterBursts(i, burst, n).avgBurst <= burst
    decreases n
  {
    if n > 0 { AverageConverges(WithBurst(i, burst), burst, n - 1); }
  }

  /** The steps of a run in which the running thread has used up its quantum. */
  ghost function Expiries(s: State, ops: seq<Op>, t: Tid): nat
    requires IsRun(s, ops)
    decreases |ops|
  {
    if ops == [] then 0
    else
      var expires := match ops[0]
        case Preempt(u, running, cpuTime) => u == t && running && cpuTime >= CalculateTQ(s, s.info[u])
        case _ => false;
      (if expires then 1 else 0) + Expiries(Apply(s, ops[0]), ops[1..], t)
  }

  /** Over every run a thread's priority falls by one with each used-up quantum, down to one, and never rises. */
  lemma {:induction false} PriorityFallsWithExpiries(s: State, ops: seq<Op>, t: Tid)
    requires IsRun(s, ops) && t in s.info
    ensures t in Run(s, ops).info
    ensures var p, n := s.info[t].priority, Expiries(s, ops, t);
            Run(s, ops).info[t].priority == if p <= 1 then p else if n < p then p - n else 1
    decreases |ops|
  {
    hide CalculateTQ, PickNextTask, AddTask;
    if ops != [] {
      InfoKept(s, ops[0], t);
      PriorityFallsWithExpiries(Apply(s, ops[0]), ops[1..], t);
    }
  }

  lemma InfoKept(s: State, op: Op, t: Tid)
    requires Enabled(s, op) && t in s.info
    ensures var s', p := Apply(s, op), s.info[t].priority;
            && t in s'.info
            && s'.info[t].priority ==
               if op.Preempt? && op.t == t && op.running && op.cpuTime >= CalculateTQ(s, s.info[t]) && p > 1
               then p - 1 else p
  {
    hide CalculateTQ;
  }

  /**
   A waiting thread is told its whole quantum.  A running one is told what is left of it, and zero exactly
   when it has used it up, which changes that thread's record and nothing else.
   */
  lemma PreemptTimeIsRest(s: State, t: Tid, running: bool, cpuTime: nat)
    requires t in s.info
    ensures var (s', r) := GetPreemptTime(s, t, running, cpuTime);
            var tq := CalculateTQ(s, s.info[t]);
            && (!running ==> r == tq) && (running ==> r == if cpuTime < tq then tq - cpuTime else 0)
            && (!running || cpuTime < tq ==> s' == s)
            && (running && tq <= cpuTime ==>
                  s'.rq == s.rq && s'.sq == s.sq && s'.info.Keys == s.info.Keys && s'.info[t].lastBurst == cpuTime)
            && (forall u :: u in s.info && u != t ==> u in s'.info && s'.info[u] == s.info[u])
  {
    hide CalculateTQ;
  }

  // ---------------------------------------------------------------------------------------------
  // On the queue that is built in
  // ---------------------------------------------------------------------------------------------

  datatype Source = ReadyQueue | SecondaryQueue | Nothing

  /** The queue `PickNextTask` turns to. */
  function PickSource(rq: BitmapQueue.Queue, sq: BitmapQueue.Queue): Source {
    if !BitmapQueue.IsEmpty(rq) then ReadyQueue else if !BitmapQueue.IsEmpty(sq) then SecondaryQueue else Nothing
  }

  /** The queue it should turn to, by what the queues hold. */
  ghost function RightSource(rq: BitmapQueue.Queue, sq: BitmapQueue.Queue): Source {
    if !BitmapQueue.HoldsNothing(rq) then ReadyQueue
    else if !BitmapQueue.HoldsNothing(sq) then SecondaryQueue else Nothing
  }

  /**
   The bitmap queue always reports itself empty, so over it the policy never picks a thread: it turns
   to the right queue exactly while no thread is queued.
   */
  lemma BuiltInQueuePicksNothing(rqOps: seq<BitmapQueue.Op>, sqOps: seq<BitmapQueue.Op>)
    requires BitmapQueue.IsRun(BitmapQueue.Empty(MAX_PRIORITY), rqOps)
    requires BitmapQueue.IsRun(BitmapQueue.Empty(MAX_PRIORITY), sqOps)
    ensures var rq := BitmapQueue.Run(BitmapQueue.Empty(MAX_PRIORITY), rqOps);
            var sq := BitmapQueue.Run(BitmapQueue.Empty(MAX_PRIORITY), sqOps);
            && PickSource(rq, sq) == Nothing
            && (PickSource(rq, sq) == RightSource(rq, sq)
                <==> BitmapQueue.HoldsNothing(rq) && BitmapQueue.HoldsNothing(sq))
  {
    BitmapQueue.DeleteMinRightIffNothingQueued(MAX_PRIORITY, rqOps);
    BitmapQueue.DeleteMinRightIffNothingQueued(MAX_PRIORITY, sqOps);
  }

  // ---------------------------------------------------------------------------------------------
  // The policy object
  // ---------------------------------------------------------------------------------------------

  class Policy {
    var rq: seq<Tid>
    var sq: seq<Tid>
    var rqSum: nat
    var rqCount: nat
    var sqSum: nat
    var sqCount: nat
    var info: map<Tid, Info>

    ghost function Now(): State
      reads this
    {
      State(Level(rq, rqSum, rqCount), Level(sq, sqSum, sqCount), info)
    }

    constructor ()
      ensures Now() == EMPTY && Inv(Now())
    {
      rq, sq, rqSum, rqCount, sqSum, sqCount, info := [], [], 0, 0, 0, 0, map[];
    }

    method UpdateStats(t: Tid, isRq: bool, add: bool)
      requires t in info
      modifies this`rqSum, this`rqCount, this`sqSum, this`sqCount
      ensures (rqSum, rqCount)
              == if isRq then Counted(old(rqSum), old(rqCount), Burst(info[t]), add) else old((rqSum, rqCount))
      ensures (sqSum, sqCount)
              == if isRq then old((sqSum, sqCount)) else Counted(old(sqSum), old(sqCount), Burst(info[t]), add)
    {
      var burst := if info[t].avgBurst == 0 then DEFAULT_TQ else info[t].avgBurst;
      if isRq {
        if add {
          rqSum, rqCount := (rqSum + burst) % WORD, rqCount + 1;
        } else if rqCount > 0 {
          rqSum, rqCount := (rqSum - burst) % WORD, rqCount - 1;
        }
      } else {
        if add {
          sqSum, sqCount := (sqSum + burst) % WORD, sqCount + 1;
        } else if sqCount > 0 {
          sqSum, sqCount := (sqSum - burst) % WORD, sqCount - 1;
        }
      }
    }

    method Add(t: Tid)
      requires Inv(Now()) && t in info && !Queued(Now(), t)
      modifies this
      ensures Inv(Now()) && Now() == AddTask(old(Now()), t)
    {
      hide Inv;
      ApplyKeepsInv(Now(), AddReady(t));
      var toRq := info[t].priority > THRESHOLD;
      if toRq {
        rq := rq + [t];
      } else {
        sq := sq + [t];
      }
      UpdateStats(t, toRq, true);
    }

    method Pick() returns (r: Option<Tid>)
      requires Inv(Now())
      modifies this
      ensures Inv(Now()) && (Now(), r) == PickNextTask(old(Now()))
      ensures r.None? <==> old(rq) == [] && old(sq) == []
      ensures r.Some? ==> old(Queued(Now(), r.value)) && !Queued(Now(), r.value)
      ensures r.Some? ==> forall t :: old(Queued(Now(), t)) ==> info[t].priority <= info[r.value].priority
    {
      hide LevelOk;
      ghost var s := Now();
      QueuesKnown(s);
      ApplyKeepsInv(s, Op.Pick);
      forall t ensures PickNextTask(s).1.Some? && Queued(s, t) ==>
                         t in s.info && s.info[t].priority <= s.info[PickNextTask(s).1.value].priority
                         && (Queued(PickNextTask(s).0, t) <==> t != PickNextTask(s).1.value)
      {
        PickIsHighest(s, t);
      }
      if rq != [] {
        var k := BestAt(info, rq);
        r := Some(rq[k]);
        UpdateStats(rq[k], true, false);
        rq := Without(rq, k);
        return;
      }
      if sq != [] {
        var k := BestAt(info, sq);
        r := Some(sq[k]);
        UpdateStats(sq[k], false, false);
        sq := Without(sq, k);
        return;
      }
      r := None;
    }

    method PreemptTime(t: Tid, running: bool, cpuTime: nat) returns (r: nat)
      requires Inv(Now()) && t in info && (running ==> !Queued(Now(), t))
      modifies this`info
      ensures Inv(Now()) && (Now(), r) == GetPreemptTime(old(Now()), t, running, cpuTime)
    {
      hide LevelOk;
      ApplyKeepsInv(Now(), Preempt(t, running, cpuTime));
      var isRq := info[t].priority > THRESHOLD;
      var sum, count := if isRq then rqSum else sqSum, if isRq then rqCount else sqCount;
      var tq := if count == 0 then Burst(info[t]) else sum / count;
      if !running {
        return tq;
      }
      if cpuTime >= tq {
        info := info[t := Expired(info[t], cpuTime)];
        return 0;
      }
      return tq - cpuTime;
    }
  }

  lemma QueuesKnown(s: State)
    requires Inv(s)
    ensures Known(s.info, s.rq.queue) && Known(s.info, s.sq.queue)
  {
  }
}
