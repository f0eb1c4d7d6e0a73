/**
 Which values the joins of module `TaskMgr` hand out, over every run: the value a thread left with, and
 the status with which a process was left.
 */
module TaskMgrValues {
  import opened Basics
  import opened TaskMgr
  import opened TaskMgrRuns

  // ---------------------------------------------------------------------------------------------
  // What a step does to the value of a thread
  // ---------------------------------------------------------------------------------------------

  /** The value with which the thread leaves on its own in this step. */
  ghost function LeftWith(s: State, op: Op, t: Tid): Option<int> {
    match op
    case OpExit(me, retval) => if me == t then Some(retval) else None
    case OpExitProcess(me, _) => if me == t then Some(0) else None
    case OpSuicide(me) => if me == t then Some(0) else None
    case OpKill(me, target) => if me == t == target then Some(0) else None
    case OpKillProcess(me, pid) => if me == t && t in s.threads && s.threads[t].owner == pid then Some(0) else None
    case _ => None
  }

  /** The thread has finished with this value, and nobody has collected it. */
  ghost predicate Holds(s: State, t: Tid, v: int) {
    t in s.threads && s.threads[t].state == WaitingForJoin && s.threads[t].retval == v
  }

  /** A thread that is detached and not yet finished, or finished for good. */
  ghost predicate KeepsNoValue(th: Thread) { th.state == Terminated || (th.state == Active && th.detached) }

  /**
   What a step may do to a thread's value, `left` being the value with which it leaves in this step: it
   holds that value or the one it held before, and a detached thread never comes to hold one.
   */
  ghost predicate ValueFollows(s: State, s': State, t: Tid, left: Option<int>) {
    && (left.Some? ==>
          t in s.threads && s.threads[t].state == Active && forall v :: Holds(s', t, v) ==> v == left.value)
    && (left.None? ==> forall v :: Holds(s', t, v) ==> Holds(s, t, v))
    && (t in s.threads && t in s'.threads && KeepsNoValue(s.threads[t]) ==> KeepsNoValue(s'.threads[t]))
  }

  ghost predicate StillHolds(s: State, s': State, t: Tid) { forall v :: Holds(s, t, v) ==> Holds(s', t, v) }

  lemma ExitValue(s: State, me: Tid, retval: int, t: Tid)
    requires me in s.threads && s.threads[me].owner in s.procs && ThreadExit(s, me, retval).Done?
    requires s.threads[me].state == Active
    ensures ValueFollows(s, ThreadExit(s, me, retval).s, t, if t == me then Some(retval) else None)
    ensures StillHolds(s, ThreadExit(s, me, retval).s, t)
  {
    hide Drop;
  }

  lemma BuryValue(s: State, u: Tid, t: Tid)
    requires u in s.threads && s.threads[u].owner in s.procs
    ensures ValueFollows(s, Buried(s, u), t, None) && (t != u ==> StillHolds(s, Buried(s, u), t))
  {
  }

  lemma CollectValue(s: State, me: Tid, target: Tid, t: Tid)
    requires me in s.threads && target in s.threads && s.threads[target].owner in s.procs
    requires me != target && Collect(s, me, target).Done?
    ensures ValueFollows(s, Collect(s, me, target).s, t, None)
    ensures t != target ==> StillHolds(s, Collect(s, me, target).s, t)
    ensures forall v :: Holds(s, target, v) ==> Collect(s, me, target).reply == Value(v)
  {
  }

  lemma LeaveValue(s: State, me: Tid, status: int, t: Tid)
    requires Runs(s, me) && ExitProcess(s, me, status).Done?
    ensures ValueFollows(s, ExitProcess(s, me, status).s, t, if t == me then Some(0) else None)
    ensures StillHolds(s, ExitProcess(s, me, status).s, t)
  {
    hide ThreadExit;
    ExitValue(ExitMarked(s, s.threads[me].owner, status), me, 0, t);
  }

  lemma SuicideValue(s: State, me: Tid, t: Tid)
    requires Runs(s, me) && CommitSuicide(s, me).Done?
    ensures ValueFollows(s, CommitSuicide(s, me).s, t, if t == me then Some(0) else None)
    ensures StillHolds(s, CommitSuicide(s, me).s, t)
  {
    hide ThreadExit;
    ExitValue(SuicideMarked(s, s.threads[me].owner), me, 0, t);
  }

  lemma KillValue(s: State, me: Tid, pid: Pid, t: Tid)
    requires Inv(s) && Runs(s, me) && KillProcess(s, me, pid).Done?
    ensures ValueFollows(s, KillProcess(s, me, pid).s, t, LeftWith(s, OpKillProcess(me, pid), t))
    ensures StillHolds(s, KillProcess(s, me, pid).s, t)
  {
    hide InvAt, KillAll, HasProcessJoiner, JoinedWhenKilled, ExitProcess;
    if s.threads[me].owner == pid {
      LeaveValue(s, me, -2, t);
    } else if pid in s.procs {
      KillAllKeepsInv(s, pid, s.procs[pid].list);
      if t in s.procs[pid].list { ListedFacts(s, pid, t); }
    }
  }

  lemma MurderValue(s: State, me: Tid, target: Tid, t: Tid)
    requires Inv(s) && Enabled(s, OpKill(me, target)) && CommitMurder(s, me, target).Done?
    ensures ValueFollows(s, CommitMurder(s, me, target).s, t, LeftWith(s, OpKill(me, target), t))
    ensures StillHolds(s, CommitMurder(s, me, target).s, t)
  {
    hide InvAt, ThreadExit, Buried, HasJoiner, Drop;
    if target == me {
      ExitValue(s, me, 0, t);
    } else if target in s.threads && s.threads[target].state != Terminated {
      ListedIffActive(s, target);
      BuryValue(Unlisted(s, target), target, t);
    }
  }

  /** A join, or the second half of one, of the thread `t`. */
  ghost predicate JoinsThread(s: State, op: Op, t: Tid)
    requires Enabled(s, op)
  {
    (op.OpJoin? && op.target == t) || (op.OpResume? && s.threads[op.me].join.target == t)
  }

  /**
   Every step: a thread gets a value to hand out only by leaving with it, and keeps it until a join is
   answered with it or the thread is detached.
   */
  lemma StepValue(s: State, op: Op, t: Tid)
    requires Inv(s) && Enabled(s, op) && Apply(s, op).Done?
    ensures ValueFollows(s, Apply(s, op).s, t, LeftWith(s, op, t))
    ensures forall v :: Holds(s, t, v) && !Holds(Apply(s, op).s, t, v) ==>
                          op == OpDetach(t) || (JoinsThread(s, op, t) && Apply(s, op).reply == Value(v))
  {
    hide InvAt, ThreadExit, Buried, Collect, HasJoiner, Drop, ExitProcess, KillProcess, CommitSuicide, CommitMurder;
    if t in s.threads { UsedThread(s, t); }
    match op
    case OpExit(me, retval) => ExitValue(s, me, retval, t);
    case OpJoin(me, target) =>
      if me != target && target in s.threads && s.threads[target].state != Active { CollectValue(s, me, target, t); }
    case OpResume(me) =>
      ThreadFacts(s, me);
      ResumeKeepsInv(s, me);
      CollectValue(s, me, s.threads[me].join.target, t);
    case OpDetach(target) =>
      if target in s.threads && s.threads[target].state == WaitingForJoin { BuryValue(s, target, t); }
    case OpKill(me, target) => MurderValue(s, me, target, t);
    case OpExitProcess(me, status) => LeaveValue(s, me, status, t);
    case OpKillProcess(me, pid) => KillValue(s, me, pid, t);
    case OpSuicide(me) => SuicideValue(s, me, t);
    case OpReapThread => if s.threadStack != [] { ReapFacts(s); }
    case _ =>
  }

  /**
   A thread that exits holds its value for a joiner exactly when it is not detached and its process has
   another thread that is active or waits to be joined.
   */
  lemma ExitHoldsValueIff(s: State, me: Tid, retval: int)
    requires Inv(s) && Runs(s, me)
    ensures ThreadExit(s, me, retval).Done?
    ensures Holds(ThreadExit(s, me, retval).s, me, retval) <==>
            !s.threads[me].detached && exists u: Tid :: u != me && u in LiveSet(s.threads, s.threads[me].owner)
  {
    hide InvAt, Buried, LiveSet, Drop;
    ThreadExitKeepsInv(s, Settled, me, retval);
    RunningIsListed(s, Settled, me);
    OtherLiveIff(s, me);
    ExitRecords(s, me, retval);
  }

  lemma OtherLiveIff(s: State, me: Tid)
    requires Inv(s) && Runs(s, me)
    ensures var p := s.threads[me].owner;
            s.procs[p].live != 1 <==> exists u: Tid :: u != me && u in LiveSet(s.threads, p)
  {
    hide JoinOk, ListOk, StackOk, ProcStackOk, DeliveredOk;
    var p := s.threads[me].owner;
    assert ProcessOk(s.threads, Settled, p, s.procs[p]);
    var live := LiveSet(s.threads, p);
    assert me in live;
    var others := live - {me};
    assert live == others + {me} && |live| == |others| + 1;
    if |others| > 0 {
      var u: Tid :| u in others;
      assert u != me && u in live;
    } else {
      assert others == {};
      forall u: Tid | u != me ensures u !in live { assert u !in others; }
    }
  }

  // ---------------------------------------------------------------------------------------------
  // The history of a run
  // ---------------------------------------------------------------------------------------------

  lemma {:induction false} RunPrefix(s: State, ops: seq<Op>, n: nat)
    requires IsRun(s, ops) && n < |ops|
    ensures IsRun(s, ops[..n]) && IsRun(s, ops[..n + 1])
    ensures var s1 := Run(s, ops[..n]);
            Enabled(s1, ops[n]) && Apply(s1, ops[n]).Done? && Run(s, ops[..n + 1]) == Apply(s1, ops[n]).s
    decreases |ops|
  {
    hide Apply, Enabled;
    var s1 := Apply(s, ops[0]).s;
    assert ops[..n + 1][0] == ops[0] && ops[..n + 1][1..] == ops[1..][..n];
    if n == 0 {
      assert ops[..1][1..] == [];
      assert IsRun(s1, []) && Run(s1, []) == s1;
    } else {
      RunPrefix(s1, ops[1..], n - 1);
      assert ops[..n][0] == ops[0] && ops[..n][1..] == ops[1..][..n - 1];
    }
  }

  /** The state of a run before its `n`-th operation. */
  ghost function At(ops: seq<Op>, n: nat): State
    requires IsRun(EMPTY, ops) && n <= |ops|
  {
    if n == |ops| then Run(EMPTY, ops) else RunPrefix(EMPTY, ops, n); Run(EMPTY, ops[..n])
  }

  lemma AtStep(ops: seq<Op>, n: nat)
    requires IsRun(EMPTY, ops) && n < |ops|
    ensures var s := At(ops, n);
            && Inv(s) && Enabled(s, ops[n]) && Apply(s, ops[n]).Done? && At(ops, n + 1) == Apply(s, ops[n]).s
  {
    hide InvAt, Apply, Enabled;
    RunPrefix(EMPTY, ops, n);
    if n + 1 == |ops| { assert ops[..n + 1] == ops; }
    EmptyOk();
    RunKeepsInv(EMPTY, ops[..n]);
  }

  lemma EmptyOk()
    ensures Inv(EMPTY)
  {
    EmptyExact();
  }

  /** The value with which the thread leaves in the `i`-th operation. */
  ghost function LeftAt(ops: seq<Op>, i: nat, t: Tid): Option<int>
    requires IsRun(EMPTY, ops) && i < |ops|
  {
    LeftWith(At(ops, i), ops[i], t)
  }

  /** Among the first `n` operations exactly one is the thread's leaving, with the value `v`. */
  ghost predicate LeftOnce(ops: seq<Op>, n: nat, t: Tid, v: int)
    requires IsRun(EMPTY, ops) && n <= |ops|
  {
    exists i: nat :: i < n && LeftAt(ops, i, t) == Some(v)
                     && forall j: nat :: j < n && LeftAt(ops, j, t).Some? ==> j == i
  }

  ghost predicate NeverLeft(ops: seq<Op>, n: nat, t: Tid)
    requires IsRun(EMPTY, ops) && n <= |ops|
  {
    forall i: nat :: i < n ==> LeftAt(ops, i, t).None?
  }

  ghost predicate Unfinished(s: State, t: Tid) { t in s.usedTids ==> t in s.threads && s.threads[t].state == Active }

  lemma UnfinishedBefore(s: State, op: Op, t: Tid)
    requires Inv(s) && Enabled(s, op) && Apply(s, op).Done? && Unfinished(Apply(s, op).s, t)
    ensures Unfinished(s, t) && LeftWith(s, op, t).None?
  {
    hide InvAt, Apply;
    UsedGrows(s, op);
    if t in s.threads {
      UsedThread(s, t);
      StepThread(s, op, t);
    } else {
      if t in Apply(s, op).s.threads { StepNewThread(s, op, t); }
      StepValue(s, op, t);
    }
  }

  lemma UsedThread(s: State, t: Tid)
    requires Inv(s) && t in s.threads
    ensures t in s.usedTids
  {
  }

  /** As long as a thread is unfinished it has not left. */
  lemma {:induction false} UnfinishedNeverLeft(ops: seq<Op>, n: nat, t: Tid)
    requires IsRun(EMPTY, ops) && n <= |ops| && Unfinished(At(ops, n), t)
    ensures NeverLeft(ops, n, t)
  {
    hide At, Apply, Enabled, Unfinished, LeftWith, IsRun, InvAt;
    if n > 0 {
      AtStep(ops, n - 1);
      UnfinishedBefore(At(ops, n - 1), ops[n - 1], t);
      UnfinishedNeverLeft(ops, n - 1, t);
    }
  }

  lemma ActiveUnfinished(s: State, t: Tid)
    requires t in s.threads && s.threads[t].state == Active
    ensures Unfinished(s, t)
  {
  }

  lemma NothingHeld(t: Tid, v: int)
    ensures !Holds(EMPTY, t, v)
  {
  }

  /** A value that waits to be collected is the one its thread left with, in one operation of the run. */
  lemma {:induction false} HeldValueWasLeft(ops: seq<Op>, n: nat, t: Tid, v: int)
    requires IsRun(EMPTY, ops) && n <= |ops| && Holds(At(ops, n), t, v)
    ensures LeftOnce(ops, n, t, v)
  {
    hide At, Apply, Enabled, IsRun, InvAt, LeftWith, Holds;
    if n == 0 {
      AtStart(ops);
      NothingHeld(t, v);
    } else {
      AtStep(ops, n - 1);
      var s := At(ops, n - 1);
      StepValue(s, ops[n - 1], t);
      if LeftAt(ops, n - 1, t).None? {
        HeldValueWasLeft(ops, n - 1, t, v);
        var i: nat :| i < n - 1 && LeftAt(ops, i, t) == Some(v)
                      && forall j: nat :: j < n - 1 && LeftAt(ops, j, t).Some? ==> j == i;
        assert forall j: nat :: j < n && LeftAt(ops, j, t).Some? ==> j == i;
      } else {
        ActiveUnfinished(s, t);
        UnfinishedNeverLeft(ops, n - 1, t);
        assert LeftAt(ops, n - 1, t) == Some(v);
      }
    }
  }

  lemma AtStart(ops: seq<Op>)
    requires IsRun(EMPTY, ops)
    ensures At(ops, 0) == EMPTY
  {
    assert ops[..0] == [];
  }

  /**
   A join hands out exactly the value its thread left with: after any run, when a join of `t` answers
   `v`, the run contains exactly one operation by which `t` left, with the value `v`.
   */
  lemma JoinHandsOutExitValue(ops: seq<Op>, op: Op, t: Tid, v: int)
    requires IsRun(EMPTY, ops) && Enabled(Run(EMPTY, ops), op) && JoinsThread(Run(EMPTY, ops), op, t)
    requires Apply(Run(EMPTY, ops), op).Done? && Apply(Run(EMPTY, ops), op).reply == Value(v)
    ensures LeftOnce(ops, |ops|, t, v)
    ensures forall i: nat, w :: i < |ops| && ops[i] == OpExit(t, w) ==> w == v
    ensures forall i: nat, j: nat :: i < |ops| && j < |ops| && ops[i] == ops[j] == OpExit(t, v) ==> i == j
    ensures v != 0 ==> OpExit(t, v) in ops
  {
    hide IsRun, Run, Buried;
    assert Holds(At(ops, |ops|), t, v);
    HeldValueWasLeft(ops, |ops|, t, v);
    forall i: nat, w | i < |ops| && ops[i] == OpExit(t, w) ensures w == v {
      assert LeftAt(ops, i, t) == Some(w);
    }
    forall i: nat, j: nat | i < |ops| && j < |ops| && ops[i] == ops[j] == OpExit(t, v) ensures i == j {
      assert LeftAt(ops, i, t).Some? && LeftAt(ops, j, t).Some?;
    }
  }

  // ---------------------------------------------------------------------------------------------
  // The status of a process
  // ---------------------------------------------------------------------------------------------

  /** The status with which a thread of the process leaves it in this step. */
  ghost function EndedWith(s: State, op: Op, p: Pid): Option<int> {
    match op
    case OpExitProcess(me, status) => if me in s.threads && s.threads[me].owner == p then Some(status) else None
    case OpKillProcess(me, pid) => if me in s.threads && s.threads[me].owner == p == pid then Some(-2) else None
    case _ => None
  }

  ghost predicate HoldsStatus(s: State, p: Pid, v: int) {
    p in s.procs && s.procs[p].state == Exited && s.procs[p].status == v
  }

  ghost predicate StatusFollows(s: State, s': State, p: Pid, ended: Option<int>) {
    && (ended.Some? ==>
          p in s.procs && s.procs[p].state == Live && forall v :: HoldsStatus(s', p, v) ==> v == ended.value)
    && (ended.None? ==> forall v :: HoldsStatus(s', p, v) ==> HoldsStatus(s, p, v))
  }

  lemma ExitStatus(s: State, me: Tid, retval: int, p: Pid)
    requires me in s.threads && s.threads[me].owner in s.procs && ThreadExit(s, me, retval).Done?
    ensures forall v :: HoldsStatus(ThreadExit(s, me, retval).s, p, v) ==> HoldsStatus(s, p, v)
  {
    hide Drop;
  }

  lemma LeaveStatus(s: State, me: Tid, status: int, p: Pid)
    requires Inv(s) && Runs(s, me) && ExitProcess(s, me, status).Done?
    ensures StatusFollows(s, ExitProcess(s, me, status).s, p, if s.threads[me].owner == p then Some(status) else None)
  {
    hide ThreadExit, InvAt;
    CallerIsLive(s, me);
    ExitStatus(ExitMarked(s, s.threads[me].owner, status), me, 0, p);
  }

  lemma SuicideStatus(s: State, me: Tid, p: Pid)
    requires Runs(s, me) && CommitSuicide(s, me).Done?
    ensures StatusFollows(s, CommitSuicide(s, me).s, p, None)
  {
    hide ThreadExit;
    ExitStatus(SuicideMarked(s, s.threads[me].owner), me, 0, p);
  }

  lemma KillStatus(s: State, me: Tid, pid: Pid, p: Pid)
    requires Inv(s) && Runs(s, me) && KillProcess(s, me, pid).Done?
    ensures StatusFollows(s, KillProcess(s, me, pid).s, p, EndedWith(s, OpKillProcess(me, pid), p))
  {
    hide InvAt, KillAll, HasProcessJoiner, JoinedWhenKilled, ProcessJoinersServed, ExitProcess;
    if s.threads[me].owner == pid {
      LeaveStatus(s, me, -2, p);
    } else if pid in s.procs {
      KillAllKeepsInv(s, pid, s.procs[pid].list);
    }
  }

  lemma StepStatus(s: State, op: Op, p: Pid)
    requires Inv(s) && Enabled(s, op) && Apply(s, op).Done?
    ensures StatusFollows(s, Apply(s, op).s, p, EndedWith(s, op, p))
  {
    hide InvAt, ThreadExit, HasJoiner, Drop, ExitProcess, KillProcess, CommitSuicide;
    match op
    case OpExit(me, retval) => ExitStatus(s, me, retval, p);
    case OpKill(me, target) => if target == me { ExitStatus(s, me, 0, p); }
    case OpExitProcess(me, status) => LeaveStatus(s, me, status, p);
    case OpKillProcess(me, pid) => KillStatus(s, me, pid, p);
    case OpSuicide(me) => SuicideStatus(s, me, p);
    case _ =>
  }

  ghost predicate JoinsProcess(s: State, op: Op, p: Pid)
    requires Enabled(s, op)
  {
    (op.OpJoinProcess? && op.pid == p) || (op.OpResumeProcess? && s.threads[op.me].join.pid == p)
  }

  lemma CollectProcessStatus(s: State, me: Tid, pid: Pid, p: Pid, v: int)
    requires me in s.threads && CollectProcess(s, me, pid).Done? && HoldsStatus(s, p, v)
    ensures HoldsStatus(CollectProcess(s, me, pid).s, p, v)
            || (p == pid && CollectProcess(s, me, pid).reply == Value(v))
  {
  }

  /** A status stays to be collected until a join is answered with it or the process is killed from outside. */
  lemma StatusStays(s: State, op: Op, p: Pid, v: int)
    requires Inv(s) && Enabled(s, op) && Apply(s, op).Done? && HoldsStatus(s, p, v)
    ensures HoldsStatus(Apply(s, op).s, p, v) || Kills(op, p)
            || (JoinsProcess(s, op, p) && Apply(s, op).reply == Value(v))
  {
    hide InvAt, ThreadExit, HasJoiner, Drop, ExitProcess, KillProcess, CommitSuicide, CollectProcess;
    UsedProcess(s, p);
    LiveIsNotStacked(s, p);
    match op
    case OpExit(me, retval) => CallerIsLive(s, me); ExitProcesses(s, me, retval, p);
    case OpKill(me, target) =>
      CallerIsLive(s, me);
      if target == me { ExitProcesses(s, me, 0, p); }
    case OpExitProcess(me, status) => CallerIsLive(s, me); LeaveProcesses(s, me, status, p);
    case OpKillProcess(me, pid) =>
      CallerIsLive(s, me);
      if pid != p { KillSparesStatus(s, me, pid, p); }
    case OpSuicide(me) => CallerIsLive(s, me); SuicideProcesses(s, me, p);
    case OpJoinProcess(me, pid) =>
      if s.threads[me].owner != pid && pid in s.procs && s.procs[pid].state != Live {
        CollectProcessStatus(s, me, pid, p, v);
      }
    case OpResumeProcess(me) => CollectProcessStatus(s, me, s.threads[me].join.pid, p, v);
    case _ =>
  }

  lemma KillSparesStatus(s: State, me: Tid, pid: Pid, p: Pid)
    requires Inv(s) && Runs(s, me) && KillProcess(s, me, pid).Done? && p in s.procs && p != pid
    requires s.threads[me].owner != p
    ensures var s' := KillProcess(s, me, pid).s;
            p in s'.procs && s'.procs[p].state == s.procs[p].state && s'.procs[p].status == s.procs[p].status
  {
    hide InvAt, KillAll, HasProcessJoiner, JoinedWhenKilled, ExitProcess;
    if s.threads[me].owner == pid {
      LeaveProcesses(s, me, -2, p);
    } else if pid in s.procs {
      KillAllKeepsInv(s, pid, s.procs[pid].list);
    }
  }

  /**
   A process that is left keeps its status for a joiner exactly when the leaving thread is not detached
   or another thread of the process still waits to be joined.
   */
  lemma LeaveHoldsStatusIff(s: State, me: Tid, status: int)
    requires Inv(s) && Runs(s, me) && ExitProcess(s, me, status).Done?
    ensures var p := s.threads[me].owner;
            HoldsStatus(ExitProcess(s, me, status).s, p, status) <==>
            !s.threads[me].detached || exists u: Tid :: u != me && u in LiveSet(s.threads, p)
  {
    hide InvAt, ThreadExit, LiveSet;
    OtherLiveIff(s, me);
    ExitKillsIff(ExitMarked(s, s.threads[me].owner, status), me, 0);
  }

  lemma ExitKillsIff(s: State, me: Tid, retval: int)
    requires me in s.threads && s.threads[me].owner in s.procs && ThreadExit(s, me, retval).Done?
    ensures var p, s' := s.threads[me].owner, ThreadExit(s, me, retval).s;
            && p in s'.procs && s'.procs[p].status == s.procs[p].status
            && s'.procs[p].state == if s.threads[me].detached && s.procs[p].live == 1 then Dead else s.procs[p].state
  {
    hide Drop;
  }

  ghost function EndedAt(ops: seq<Op>, i: nat, p: Pid): Option<int>
    requires IsRun(EMPTY, ops) && i < |ops|
  {
    EndedWith(At(ops, i), ops[i], p)
  }

  /** Among the first `n` operations exactly one ended the process from inside, with the status `v`. */
  ghost predicate EndedOnce(ops: seq<Op>, n: nat, p: Pid, v: int)
    requires IsRun(EMPTY, ops) && n <= |ops|
  {
    exists i: nat :: i < n && EndedAt(ops, i, p) == Some(v)
                     && forall j: nat :: j < n && EndedAt(ops, j, p).Some? ==> j == i
  }

  lemma NotOverBefore(s: State, op: Op, p: Pid)
    requires Inv(s) && Enabled(s, op) && Apply(s, op).Done? && !Over(Apply(s, op).s, p)
    ensures !Over(s, p) && EndedWith(s, op, p).None?
  {
    hide InvAt, ThreadExit, KillAll, Apply, Over;
    if Over(s, p) { OverStep(s, op, p); }
    if EndedWith(s, op, p).Some? { EndedIsOver(s, op, p); }
  }

  lemma EndedIsOver(s: State, op: Op, p: Pid)
    requires Inv(s) && Enabled(s, op) && Apply(s, op).Done? && EndedWith(s, op, p).Some?
    ensures Over(Apply(s, op).s, p)
  {
    hide InvAt, ThreadExit, KillAll;
    UsedGrows(s, op);
    UsedProcess(s, p);
    ExitKillsIff(ExitMarked(s, p, EndedWith(s, op, p).value), op.me, 0);
  }

  lemma {:induction false} NotOverNeverEnded(ops: seq<Op>, n: nat, p: Pid)
    requires IsRun(EMPTY, ops) && n <= |ops| && !Over(At(ops, n), p)
    ensures forall i: nat :: i < n ==> EndedAt(ops, i, p).None?
  {
    hide At, Apply, Enabled, Over, EndedWith, IsRun, InvAt;
    if n > 0 {
      AtStep(ops, n - 1);
      NotOverBefore(At(ops, n - 1), ops[n - 1], p);
      NotOverNeverEnded(ops, n - 1, p);
    }
  }

  lemma LiveIsNotOver(s: State, p: Pid)
    requires p in s.procs && s.procs[p].state == Live
    ensures !Over(s, p)
  {
  }

  lemma NoStatusHeld(p: Pid, v: int)
    ensures !HoldsStatus(EMPTY, p, v)
  {
  }

  lemma {:induction false} HeldStatusWasGiven(ops: seq<Op>, n: nat, p: Pid, v: int)
    requires IsRun(EMPTY, ops) && n <= |ops| && HoldsStatus(At(ops, n), p, v)
    ensures EndedOnce(ops, n, p, v)
  {
    hide At, Apply, Enabled, IsRun, InvAt, EndedWith, HoldsStatus;
    if n == 0 {
      AtStart(ops);
      NoStatusHeld(p, v);
    } else {
      AtStep(ops, n - 1);
      var s := At(ops, n - 1);
      StepStatus(s, ops[n - 1], p);
      if EndedAt(ops, n - 1, p).None? {
        HeldStatusWasGiven(ops, n - 1, p, v);
        var i: nat :| i < n - 1 && EndedAt(ops, i, p) == Some(v)
                      && forall j: nat :: j < n - 1 && EndedAt(ops, j, p).Some? ==> j == i;
        assert forall j: nat :: j < n && EndedAt(ops, j, p).Some? ==> j == i;
      } else {
        LiveIsNotOver(s, p);
        NotOverNeverEnded(ops, n - 1, p);
        assert EndedAt(ops, n - 1, p) == Some(v);
      }
    }
  }

  /**
   A process join hands out exactly the status with which the process was left: after any run, when a
   join of `p` answers `v`, the run contains exactly one operation by which a thread of `p` ended it,
   with the status `v`, which is -2 for a kill of the own process.
   */
  lemma JoinHandsOutStatus(ops: seq<Op>, op: Op, p: Pid, v: int)
    requires IsRun(EMPTY, ops) && Enabled(Run(EMPTY, ops), op) && JoinsProcess(Run(EMPTY, ops), op, p)
    requires Apply(Run(EMPTY, ops), op).Done? && Apply(Run(EMPTY, ops), op).reply == Value(v)
    ensures EndedOnce(ops, |ops|, p, v)
  {
    hide IsRun, Run;
    assert HoldsStatus(At(ops, |ops|), p, v);
    HeldStatusWasGiven(ops, |ops|, p, v);
  }

  // ---------------------------------------------------------------------------------------------
  // Ends that leave nothing to hand out, and detaching
  // ---------------------------------------------------------------------------------------------

  /** After its suicide a process is dead with status -1, and after a kill from outside with status -2. */
  lemma DeadStatus(s: State, op: Op, p: Pid)
    requires Inv(s) && Enabled(s, op) && Apply(s, op).Done? && p in s.procs
    requires (op.OpSuicide? && s.threads[op.me].owner == p)
             || (op.OpKillProcess? && op.pid == p && s.threads[op.me].owner != p && s.procs[p].state != Dead)
    ensures var s' := Apply(s, op).s;
            && p in s'.procs && s'.procs[p].state == Dead
            && s'.procs[p].status == if op.OpSuicide? then -1 else -2
  {
    hide InvAt, ThreadExit, KillAll, HasProcessJoiner, JoinedWhenKilled;
    if op.OpSuicide? {
      ExitKillsIff(SuicideMarked(s, p), op.me, 0);
    } else {
      KillAllKeepsInv(s, p, s.procs[p].list);
    }
  }

  /** A thread whose value nobody can collect any more. */
  ghost predicate ValueLost(s: State, t: Tid) { t in s.usedTids && (t in s.threads ==> KeepsNoValue(s.threads[t])) }

  lemma ValueLostStep(s: State, op: Op, t: Tid)
    requires Inv(s) && Enabled(s, op) && Apply(s, op).Done? && ValueLost(s, t)
    ensures ValueLost(Apply(s, op).s, t)
  {
    hide InvAt, Apply, Enabled, KeepsNoValue;
    UsedGrows(s, op);
    StepValue(s, op, t);
    if t !in s.threads && t in Apply(s, op).s.threads { StepNewThread(s, op, t); }
  }

  lemma {:induction false} ValueLostForGood(s: State, ops: seq<Op>, t: Tid)
    requires Inv(s) && IsRun(s, ops) && ValueLost(s, t)
    ensures Inv(Run(s, ops)) && ValueLost(Run(s, ops), t)
    decreases |ops|
  {
    hide InvAt, Apply, Enabled, ValueLost;
    if ops != [] {
      ApplyKeepsInv(s, ops[0]);
      ValueLostStep(s, ops[0], t);
      ValueLostForGood(Apply(s, ops[0]).s, ops[1..], t);
    }
  }

  /**
   Detaching is for good: it changes no state and no value but the target's, a finished target goes to
   the reaper, and after any further run no join of the target is answered with a value.
   */
  lemma DetachedValueIsLost(s: State, t: Tid, ops: seq<Op>, op: Op)
    requires Inv(s) && t in s.threads && Enabled(s, OpDetach(t)) && Apply(s, OpDetach(t)).Done?
    requires IsRun(Apply(s, OpDetach(t)).s, ops)
    requires var s2 := Run(Apply(s, OpDetach(t)).s, ops); Enabled(s2, op) && JoinsThread(s2, op, t)
    ensures var s1 := Apply(s, OpDetach(t)).s;
            && s1.threads.Keys == s.threads.Keys
            && (forall u :: u in s.threads && u != t ==> s1.threads[u] == s.threads[u])
            && s1.threads[t].state == (if s.threads[t].state == WaitingForJoin then Terminated else s.threads[t].state)
            && s1.threadStack == s.threadStack + (if s.threads[t].state == WaitingForJoin then [t] else [])
    ensures var r := Apply(Run(Apply(s, OpDetach(t)).s, ops), op); r.Done? ==> !r.reply.Value?
  {
    hide InvAt, IsRun, Run;
    var s1 := Apply(s, OpDetach(t)).s;
    ApplyKeepsInv(s, OpDetach(t));
    UsedThread(s, t);
    ValueLostForGood(s1, ops, t);
  }
}
