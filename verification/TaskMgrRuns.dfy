/**
 What becomes of processes and of the threads that wait for them, over all runs of module `TaskMgr`.

 A process that loses its last active thread through an ordinary exit or the kill of that thread strands
 the threads that wait for it.  Only the kill of the process itself can release them, and only once the
 process is dead.
 */
module TaskMgrRuns {
  import opened Basics
  import opened TaskMgr

  // ---------------------------------------------------------------------------------------------
  // What a step does to the threads
  // ---------------------------------------------------------------------------------------------

  ghost predicate ActiveIn(s: State, p: Pid, t: Tid) {
    t in s.threads && s.threads[t].owner == p && s.threads[t].state == Active
  }

  ghost predicate HasActive(s: State, p: Pid) { exists t: Tid :: ActiveIn(s, p, t) }

  /** The step ends the thread. */
  ghost predicate Ends(s: State, op: Op, u: Tid) {
    match op
    case OpExit(me, _) => u == me
    case OpExitProcess(me, _) => u == me
    case OpSuicide(me) => u == me
    case OpKill(_, target) => u == target && target in s.threads && s.threads[target].state == Active
    case OpKillProcess(_, pid) => ActiveIn(s, pid, u)
    case _ => false
  }

  /** The thread keeps owner and state, and its join changes only by being released from a thread. */
  ghost predicate Untouched(th: Thread, th': Thread) {
    && th'.owner == th.owner && th'.state == th.state
    && (th'.join == th.join || (th.join.Waiting? && th'.join == Woken(th.join.target)))
  }

  lemma ExitThreads(s: State, me: Tid, retval: int, u: Tid)
    requires me in s.threads && s.threads[me].owner in s.procs && ThreadExit(s, me, retval).Done? && u in s.threads
    ensures var s' := ThreadExit(s, me, retval).s;
            && s'.threads.Keys == s.threads.Keys && s'.procs.Keys == s.procs.Keys
            && s'.usedTids == s.usedTids && s'.usedPids == s.usedPids
            && (u != me ==> Untouched(s.threads[u], s'.threads[u]))
            && s'.threads[me].owner == s.threads[me].owner && s'.threads[me].state != Active
  {
    hide Drop;
  }

  lemma BuryThreads(s: State, t: Tid, u: Tid)
    requires t in s.threads && s.threads[t].owner in s.procs && u in s.threads
    ensures Buried(s, t).threads.Keys == s.threads.Keys
    ensures u != t ==> Buried(s, t).threads[u] == s.threads[u]
    ensures Buried(s, t).threads[t] == s.threads[t].(state := Terminated, join := NotJoining)
  {
  }

  lemma CollectThreads(s: State, me: Tid, target: Tid, u: Tid)
    requires me in s.threads && u in s.threads && target in s.threads && s.threads[target].owner in s.procs
    requires me != target && Collect(s, me, target).Done?
    ensures var s' := Collect(s, me, target).s;
            && s'.threads.Keys == s.threads.Keys
            && (u != me && u != target ==> s'.threads[u] == s.threads[u])
            && s'.threads[me] == s.threads[me].(join := NotJoining)
            && s'.threads[target].owner == s.threads[target].owner && s'.threads[target].state == Terminated
            && s.threads[target].state != Active
  {
  }

  /** Leaving the process through `ExitProcess`. */
  lemma LeaveThreads(s: State, me: Tid, status: int, u: Tid)
    requires Inv(s) && Runs(s, me) && ExitProcess(s, me, status).Done? && u in s.threads
    ensures var s', pid := ExitProcess(s, me, status).s, s.threads[me].owner;
            && s'.threads.Keys == s.threads.Keys && s'.usedTids == s.usedTids && s'.usedPids == s.usedPids
            && s'.procs.Keys == s.procs.Keys
            && s'.threads[u].owner == s.threads[u].owner
            && (ActiveIn(s, pid, u) <==> u == me)
            && (u == me ==> s'.threads[u].state != Active)
            && (u != me ==> s'.threads[u].state == s.threads[u].state)
            && (u != me && s.threads[u].join.WaitingForProcess? ==>
                  s'.threads[u].join == if s.threads[u].join.pid == pid then WokenByProcess(pid) else s.threads[u].join)
  {
    hide InvAt, ThreadExit;
    var pid := s.threads[me].owner;
    ExitThreads(ExitMarked(s, pid, status), me, 0, u);
    AloneInList(s, me, u);
  }

  lemma AloneInList(s: State, me: Tid, u: Tid)
    requires Inv(s) && Runs(s, me) && s.procs[s.threads[me].owner].list == [me] && u in s.threads
    ensures ActiveIn(s, s.threads[me].owner, u) <==> u == me
  {
    hide InvAt, HasActiveSibling;
    ListIsMeIff(s, me);
    NoSibling(s, me, u);
  }

  lemma NoSibling(s: State, me: Tid, u: Tid)
    requires me in s.threads && !HasActiveSibling(s, me) && u in s.threads
    ensures u != me && s.threads[u].owner == s.threads[me].owner ==> s.threads[u].state != Active
  {
  }

  lemma SuicideThreads(s: State, me: Tid, u: Tid)
    requires Inv(s) && Runs(s, me) && CommitSuicide(s, me).Done? && u in s.threads
    ensures var s', pid := CommitSuicide(s, me).s, s.threads[me].owner;
            && s'.threads.Keys == s.threads.Keys && s'.usedTids == s.usedTids && s'.usedPids == s.usedPids
            && s'.procs.Keys == s.procs.Keys
            && s'.threads[u].owner == s.threads[u].owner
            && (ActiveIn(s, pid, u) <==> u == me)
            && (u == me ==> s'.threads[u].state != Active)
            && (u != me ==> s'.threads[u].state == s.threads[u].state)
            && (u != me && s.threads[u].join.WaitingForProcess? ==>
                  s'.threads[u].join == if s.threads[u].join.pid == pid then NotJoining else s.threads[u].join)
  {
    hide InvAt, ThreadExit;
    var pid := s.threads[me].owner;
    ExitThreads(SuicideMarked(s, pid), me, 0, u);
    AloneInList(s, me, u);
  }

  /** The kill of another process. */
  lemma KillProcessThreads(s: State, me: Tid, pid: Pid, u: Tid)
    requires Inv(s) && Runs(s, me) && s.threads[me].owner != pid && KillProcess(s, me, pid).Done? && u in s.threads
    ensures var s' := KillProcess(s, me, pid).s;
            && s'.threads.Keys == s.threads.Keys && s'.usedTids == s.usedTids && s'.usedPids == s.usedPids
            && s'.procs.Keys == s.procs.Keys
            && s'.threads[u].owner == s.threads[u].owner
            && (ActiveIn(s, pid, u) ==> s'.threads[u].state == Terminated && s'.threads[u].join == NotJoining)
            && (!ActiveIn(s, pid, u) ==> s'.threads[u].state == s.threads[u].state)
            && (!ActiveIn(s, pid, u) ==>
                  s'.threads[u].join
                  == if s.threads[u].join == WaitingForProcess(pid) && pid in s.procs
                     then NotJoining else s.threads[u].join)
  {
    hide InvAt, KillAll, HasProcessJoiner;
    if pid in s.procs {
      KillAllKeepsInv(s, pid, s.procs[pid].list);
      if u in s.procs[pid].list { ListedFacts(s, pid, u); }
      ListedIffActive(s, u);
    } else {
      ThreadFacts(s, u);
    }
  }

  /** Who is active after a step, and who is not. */
  ghost predicate Followed(s: State, op: Op, s': State, u: Tid)
    requires u in s.threads
  {
    && (u in s'.threads ==> s'.threads[u].owner == s.threads[u].owner)
    && (Ends(s, op, u) ==> u in s'.threads && s'.threads[u].state != Active)
    && (!Ends(s, op, u) && s.threads[u].state == Active ==> u in s'.threads && s'.threads[u].state == Active)
    && (s.threads[u].state != Active ==> u in s'.threads ==> s'.threads[u].state != Active)
    && (s.threads[u].state == Terminated ==> u in s'.threads ==> s'.threads[u].state == Terminated)
  }

  lemma StepThread(s: State, op: Op, u: Tid)
    requires Inv(s) && Enabled(s, op) && Apply(s, op).Done? && u in s.threads
    ensures Followed(s, op, Apply(s, op).s, u)
  {
    hide InvAt, ThreadExit, Buried, Collect, HasJoiner, Drop, ExitProcess, KillProcess, CommitSuicide;
    match op
    case OpStart(_, _, _) => ThreadFacts(s, u);
    case OpCreate(_, _, _) => ThreadFacts(s, u);
    case OpExit(me, retval) => ExitThreads(s, me, retval, u);
    case OpJoin(me, target) =>
      if me != target && target in s.threads && s.threads[target].state != Active { CollectThreads(s, me, target, u); }
    case OpResume(me) =>
      ThreadFacts(s, me);
      ResumeKeepsInv(s, me);
      CollectThreads(s, me, s.threads[me].join.target, u);
    case OpDetach(target) =>
      if target in s.threads && s.threads[target].state == WaitingForJoin { BuryThreads(s, target, u); }
    case OpKill(me, target) => MurderThread(s, me, target, u);
    case OpExitProcess(me, status) => LeaveThreads(s, me, status, u);
    case OpKillProcess(me, pid) => KillThread(s, me, pid, u);
    case OpSuicide(me) => SuicideThreads(s, me, u);
    case OpReapThread => if s.threadStack != [] { ReapFacts(s); }
    case _ =>
  }

  lemma MurderThread(s: State, me: Tid, target: Tid, u: Tid)
    requires Inv(s) && Enabled(s, OpKill(me, target)) && CommitMurder(s, me, target).Done? && u in s.threads
    ensures Followed(s, OpKill(me, target), CommitMurder(s, me, target).s, u)
    ensures CommitMurder(s, me, target).s.threads.Keys == s.threads.Keys
    ensures u != target ==> Untouched(s.threads[u], CommitMurder(s, me, target).s.threads[u])
  {
    hide InvAt, ThreadExit, Buried, HasJoiner, Drop;
    if target == me {
      ExitThreads(s, me, 0, u);
    } else if target in s.threads && s.threads[target].state != Terminated {
      ListedIffActive(s, target);
      BuryThreads(Unlisted(s, target), target, u);
    }
  }

  lemma KillThread(s: State, me: Tid, pid: Pid, u: Tid)
    requires Inv(s) && Runs(s, me) && KillProcess(s, me, pid).Done? && u in s.threads
    ensures Followed(s, OpKillProcess(me, pid), KillProcess(s, me, pid).s, u)
    ensures KillProcess(s, me, pid).s.threads.Keys == s.threads.Keys
  {
    hide InvAt, ExitProcess, KillAll;
    if s.threads[me].owner == pid { LeaveThreads(s, me, -2, u); } else { KillProcessThreads(s, me, pid, u); }
  }

  /** A new thread is created by an active thread of its process, or comes with a new process. */
  lemma StepNewThread(s: State, op: Op, u: Tid)
    requires Inv(s) && Enabled(s, op) && Apply(s, op).Done? && u !in s.threads && u in Apply(s, op).s.threads
    ensures op.OpStart? || op.OpCreate?
    ensures u !in s.usedTids
    ensures var p := Apply(s, op).s.threads[u].owner; p !in s.usedPids || HasActive(s, p)
  {
    hide InvAt, ThreadExit, Buried, Collect, HasJoiner, Drop, ExitProcess, KillProcess, CommitSuicide, CommitMurder;
    match op
    case OpStart(_, _, _) =>
    case OpCreate(me, _, _) => assert ActiveIn(s, s.threads[me].owner, me);
    case OpExit(me, retval) => ExitThreads(s, me, retval, me);
    case OpJoin(me, target) =>
      if me != target && target in s.threads && s.threads[target].state != Active { CollectThreads(s, me, target, me); }
    case OpResume(me) =>
      ThreadFacts(s, me);
      ResumeKeepsInv(s, me);
      CollectThreads(s, me, s.threads[me].join.target, me);
    case OpDetach(target) =>
      if target in s.threads && s.threads[target].state == WaitingForJoin { BuryThreads(s, target, target); }
    case OpKill(me, target) => MurderThread(s, me, target, me);
    case OpExitProcess(me, status) => LeaveThreads(s, me, status, me);
    case OpKillProcess(me, pid) => KillThread(s, me, pid, me);
    case OpSuicide(me) => SuicideThreads(s, me, me);
    case _ =>
  }

  // ---------------------------------------------------------------------------------------------
  // What a step does to a thread that waits for a process
  // ---------------------------------------------------------------------------------------------

  /** The process is left through `ExitProcess`, which readies its joiners. */
  ghost predicate Leaves(s: State, op: Op, p: Pid)
    requires Enabled(s, op)
  {
    (op.OpExitProcess? && s.threads[op.me].owner == p)
      || (op.OpKillProcess? && op.pid == p && s.threads[op.me].owner == p)
  }

  /** The joiners of the process are run to the end of their join. */
  ghost predicate Serves(s: State, op: Op, p: Pid)
    requires Enabled(s, op)
  {
    (op.OpSuicide? && s.threads[op.me].owner == p) || (op.OpKillProcess? && op.pid == p && s.threads[op.me].owner != p)
  }

  /** Exactly four calls release a thread that waits for a process: leaving, suicide, and the kills by pid. */
  lemma StepProcessJoiner(s: State, op: Op, t: Tid, p: Pid)
    requires Inv(s) && Enabled(s, op) && Apply(s, op).Done? && t in s.threads
    requires s.threads[t].join == WaitingForProcess(p) && !Ends(s, op, t)
    ensures var s' := Apply(s, op).s;
            && t in s'.threads
            && s'.threads[t].join == (if Leaves(s, op, p) then WokenByProcess(p)
                                      else if Serves(s, op, p) then NotJoining else WaitingForProcess(p))
  {
    hide InvAt, ThreadExit, Buried, Collect, HasJoiner, Drop, ExitProcess, KillProcess, CommitSuicide, CommitMurder;
    ProcessJoinerFacts(s, t, p);
    ThreadFacts(s, t);
    match op
    case OpExit(me, retval) => ExitThreads(s, me, retval, t);
    case OpJoin(me, target) =>
      if me != target && target in s.threads && s.threads[target].state != Active { CollectThreads(s, me, target, t); }
    case OpResume(me) =>
      ThreadFacts(s, me);
      ResumeKeepsInv(s, me);
      CollectThreads(s, me, s.threads[me].join.target, t);
    case OpDetach(target) =>
      if target in s.threads && s.threads[target].state == WaitingForJoin { BuryThreads(s, target, t); }
    case OpKill(me, target) => MurderThread(s, me, target, t);
    case OpExitProcess(me, status) => LeaveThreads(s, me, status, t);
    case OpKillProcess(me, pid) => KillProcessJoiner(s, me, pid, t, p);
    case OpSuicide(me) => SuicideThreads(s, me, t);
    case OpReapThread => if s.threadStack != [] { ReapFacts(s); }
    case _ =>
  }

  lemma KillProcessJoiner(s: State, me: Tid, pid: Pid, t: Tid, p: Pid)
    requires Inv(s) && Runs(s, me) && KillProcess(s, me, pid).Done? && t in s.threads && p in s.procs
    requires s.threads[t].join == WaitingForProcess(p) && !ActiveIn(s, pid, t)
    ensures var s' := KillProcess(s, me, pid).s;
            && t in s'.threads
            && s'.threads[t].join == (if p != pid then WaitingForProcess(p)
                                      else if s.threads[me].owner == pid then WokenByProcess(p) else NotJoining)
  {
    hide InvAt, ExitProcess, KillAll, HasProcessJoiner;
    if s.threads[me].owner == pid { LeaveThreads(s, me, -2, t); } else { KillProcessThreads(s, me, pid, t); }
  }

  lemma ProcessJoinerFacts(s: State, t: Tid, p: Pid)
    requires Inv(s) && t in s.threads && s.threads[t].join == WaitingForProcess(p)
    ensures p in s.procs && p in s.usedPids && s.procs[p].state != Exited && s.threads[t].owner != p
    ensures s.threads[t].state == Active
  {
    hide StackOk, ProcStackOk, DeliveredOk;
    ThreadFacts(s, t);
  }

  /** A thread inside a join can only be ended by a kill, which buries it. */
  lemma EndedInsideJoin(s: State, op: Op, t: Tid)
    requires Inv(s) && Enabled(s, op) && Apply(s, op).Done? && Ends(s, op, t) && t in s.threads
    requires s.threads[t].join != NotJoining
    ensures t in Apply(s, op).s.threads && Apply(s, op).s.threads[t].state == Terminated
    ensures Apply(s, op).s.threads[t].join == NotJoining
  {
    hide InvAt, ThreadExit, Buried, HasJoiner, Drop, ExitProcess, KillProcess;
    match op
    case OpKill(me, target) => if target != me { BuryThreads(Unlisted(s, target), target, t); }
    case OpKillProcess(me, pid) => EndedByKill(s, me, pid, t);
    case _ =>
  }

  lemma EndedByKill(s: State, me: Tid, pid: Pid, t: Tid)
    requires Inv(s) && Runs(s, me) && KillProcess(s, me, pid).Done? && ActiveIn(s, pid, t)
             && s.threads[t].join != NotJoining
    ensures var s' := KillProcess(s, me, pid).s;
            t in s'.threads && s'.threads[t].state == Terminated && s'.threads[t].join == NotJoining
  {
    hide InvAt, ExitProcess, KillAll;
    if s.threads[me].owner == pid { LeaveThreads(s, me, -2, t); } else { KillProcessThreads(s, me, pid, t); }
  }

  // ---------------------------------------------------------------------------------------------
  // When a joiner is stranded
  // ---------------------------------------------------------------------------------------------

  /** A process stays active in a step exactly when the step spares one of its active threads. */
  lemma StillActiveIff(s: State, op: Op, p: Pid)
    requires Inv(s) && Enabled(s, op) && Apply(s, op).Done? && p in s.usedPids
    ensures HasActive(Apply(s, op).s, p) <==> exists u: Tid :: ActiveIn(s, p, u) && !Ends(s, op, u)
  {
    hide InvAt, Apply, Enabled, Ends;
    var s' := Apply(s, op).s;
    if u: Tid :| ActiveIn(s, p, u) && !Ends(s, op, u) {
      StepThread(s, op, u);
      assert ActiveIn(s', p, u);
    }
    if u: Tid :| ActiveIn(s', p, u) {
      if u in s.threads {
        StepThread(s, op, u);
        assert ActiveIn(s, p, u) && !Ends(s, op, u);
      } else {
        NewThreadJoinsActive(s, op, p, u);
      }
    }
  }

  lemma NewThreadJoinsActive(s: State, op: Op, p: Pid, u: Tid)
    requires Inv(s) && Enabled(s, op) && Apply(s, op).Done? && p in s.usedPids
    requires u !in s.threads && ActiveIn(Apply(s, op).s, p, u)
    ensures exists v: Tid :: ActiveIn(s, p, v) && !Ends(s, op, v)
  {
    hide InvAt, Apply, Enabled;
    StepNewThread(s, op, u);
    var v: Tid :| ActiveIn(s, p, v);
    assert !Ends(s, op, v);
  }

  /** A thread waits for a process in which nobody is active. */
  ghost predicate Stranded(s: State, t: Tid, p: Pid) {
    t in s.threads && s.threads[t].join == WaitingForProcess(p) && !HasActive(s, p)
  }

  /** The step ends every active thread of the process and does not release its joiners. */
  ghost predicate LosesLast(s: State, op: Op, p: Pid)
    requires Enabled(s, op)
  {
    !Leaves(s, op, p) && !Serves(s, op, p) && forall u: Tid :: ActiveIn(s, p, u) ==> Ends(s, op, u)
  }

  /**
   A joiner of a process becomes stranded in a step exactly when the step ends the last active thread
   of the process by its exit or its kill.
   */
  lemma StrandedIff(s: State, op: Op, t: Tid, p: Pid)
    requires Inv(s) && Enabled(s, op) && Apply(s, op).Done?
    requires t in s.threads && s.threads[t].join == WaitingForProcess(p) && HasActive(s, p)
    ensures Stranded(Apply(s, op).s, t, p) <==> LosesLast(s, op, p)
    ensures LosesLast(s, op, p) ==> op.OpExit? || op.OpKill?
  {
    hide InvAt, Apply, Enabled;
    ProcessJoinerFacts(s, t, p);
    StillActiveIff(s, op, p);
    var v: Tid :| ActiveIn(s, p, v);
    if !Ends(s, op, t) {
      StepProcessJoiner(s, op, t, p);
    } else {
      EndedInsideJoin(s, op, t);
      if Ends(s, op, v) { OneOwnerEnds(s, op, t, v); }
    }
    if LosesLast(s, op, p) { WhoEnds(s, op, p, v); }
  }

  lemma OneOwnerEnds(s: State, op: Op, t: Tid, v: Tid)
    requires Ends(s, op, t) && Ends(s, op, v) && t in s.threads && v in s.threads
    ensures s.threads[t].owner == s.threads[v].owner
  {
  }

  lemma WhoEnds(s: State, op: Op, p: Pid, v: Tid)
    requires Enabled(s, op) && ActiveIn(s, p, v) && LosesLast(s, op, p)
    ensures op.OpExit? || op.OpKill?
  {
    assert Ends(s, op, v);
  }

  // ---------------------------------------------------------------------------------------------
  // What becomes of a stranded joiner
  // ---------------------------------------------------------------------------------------------

  /** A process without active threads stays without them. */
  lemma InactiveForGood(s: State, op: Op, p: Pid)
    requires Inv(s) && Enabled(s, op) && Apply(s, op).Done? && p in s.usedPids && !HasActive(s, p)
    ensures !HasActive(Apply(s, op).s, p)
  {
    hide InvAt, Apply, Enabled, Ends, ActiveIn;
    StillActiveIff(s, op, p);
  }

  ghost predicate Gone(s: State, t: Tid) { t in s.usedTids && (t in s.threads ==> s.threads[t].state == Terminated) }

  lemma UsedGrows(s: State, op: Op)
    requires Inv(s) && Enabled(s, op) && Apply(s, op).Done?
    ensures s.usedTids <= Apply(s, op).s.usedTids && s.usedPids <= Apply(s, op).s.usedPids
  {
    hide InvAt, HasJoiner, Drop, ExitProcess, KillProcess, CommitSuicide;
    match op
    case OpExitProcess(me, status) => LeaveThreads(s, me, status, me);
    case OpKillProcess(me, pid) => KillUses(s, me, pid);
    case OpSuicide(me) => SuicideThreads(s, me, me);
    case _ =>
  }

  lemma KillUses(s: State, me: Tid, pid: Pid)
    requires Inv(s) && Runs(s, me) && KillProcess(s, me, pid).Done?
    ensures KillProcess(s, me, pid).s.usedTids == s.usedTids && KillProcess(s, me, pid).s.usedPids == s.usedPids
    ensures KillProcess(s, me, pid).s.procs.Keys == s.procs.Keys
  {
    hide InvAt, ExitProcess, KillAll;
    if s.threads[me].owner == pid { LeaveThreads(s, me, -2, me); } else { KillProcessThreads(s, me, pid, me); }
  }

  lemma GoneForGood(s: State, op: Op, t: Tid)
    requires Inv(s) && Enabled(s, op) && Apply(s, op).Done? && Gone(s, t)
    ensures Gone(Apply(s, op).s, t)
  {
    hide InvAt, Apply, Enabled;
    UsedGrows(s, op);
    if t in s.threads {
      StepThread(s, op, t);
    } else if t in Apply(s, op).s.threads {
      StepNewThread(s, op, t);
    }
  }

  predicate Kills(op: Op, p: Pid) { op.OpKillProcess? && op.pid == p }

  /**
   A stranded joiner is released by exactly one thing, the kill by pid of the process it waits for, and
   that process is then dead and not freed.  Otherwise it stays stranded until it is killed itself.
   */
  lemma StrandedReleasedIff(s: State, op: Op, t: Tid, p: Pid)
    requires Inv(s) && Enabled(s, op) && Apply(s, op).Done? && Stranded(s, t, p)
    ensures var s' := Apply(s, op).s;
            && (Stranded(s', t, p) <==> !Ends(s, op, t) && !Kills(op, p))
            && (Ends(s, op, t) ==> Gone(s', t))
            && (Kills(op, p) ==> && p in s.procs && s.procs[p].state == Dead
                                 && t in s'.threads && s'.threads[t].state == Active
                                 && s'.threads[t].join == NotJoining)
  {
    hide InvAt, Apply, Enabled, HasActive;
    ProcessJoinerFacts(s, t, p);
    InactiveForGood(s, op, p);
    NobodyCalls(s, op, p);
    UsedGrows(s, op);
    ThreadFacts(s, t);
    if Ends(s, op, t) {
      EndedInsideJoin(s, op, t);
      if Kills(op, p) { NotItsOwn(s, op, t, p); }
    } else {
      StepProcessJoiner(s, op, t, p);
      StepThread(s, op, t);
      if Kills(op, p) { KilledWasDead(s, op, t, p); }
    }
  }

  /** No call is made from inside a process without active threads. */
  lemma NobodyCalls(s: State, op: Op, p: Pid)
    requires Enabled(s, op) && !HasActive(s, p)
    ensures !Leaves(s, op, p) && (Serves(s, op, p) <==> Kills(op, p))
  {
    if op.OpExitProcess? || op.OpKillProcess? || op.OpSuicide? { CallerIsActive(s, op.me, p); }
  }

  lemma CallerIsActive(s: State, me: Tid, p: Pid)
    requires Runs(s, me) && !HasActive(s, p)
    ensures s.threads[me].owner != p
  {
    assert ActiveIn(s, s.threads[me].owner, me);
  }

  lemma NotItsOwn(s: State, op: Op, t: Tid, p: Pid)
    requires t in s.threads && s.threads[t].owner != p && Kills(op, p)
    ensures !Ends(s, op, t)
  {
  }

  /** With somebody waiting, only the kill of a dead process goes through. */
  lemma KilledWasDead(s: State, op: Op, t: Tid, p: Pid)
    requires Inv(s) && Enabled(s, op) && Apply(s, op).Done? && Kills(op, p) && !HasActive(s, p)
    requires t in s.threads && s.threads[t].join == WaitingForProcess(p) && p in s.procs && s.procs[p].state != Exited
    ensures s.procs[p].state == Dead
  {
    hide InvAt, KillProcess, JoinedWhenKilled;
    CallerIsActive(s, op.me, p);
    KillProcessKeepsInv(s, op.me, p);
    assert HasProcessJoiner(s.threads, p);
  }

  predicate NeverKilled(ops: seq<Op>, p: Pid) { forall k :: 0 <= k < |ops| ==> !Kills(ops[k], p) }

  /** In every run in which the process is not killed by pid, a stranded joiner waits until it is killed. */
  lemma {:induction false} StrandedUntilKill(s: State, ops: seq<Op>, t: Tid, p: Pid)
    requires Inv(s) && IsRun(s, ops) && (Stranded(s, t, p) || Gone(s, t)) && NeverKilled(ops, p)
    ensures Stranded(Run(s, ops), t, p) || Gone(Run(s, ops), t)
    decreases |ops|
  {
    hide InvAt, Apply, Enabled, Stranded, Gone, Ends;
    if ops != [] {
      ApplyKeepsInv(s, ops[0]);
      if Gone(s, t) { GoneForGood(s, ops[0], t); } else { StrandedReleasedIff(s, ops[0], t, p); }
      StrandedUntilKill(Apply(s, ops[0]).s, ops[1..], t, p);
    }
  }

  // ---------------------------------------------------------------------------------------------
  // What becomes of a process without active threads
  // ---------------------------------------------------------------------------------------------

  /** A live process in which nobody is active. */
  ghost predicate Forgotten(s: State, p: Pid) { p in s.procs && s.procs[p].state == Live && !HasActive(s, p) }

  /** A join strands the caller at once exactly when the process is forgotten. */
  lemma JoinStrandsIff(s: State, me: Tid, p: Pid)
    requires Inv(s) && Enabled(s, OpJoinProcess(me, p)) && Apply(s, OpJoinProcess(me, p)).Done?
    ensures Stranded(Apply(s, OpJoinProcess(me, p)).s, me, p) <==> Forgotten(s, p) && s.threads[me].owner != p
  {
    hide InvAt;
    var s' := Apply(s, OpJoinProcess(me, p)).s;
    assert forall u: Tid :: ActiveIn(s', p, u) <==> ActiveIn(s, p, u);
  }

  /**
   The last active thread of a process decides what an exit leaves: a dead process on the clean-up
   stack exactly when the thread is detached and no other thread waits to be joined, and otherwise a
   live process without active threads.
   */
  lemma LastExitOutcome(s: State, me: Tid, retval: int)
    requires Inv(s) && Runs(s, me) && !HasActiveSibling(s, me)
    ensures ThreadExit(s, me, retval).Done?
    ensures var p, s' := s.threads[me].owner, ThreadExit(s, me, retval).s;
            && !HasActive(s', p) && p in s'.procs
            && s'.procs[p].state == (if s.threads[me].detached && s.procs[p].live == 1 then Dead else Live)
            && (p in s'.procStack <==> s.threads[me].detached && s.procs[p].live == 1)
  {
    hide InvAt, Drop, HasActiveSibling;
    ThreadFacts(s, me);
    ThreadExitKeepsInv(s, Settled, me, retval);
    var p, s' := s.threads[me].owner, ThreadExit(s, me, retval).s;
    LiveIsNotStacked(s, p);
    forall u: Tid ensures !ActiveIn(s', p, u) {
      if u in s.threads { ExitThreads(s, me, retval, u); NoSibling(s, me, u); } else { ExitThreads(s, me, retval, me); }
    }
  }

  lemma LiveIsNotStacked(s: State, p: Pid)
    requires Inv(s) && p in s.procs && s.procs[p].state != Dead
    ensures p !in s.procStack && s.reaping != Some(p)
  {
  }

  lemma UsedProcess(s: State, p: Pid)
    requires Inv(s) && p in s.procs
    ensures p in s.usedPids
  {
  }

  /** An exit changes no other process. */
  lemma ExitProcesses(s: State, me: Tid, retval: int, p: Pid)
    requires me in s.threads && s.threads[me].owner in s.procs && ThreadExit(s, me, retval).Done?
    requires p in s.procs && p != s.threads[me].owner
    ensures p in ThreadExit(s, me, retval).s.procs && ThreadExit(s, me, retval).s.procs[p] == s.procs[p]
  {
    hide Drop;
  }

  lemma LeaveProcesses(s: State, me: Tid, status: int, p: Pid)
    requires me in s.threads && s.threads[me].owner in s.procs && ExitProcess(s, me, status).Done?
    requires p in s.procs && p != s.threads[me].owner
    ensures p in ExitProcess(s, me, status).s.procs && ExitProcess(s, me, status).s.procs[p] == s.procs[p]
  {
    hide ThreadExit;
    var pid := s.threads[me].owner;
    ExitProcesses(ExitMarked(s, pid, status), me, 0, p);
  }

  lemma SuicideProcesses(s: State, me: Tid, p: Pid)
    requires me in s.threads && s.threads[me].owner in s.procs && CommitSuicide(s, me).Done?
    requires p in s.procs && p != s.threads[me].owner
    ensures p in CommitSuicide(s, me).s.procs && CommitSuicide(s, me).s.procs[p] == s.procs[p]
  {
    hide ThreadExit;
    var pid := s.threads[me].owner;
    ExitProcesses(SuicideMarked(s, pid), me, 0, p);
  }

  /** The kill by pid of another process: that process is dead and queued afterwards, the others stay as they are. */
  lemma KillProcesses(s: State, me: Tid, pid: Pid, p: Pid)
    requires Inv(s) && Runs(s, me) && s.threads[me].owner != pid && pid in s.procs
    requires KillProcess(s, me, pid).Done? && p in s.procs
    ensures var s' := KillProcess(s, me, pid).s;
            && p in s'.procs && s'.procs[p].state == (if p == pid then Dead else s.procs[p].state)
            && s'.procStack == s.procStack + (if s.procs[pid].state == Dead then [] else [pid])
            && s'.reaping == s.reaping
            && s'.procs.Keys == s.procs.Keys
  {
    hide InvAt, KillAll, HasProcessJoiner, JoinedWhenKilled;
    KillAllKeepsInv(s, pid, s.procs[pid].list);
  }

  /** A forgotten process can be killed by pid exactly when nobody waits for it. */
  lemma ForgottenKillIff(s: State, me: Tid, p: Pid)
    requires Inv(s) && Forgotten(s, p) && Runs(s, me)
    ensures KillProcess(s, me, p).Done? <==> !HasProcessJoiner(s.threads, p)
  {
    hide InvAt, KillProcess, HasActive;
    CallerIsActive(s, me, p);
    KillProcessKeepsInv(s, me, p);
    NobodyIsListed(s, p);
    NobodyListed(s.threads);
  }

  lemma NobodyIsListed(s: State, p: Pid)
    requires Inv(s) && p in s.procs && !HasActive(s, p)
    ensures s.procs[p].list == []
  {
    if s.procs[p].list != [] {
      ListedFacts(s, p, s.procs[p].list[0]);
      assert ActiveIn(s, p, s.procs[p].list[0]);
    }
  }

  /** One step of a forgotten process: it stays forgotten unless it is killed by pid, and is then queued. */
  lemma ForgottenStep(s: State, op: Op, p: Pid)
    requires Inv(s) && Enabled(s, op) && Apply(s, op).Done? && Forgotten(s, p)
    ensures !Kills(op, p) ==> Forgotten(Apply(s, op).s, p)
    ensures Kills(op, p) ==>
              p in Apply(s, op).s.procStack && p in Apply(s, op).s.procs && Apply(s, op).s.procs[p].state == Dead
  {
    hide InvAt, Drop, HasJoiner, HasProcessJoiner, HasActive, ThreadExit, ExitProcess, KillProcess, CommitSuicide;
    UsedProcess(s, p);
    InactiveForGood(s, op, p);
    LiveIsNotStacked(s, p);
    match op
    case OpCreate(me, _, _) => CallerIsActive(s, me, p);
    case OpExit(me, retval) =>
      CallerIsActive(s, me, p);
      ExitProcesses(s, me, retval, p);
    case OpKill(me, target) =>
      CallerIsActive(s, me, p);
      if target == me { ExitProcesses(s, me, 0, p); }
    case OpExitProcess(me, status) =>
      CallerIsActive(s, me, p);
      LeaveProcesses(s, me, status, p);
    case OpKillProcess(me, pid) =>
      CallerIsActive(s, me, p);
      KilledOrNot(s, me, pid, p);
    case OpSuicide(me) =>
      CallerIsActive(s, me, p);
      SuicideProcesses(s, me, p);
    case OpReapThread => if s.threadStack != [] { ReapFacts(s); }
    case _ =>
  }

  lemma KilledOrNot(s: State, me: Tid, pid: Pid, p: Pid)
    requires Inv(s) && Runs(s, me) && s.threads[me].owner != p && p in s.procs && KillProcess(s, me, pid).Done?
    ensures var s' := KillProcess(s, me, pid).s;
            && p in s'.procs && s'.procs[p].state == (if p == pid then Dead else s.procs[p].state)
            && (p == pid && s.procs[p].state != Dead ==> p in s'.procStack)
  {
    hide InvAt, KillAll, ExitProcess;
    if s.threads[me].owner == pid {
      LeaveProcesses(s, me, -2, p);
    } else if pid in s.procs {
      KillProcesses(s, me, pid, p);
    }
  }

  /** The process has come to an end. */
  ghost predicate Over(s: State, p: Pid) { p in s.usedPids && (p in s.procs ==> s.procs[p].state != Live) }

  lemma OverStep(s: State, op: Op, p: Pid)
    requires Inv(s) && Enabled(s, op) && Apply(s, op).Done? && Over(s, p)
    ensures Over(Apply(s, op).s, p)
  {
    hide InvAt, Drop, HasJoiner, HasProcessJoiner, ThreadExit, ExitProcess, KillProcess, CommitSuicide;
    UsedGrows(s, op);
    match op
    case OpExit(me, retval) => CallerIsLive(s, me); ExitKeeps(s, me, retval, p);
    case OpKill(me, target) =>
      CallerIsLive(s, me);
      if target == me { ExitKeeps(s, me, 0, p); }
    case OpExitProcess(me, status) =>
      CallerIsLive(s, me);
      LeaveThreads(s, me, status, me);
      if p in s.procs { LeaveProcesses(s, me, status, p); }
    case OpKillProcess(me, pid) =>
      CallerIsLive(s, me);
      KillUses(s, me, pid);
      if p in s.procs { KilledOrNot(s, me, pid, p); }
    case OpSuicide(me) =>
      CallerIsLive(s, me);
      SuicideThreads(s, me, me);
      if p in s.procs { SuicideProcesses(s, me, p); }
    case _ =>
  }

  lemma CallerIsLive(s: State, me: Tid)
    requires Inv(s) && Runs(s, me)
    ensures s.procs[s.threads[me].owner].state == Live
  {
    hide InvAt;
    ThreadFacts(s, me);
  }

  lemma ExitKeeps(s: State, me: Tid, retval: int, p: Pid)
    requires me in s.threads && s.threads[me].owner in s.procs && ThreadExit(s, me, retval).Done?
    requires p != s.threads[me].owner
    ensures var s' := ThreadExit(s, me, retval).s;
            (p in s'.procs <==> p in s.procs) && (p in s.procs ==> s'.procs[p] == s.procs[p])
              && s'.usedPids == s.usedPids
  {
    ExitThreads(s, me, retval, me);
    if p in s.procs { ExitProcesses(s, me, retval, p); }
  }

  lemma {:induction false} OverForGood(s: State, ops: seq<Op>, p: Pid)
    requires Inv(s) && IsRun(s, ops) && Over(s, p)
    ensures Over(Run(s, ops), p)
    decreases |ops|
  {
    hide InvAt, Apply, Enabled, Over;
    if ops != [] {
      ApplyKeepsInv(s, ops[0]);
      OverStep(s, ops[0], p);
      OverForGood(Apply(s, ops[0]).s, ops[1..], p);
    }
  }

  /**
   In every run a forgotten process stays forgotten, and out of the hands of the reaper, exactly as long
   as nobody kills it by pid.
   */
  lemma {:induction false} ForgottenIff(s: State, ops: seq<Op>, p: Pid)
    requires Inv(s) && IsRun(s, ops) && Forgotten(s, p)
    ensures Forgotten(Run(s, ops), p) <==> NeverKilled(ops, p)
    ensures NeverKilled(ops, p) ==> p !in Run(s, ops).procStack && Run(s, ops).reaping != Some(p)
    ensures !NeverKilled(ops, p) ==> Over(Run(s, ops), p)
    decreases |ops|
  {
    hide InvAt, Apply, Enabled, HasActive;
    if ops == [] {
      LiveIsNotStacked(s, p);
    } else {
      var s' := Apply(s, ops[0]).s;
      ApplyKeepsInv(s, ops[0]);
      ForgottenStep(s, ops[0], p);
      NeverKilledNext(ops, p);
      if Kills(ops[0], p) {
        UsedProcess(s', p);
        OverForGood(s', ops[1..], p);
      } else {
        ForgottenIff(s', ops[1..], p);
      }
    }
  }

  lemma NeverKilledNext(ops: seq<Op>, p: Pid)
    requires ops != []
    ensures NeverKilled(ops, p) <==> !Kills(ops[0], p) && NeverKilled(ops[1..], p)
  {
    assert ops == [ops[0]] + ops[1..];
  }

  /** A joiner of a forgotten process: nothing but its own end frees it, because the kill by pid fails. */
  ghost predicate Trapped(s: State, t: Tid, p: Pid) { Stranded(s, t, p) && Forgotten(s, p) }

  lemma {:induction false} TrappedForGood(s: State, ops: seq<Op>, t: Tid, p: Pid)
    requires Inv(s) && IsRun(s, ops) && (Trapped(s, t, p) || Gone(s, t))
    ensures Trapped(Run(s, ops), t, p) || Gone(Run(s, ops), t)
    decreases |ops|
  {
    hide InvAt, Apply, Enabled, Stranded, Forgotten, Gone, Ends;
    if ops != [] {
      ApplyKeepsInv(s, ops[0]);
      if Gone(s, t) {
        GoneForGood(s, ops[0], t);
      } else {
        StrandedReleasedIff(s, ops[0], t, p);
        ForgottenIsLive(s, p);
        ForgottenStep(s, ops[0], p);
      }
      TrappedForGood(Apply(s, ops[0]).s, ops[1..], t, p);
    }
  }

  lemma ForgottenIsLive(s: State, p: Pid)
    requires Forgotten(s, p)
    ensures p in s.procs && s.procs[p].state == Live
  {
  }

  // ---------------------------------------------------------------------------------------------
  // How often a process is queued for cleaning
  // ---------------------------------------------------------------------------------------------

  /** Every process waits for its cleaner at most once, and is still there. */
  ghost predicate QueuedOnce(s: State) {
    && NoDuplicates(s.procStack) && (s.reaping.Some? ==> s.reaping.value !in s.procStack)
    && forall p :: p in s.procStack ==> p in s.procs
  }

  function ExitPushes(s: State, me: Tid): seq<Pid>
    requires me in s.threads && s.threads[me].owner in s.procs
  {
    if s.threads[me].detached && s.procs[s.threads[me].owner].live == 1 then [s.threads[me].owner] else []
  }

  /** What a step queues for cleaning. */
  ghost function Pushed(s: State, op: Op): seq<Pid>
    requires Enabled(s, op)
  {
    match op
    case OpExit(me, _) => ExitPushes(s, me)
    case OpKill(me, target) => if target == me then ExitPushes(s, me) else []
    case OpExitProcess(me, _) => ExitPushes(s, me)
    case OpKillProcess(me, pid) =>
      if s.threads[me].owner == pid then ExitPushes(s, me)
      else if pid in s.procs && s.procs[pid].state != Dead then [pid] else []
    case OpSuicide(me) => [s.threads[me].owner] + ExitPushes(s, me)
    case OpJoinProcess(me, pid) =>
      if s.threads[me].owner != pid && pid in s.procs && s.procs[pid].state == Exited then [pid] else []
    case OpResumeProcess(me) =>
      var pid := s.threads[me].join.pid;
      if pid in s.procs && s.procs[pid].state == Exited then [pid] else []
    case _ => []
  }

  /** The process queue only changes by what is pushed, and no process disappears. */
  ghost predicate QueueGrows(s: State, s': State, pushed: seq<Pid>) {
    && s'.procStack == s.procStack + pushed && s'.reaping == s.reaping && s.procs.Keys <= s'.procs.Keys
    && forall p :: p in s'.procs && p !in s.procs ==> p !in s.usedPids
  }

  lemma ExitQueue(s: State, me: Tid, retval: int)
    requires me in s.threads && s.threads[me].owner in s.procs && ThreadExit(s, me, retval).Done?
    ensures QueueGrows(s, ThreadExit(s, me, retval).s, ExitPushes(s, me))
  {
    hide Drop;
  }

  lemma LeaveQueue(s: State, me: Tid, status: int)
    requires Runs(s, me) && ExitProcess(s, me, status).Done?
    ensures QueueGrows(s, ExitProcess(s, me, status).s, ExitPushes(s, me))
  {
    hide ThreadExit;
    var pid := s.threads[me].owner;
    ExitQueue(ExitMarked(s, pid, status), me, 0);
  }

  lemma SuicideQueue(s: State, me: Tid)
    requires Runs(s, me) && CommitSuicide(s, me).Done?
    ensures QueueGrows(s, CommitSuicide(s, me).s, [s.threads[me].owner] + ExitPushes(s, me))
  {
    hide ThreadExit;
    var pid := s.threads[me].owner;
    ExitQueue(SuicideMarked(s, pid), me, 0);
    assert s.procStack + [pid] + ExitPushes(s, me) == s.procStack + ([pid] + ExitPushes(s, me));
  }

  lemma KillQueue(s: State, me: Tid, pid: Pid)
    requires Inv(s) && Enabled(s, OpKillProcess(me, pid)) && KillProcess(s, me, pid).Done?
    ensures QueueGrows(s, KillProcess(s, me, pid).s, Pushed(s, OpKillProcess(me, pid)))
  {
    hide InvAt, KillAll, ExitProcess;
    if s.threads[me].owner == pid {
      LeaveQueue(s, me, -2);
    } else if pid in s.procs {
      KillProcesses(s, me, pid, pid);
    }
  }

  lemma StepQueue(s: State, op: Op)
    requires Inv(s) && Enabled(s, op) && Apply(s, op).Done? && !op.OpTakeProcess? && !op.OpFreeProcess?
    ensures QueueGrows(s, Apply(s, op).s, Pushed(s, op))
  {
    hide InvAt, Drop, HasJoiner, HasProcessJoiner, ThreadExit, ExitProcess, KillProcess, CommitSuicide;
    match op
    case OpExit(me, retval) => ExitQueue(s, me, retval);
    case OpKill(me, target) => if target == me { ExitQueue(s, me, 0); }
    case OpExitProcess(me, status) => LeaveQueue(s, me, status);
    case OpKillProcess(me, pid) => KillQueue(s, me, pid);
    case OpSuicide(me) => SuicideQueue(s, me);
    case _ =>
  }

  /** The suicide of a detached thread that is the only one left queues its process twice. */
  ghost predicate QueuesTwice(s: State, op: Op)
    requires Enabled(s, op)
  {
    op.OpSuicide? && s.threads[op.me].detached && s.procs[s.threads[op.me].owner].live == 1
  }

  lemma PushedIsFresh(s: State, op: Op)
    requires Inv(s) && Enabled(s, op)
    ensures QueuesTwice(s, op) ==> |Pushed(s, op)| == 2 && Pushed(s, op)[0] == Pushed(s, op)[1]
    ensures !QueuesTwice(s, op) ==> |Pushed(s, op)| <= 1
    ensures !QueuesTwice(s, op) && |Pushed(s, op)| == 1 ==>
              Pushed(s, op)[0] in s.procs && s.procs[Pushed(s, op)[0]].state != Dead
  {
    hide InvAt;
    match op
    case OpExit(me, _) => CallerIsLive(s, me);
    case OpKill(me, _) => CallerIsLive(s, me);
    case OpExitProcess(me, _) => CallerIsLive(s, me);
    case OpKillProcess(me, _) => CallerIsLive(s, me);
    case OpSuicide(me) => CallerIsLive(s, me);
    case _ =>
  }

  lemma SnocOnceIff(q: seq<nat>, x: nat)
    ensures NoDuplicates(q + [x]) <==> NoDuplicates(q) && x !in q
  {
    if NoDuplicates(q + [x]) {
      forall i, j | 0 <= i < j < |q| ensures q[i] != q[j] { assert (q + [x])[i] != (q + [x])[j]; }
      forall i | 0 <= i < |q| ensures q[i] != x { assert (q + [x])[i] != (q + [x])[|q|]; }
    }
  }

  lemma GrowthIsExact(s: State, s': State, pushed: seq<Pid>)
    requires Inv(s) && QueueGrows(s, s', pushed)
    requires |pushed| <= 1 && (|pushed| == 1 ==> pushed[0] in s.procs && s.procs[pushed[0]].state != Dead)
    ensures QueuedOnce(s') <==> QueuedOnce(s)
  {
    hide InvAt, NoDuplicates;
    StackIsUsed(s);
    if pushed == [] {
      assert s'.procStack == s.procStack;
    } else {
      var p := pushed[0];
      LiveIsNotStacked(s, p);
      SnocOnceIff(s.procStack, p);
      assert pushed == [p];
      assert forall x :: x in s'.procStack <==> x in s.procStack || x == p;
    }
  }

  lemma StackIsUsed(s: State)
    requires Inv(s)
    ensures forall p :: p in s.procStack ==> p in s.usedPids
    ensures s.reaping.Some? ==> s.reaping.value in s.procs
  {
  }

  lemma GrowthIsDouble(s: State, s': State, pushed: seq<Pid>)
    requires QueueGrows(s, s', pushed) && |pushed| == 2 && pushed[0] == pushed[1]
    ensures !QueuedOnce(s')
  {
    var n := |s.procStack|;
    assert s'.procStack[n] == s'.procStack[n + 1];
  }

  lemma TakeOnceIff(s: State)
    requires Inv(s) && TakeProcess(s).Done?
    ensures QueuedOnce(TakeProcess(s).s) <==> QueuedOnce(s)
  {
    hide InvAt, NoDuplicates;
    if TakeProcess(s).s != s {
      var s' := TakeProcess(s).s;
      SnocOnceIff(s'.procStack, s'.reaping.value);
      assert s.procStack == s'.procStack + [s'.reaping.value];
    }
  }

  lemma FreeOnceIff(s: State)
    requires Inv(s) && FreeProcess(s).Done?
    ensures QueuedOnce(FreeProcess(s).s) <==> QueuedOnce(s)
  {
    hide InvAt, NoDuplicates;
    StackIsUsed(s);
  }

  /** One step keeps the queue exact unless it queues a process twice, and never mends it. */
  lemma QueuedOnceStep(s: State, op: Op)
    requires Inv(s) && Enabled(s, op) && Apply(s, op).Done?
    ensures QueuedOnce(Apply(s, op).s) <==> QueuedOnce(s) && !QueuesTwice(s, op)
  {
    hide InvAt, QueuedOnce, QueueGrows, TakeProcess, FreeProcess, Pushed;
    if op.OpTakeProcess? {
      TakeOnceIff(s);
    } else if op.OpFreeProcess? {
      FreeOnceIff(s);
    } else {
      StepQueue(s, op);
      PushedIsFresh(s, op);
      if QueuesTwice(s, op) {
        GrowthIsDouble(s, Apply(s, op).s, Pushed(s, op));
      } else {
        GrowthIsExact(s, Apply(s, op).s, Pushed(s, op));
      }
    }
  }

  ghost predicate EverQueuesTwice(s: State, ops: seq<Op>)
    requires IsRun(s, ops)
    decreases |ops|
  {
    ops != [] && (QueuesTwice(s, ops[0]) || EverQueuesTwice(Apply(s, ops[0]).s, ops[1..]))
  }

  /**
   After every run each process is queued once, and the reaper finds what it takes, exactly when no
   detached thread that was the only one left has committed suicide.
   */
  lemma {:induction false} QueuedOnceIff(s: State, ops: seq<Op>)
    requires Inv(s) && IsRun(s, ops)
    ensures QueuedOnce(Run(s, ops)) <==> QueuedOnce(s) && !EverQueuesTwice(s, ops)
    ensures QueuedOnce(Run(s, ops)) ==> !Fails(Run(s, ops), OpTakeProcess)
    decreases |ops|
  {
    hide InvAt, Apply, Enabled, NoDuplicates, QueuesTwice;
    if ops != [] {
      ApplyKeepsInv(s, ops[0]);
      QueuedOnceStep(s, ops[0]);
      QueuedOnceIff(Apply(s, ops[0]).s, ops[1..]);
    }
  }
}
