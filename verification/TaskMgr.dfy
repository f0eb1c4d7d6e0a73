/**
 Thread and process lifecycle (`Sched::TaskMgr`): creation, exit, join, detach, the kill of a thread and
 of a process, suicide, and the two reapers.

 A thread is `Active` while it is ready, running, sleeping or blocked.  A join that has to wait is two
 steps, before and after the blocked part; everything else runs under the core lock and is one step.
 Thread and process identifiers include the generation count, so they are never used twice.
 */
module TaskMgr {
  import opened Basics

  type Pid = nat

  datatype ThreadState = Active | WaitingForJoin | Terminated

  /** What the thread is waiting for inside a join, or has been released from. */
  datatype Join =
    | NotJoining
    | Waiting(target: Tid)
    | Woken(target: Tid)
    | WaitingForProcess(pid: Pid)
    | WokenByProcess(pid: Pid)

  datatype Thread = Thread(owner: Pid, state: ThreadState, detached: bool, retval: int, join: Join)

  datatype ProcessState = Live | Exited | Dead

  datatype Process = Process(state: ProcessState, status: int, live: int, toClean: int, list: seq<Tid>)

  datatype State = State(threads: map<Tid, Thread>, procs: map<Pid, Process>, threadStack: seq<Tid>,
                         procStack: seq<Pid>, reaping: Option<Pid>, usedTids: set<Tid>, usedPids: set<Pid>,
                         delivered: seq<Tid>)

  datatype Reason = AssertFailed | Dangling

  datatype Reply = Nothing | Value(v: int) | Refused

  datatype Outcome = Panic(why: Reason) | Done(s: State, reply: Reply)

  // ---------------------------------------------------------------------------------------------
  // The operations
  // ---------------------------------------------------------------------------------------------

  /** A thread in a final state is handed to the reaper and leaves the live count. */
  function Buried(s: State, t: Tid): State
    requires t in s.threads && s.threads[t].owner in s.procs
  {
    var th := s.threads[t];
    var p := s.procs[th.owner];
    s.(threads := s.threads[t := th.(state := Terminated, join := NotJoining)],
       threadStack := s.threadStack + [t],
       procs := s.procs[th.owner := p.(toClean := p.toClean + 1, live := p.live - 1)])
  }

  function Unlisted(s: State, t: Tid): State
    requires t in s.threads && s.threads[t].owner in s.procs
  {
    var p := s.procs[s.threads[t].owner];
    s.(procs := s.procs[s.threads[t].owner := p.(list := Drop(p.list, t))])
  }

  /** Everyone who waits for the thread becomes ready. */
  function JoinersWoken(threads: map<Tid, Thread>, target: Tid): (r: map<Tid, Thread>)
    ensures r.Keys == threads.Keys
  {
    map t | t in threads ::
      if threads[t].join == Waiting(target) then threads[t].(join := Woken(target)) else threads[t]
  }

  function ProcessJoinersWoken(threads: map<Tid, Thread>, pid: Pid): (r: map<Tid, Thread>)
    ensures r.Keys == threads.Keys
  {
    map t | t in threads ::
      if threads[t].join == WaitingForProcess(pid) then threads[t].(join := WokenByProcess(pid)) else threads[t]
  }

  /** Everyone who waits for the process is run to the end of its join. */
  function ProcessJoinersServed(threads: map<Tid, Thread>, pid: Pid): (r: map<Tid, Thread>)
    ensures r.Keys == threads.Keys
  {
    map t | t in threads ::
      if threads[t].join == WaitingForProcess(pid) then threads[t].(join := NotJoining) else threads[t]
  }

  function StartProcess(s: State, pid: Pid, tid: Tid, detached: bool): Outcome {
    Done(s.(procs := s.procs[pid := Process(Live, 0, 1, 0, [tid])], usedPids := s.usedPids + {pid},
            threads := s.threads[tid := Thread(pid, Active, detached, 0, NotJoining)],
            usedTids := s.usedTids + {tid}), Nothing)
  }

  function CreateThread(s: State, me: Tid, tid: Tid, detached: bool): Outcome
    requires me in s.threads && s.threads[me].owner in s.procs
  {
    var pid := s.threads[me].owner;
    var p := s.procs[pid];
    if p.state != Live then Panic(AssertFailed)
    else Done(s.(procs := s.procs[pid := p.(live := p.live + 1, list := [tid] + p.list)],
                 threads := s.threads[tid := Thread(pid, Active, detached, 0, NotJoining)],
                 usedTids := s.usedTids + {tid}), Nothing)
  }

  function ThreadExit(s: State, me: Tid, retval: int): Outcome
    requires me in s.threads && s.threads[me].owner in s.procs
  {
    var th := s.threads[me];
    var p := s.procs[th.owner];
    if me !in p.list then Panic(AssertFailed)
    else
      var gone := Unlisted(s, me).(threads := JoinersWoken(s.threads[me := th.(retval := retval)], me));
      if th.detached || p.live == 1 then
        if p.live == 0 then Panic(AssertFailed)
        else
          var dead := Buried(gone, me);
          if th.detached && dead.procs[th.owner].live == 0 then
            Done(dead.(procs := dead.procs[th.owner := dead.procs[th.owner].(state := Dead)],
                       procStack := dead.procStack + [th.owner]), Nothing)
          else Done(dead, Nothing)
      else Done(gone.(threads := gone.threads[me := gone.threads[me].(state := WaitingForJoin)]), Nothing)
  }

  /** The part of `JoinThread` after the wait. */
  function Collect(s: State, me: Tid, target: Tid): Outcome
    requires me in s.threads && (target in s.threads ==> s.threads[target].owner in s.procs)
  {
    var free := s.(threads := s.threads[me := s.threads[me].(join := NotJoining)]);
    if target !in s.threads then Panic(Dangling)
    else match s.threads[target].state
      case WaitingForJoin => Done(Buried(free, target).(delivered := s.delivered + [target]),
                                  Value(s.threads[target].retval))
      case Active => Panic(AssertFailed)
      case Terminated => Done(free, Refused)
  }

  function JoinThread(s: State, me: Tid, target: Tid): Outcome
    requires me in s.threads && (target in s.threads ==> s.threads[target].owner in s.procs)
  {
    if me == target || target !in s.threads then Done(s, Refused)
    else if s.threads[target].state == Active then
      Done(s.(threads := s.threads[me := s.threads[me].(join := Waiting(target))]), Nothing)
    else Collect(s, me, target)
  }

  function DetachThread(s: State, target: Tid): Outcome
    requires target in s.threads ==> s.threads[target].owner in s.procs
  {
    if target !in s.threads then Done(s, Refused)
    else if s.threads[target].state == WaitingForJoin then Done(Buried(s, target), Nothing)
    else Done(s.(threads := s.threads[target := s.threads[target].(detached := true)]), Nothing)
  }

  predicate HasJoiner(threads: map<Tid, Thread>, target: Tid) {
    exists t :: t in threads && threads[t].join == Waiting(target)
  }

  /**
   `CommitMurder(Tid)`: joiners are run before the victim is marked, and the first of them fails its
   assertion on the victim's state.
   */
  function CommitMurder(s: State, me: Tid, target: Tid): Outcome
    requires me in s.threads && s.threads[me].owner in s.procs
             && (target in s.threads ==> s.threads[target].owner in s.procs)
  {
    if target == me then ThreadExit(s, me, 0)
    else if target !in s.threads then Done(s, Refused)
    else if s.threads[target].state == Terminated then Done(s, Nothing)
    else if target !in s.procs[s.threads[target].owner].list || HasJoiner(s.threads, target) then Panic(AssertFailed)
    else Done(Buried(Unlisted(s, target), target), Nothing)
  }

  /** The process is marked as exited and its joiners are released. */
  function ExitMarked(s: State, pid: Pid, status: int): State
    requires pid in s.procs
  {
    s.(procs := s.procs[pid := s.procs[pid].(state := Exited, status := status)],
       threads := ProcessJoinersWoken(s.threads, pid))
  }

  /** `ExitProcess`: every other listed thread is taken off the list and then killed through the list. */
  function ExitProcess(s: State, me: Tid, status: int): Outcome
    requires me in s.threads && s.threads[me].owner in s.procs
  {
    var pid := s.threads[me].owner;
    var p := s.procs[pid];
    if p.list != [me] then Panic(AssertFailed)
    else ThreadExit(ExitMarked(s, pid, status), me, 0)
  }

  predicate HasProcessJoiner(threads: map<Tid, Thread>, pid: Pid) {
    exists t :: t in threads && threads[t].join == WaitingForProcess(pid)
  }

  /** Kills the threads in order, each like `CommitMurder(Tid)` kills a listed one. */
  function KillAll(s: State, ts: seq<Tid>): Outcome
    decreases |ts|
  {
    if ts == [] then Done(s, Nothing)
    else if ts[0] !in s.threads || s.threads[ts[0]].owner !in s.procs || HasJoiner(s.threads, ts[0])
    then Panic(AssertFailed)
    else KillAll(Buried(Unlisted(s, ts[0]), ts[0]), ts[1..])
  }

  /**
   `CommitMurder(Pid)`: joiners are run before the process is marked.  While it counts as live the first
   of them fails its assertion on the state; of a dead process they are told that it was joined already.
   */
  function KillProcess(s: State, me: Tid, pid: Pid): Outcome
    requires me in s.threads && s.threads[me].owner in s.procs
  {
    if s.threads[me].owner == pid then ExitProcess(s, me, -2)
    else if pid !in s.procs then Done(s, Refused)
    else match KillAll(s, s.procs[pid].list)
      case Panic(why) => Panic(why)
      case Done(s1, _) =>
        if pid !in s1.procs || (s1.procs[pid].state == Live && HasProcessJoiner(s1.threads, pid))
        then Panic(AssertFailed)
        else
          var s2 := s1.(threads := ProcessJoinersServed(s1.threads, pid));
          Done(if s1.procs[pid].state == Dead then s2 else Killed(s2, pid, -2), Nothing)
  }

  /** The process is marked and queued for cleaning. */
  function Killed(s: State, pid: Pid, status: int): State
    requires pid in s.procs
  {
    s.(procs := s.procs[pid := s.procs[pid].(state := Dead, status := status)], procStack := s.procStack + [pid])
  }

  /** The process is marked as dead and queued, and its joiners have been run. */
  function SuicideMarked(s: State, pid: Pid): State
    requires pid in s.procs
  {
    Killed(s.(threads := ProcessJoinersServed(s.threads, pid)), pid, -1)
  }

  /**
   `CommitSuicide`: the process is marked and queued, by its first joiner or by itself, and then the last
   thread leaves like any other.
   */
  function CommitSuicide(s: State, me: Tid): Outcome
    requires me in s.threads && s.threads[me].owner in s.procs
  {
    var pid := s.threads[me].owner;
    if s.procs[pid].list != [me] then Panic(AssertFailed)
    else ThreadExit(SuicideMarked(s, pid), me, 0)
  }

  function CollectProcess(s: State, me: Tid, pid: Pid): Outcome
    requires me in s.threads
  {
    var free := s.(threads := s.threads[me := s.threads[me].(join := NotJoining)]);
    if pid !in s.procs then Panic(Dangling)
    else match s.procs[pid].state
      case Exited => Done(free.(procs := s.procs[pid := s.procs[pid].(state := Dead)],
                                procStack := s.procStack + [pid]),
                          Value(s.procs[pid].status))
      case Live => Panic(AssertFailed)
      case Dead => Done(free, Refused)
  }

  function JoinProcess(s: State, me: Tid, pid: Pid): Outcome
    requires me in s.threads
  {
    if s.threads[me].owner == pid || pid !in s.procs then Done(s, Refused)
    else if s.procs[pid].state == Live then
      Done(s.(threads := s.threads[me := s.threads[me].(join := WaitingForProcess(pid))]), Nothing)
    else CollectProcess(s, me, pid)
  }

  /** `ThreadRipperClean_` on the top of the stack. */
  function ReapThread(s: State): Outcome {
    if s.threadStack == [] then Done(s, Nothing)
    else
      var n := |s.threadStack| - 1;
      var t := s.threadStack[n];
      if t !in s.threads || s.threads[t].owner !in s.procs || HasJoiner(s.threads, t) then Panic(AssertFailed)
      else
        var pid := s.threads[t].owner;
        if s.procs[pid].toClean == 0 then Panic(AssertFailed)
        else Done(s.(threads := s.threads - {t}, threadStack := s.threadStack[..n],
                     procs := s.procs[pid := s.procs[pid].(toClean := s.procs[pid].toClean - 1)]), Nothing)
  }

  /** `ProcessRipperClean_` takes a process, asserts that it exists and waits until its counters are zero. */
  function TakeProcess(s: State): Outcome {
    if s.procStack == [] || s.reaping.Some? then Done(s, Nothing)
    else
      var n := |s.procStack| - 1;
      if s.procStack[n] !in s.procs then Panic(AssertFailed)
      else Done(s.(procStack := s.procStack[..n], reaping := Some(s.procStack[n])), Nothing)
  }

  /** The clean-up of a process asserts that nobody is queued on it any more. */
  function FreeProcess(s: State): Outcome {
    if s.reaping.None? || s.reaping.value !in s.procs then Done(s, Nothing)
    else
      var pid := s.reaping.value;
      if s.procs[pid].toClean != 0 || s.procs[pid].live != 0 then Done(s, Nothing)
      else if HasProcessJoiner(s.threads, pid) then Panic(AssertFailed)
      else Done(s.(procs := s.procs - {pid}, reaping := None), Nothing)
  }

  datatype Op =
    | OpStart(pid: Pid, tid: Tid, detached: bool)
    | OpCreate(me: Tid, tid: Tid, detached: bool)
    | OpExit(me: Tid, retval: int)
    | OpJoin(me: Tid, target: Tid)
    | OpResume(me: Tid)
    | OpDetach(target: Tid)
    | OpKill(me: Tid, target: Tid)
    | OpExitProcess(me: Tid, status: int)
    | OpKillProcess(me: Tid, pid: Pid)
    | OpSuicide(me: Tid)
    | OpJoinProcess(me: Tid, pid: Pid)
    | OpResumeProcess(me: Tid)
    | OpReapThread
    | OpTakeProcess
    | OpFreeProcess

  /** The thread is in a position to make a call. */
  ghost predicate Runs(s: State, me: Tid) {
    me in s.threads && s.threads[me].state == Active && s.threads[me].join == NotJoining
      && s.threads[me].owner in s.procs
  }

  ghost predicate Enabled(s: State, op: Op) {
    match op
    case OpStart(pid, tid, _) => pid !in s.usedPids && tid !in s.usedTids
    case OpCreate(me, tid, _) => Runs(s, me) && tid !in s.usedTids
    case OpExit(me, _) => Runs(s, me)
    case OpJoin(me, target) => Runs(s, me) && (target in s.threads ==> s.threads[target].owner in s.procs)
    case OpResume(me) =>
      && me in s.threads && s.threads[me].state == Active && s.threads[me].join.Woken?
      && (s.threads[me].join.target in s.threads ==> s.threads[s.threads[me].join.target].owner in s.procs)
    case OpDetach(target) => target in s.threads ==> s.threads[target].owner in s.procs
    case OpKill(me, target) => Runs(s, me) && (target in s.threads ==> s.threads[target].owner in s.procs)
    case OpExitProcess(me, _) => Runs(s, me)
    case OpKillProcess(me, _) => Runs(s, me)
    case OpSuicide(me) => Runs(s, me)
    case OpJoinProcess(me, _) => Runs(s, me)
    case OpResumeProcess(me) => me in s.threads && s.threads[me].state == Active && s.threads[me].join.WokenByProcess?
    case _ => true
  }

  ghost function Apply(s: State, op: Op): Outcome
    requires Enabled(s, op)
  {
    match op
    case OpStart(pid, tid, detached) => StartProcess(s, pid, tid, detached)
    case OpCreate(me, tid, detached) => CreateThread(s, me, tid, detached)
    case OpExit(me, retval) => ThreadExit(s, me, retval)
    case OpJoin(me, target) => JoinThread(s, me, target)
    case OpResume(me) => Collect(s, me, s.threads[me].join.target)
    case OpDetach(target) => DetachThread(s, target)
    case OpKill(me, target) => CommitMurder(s, me, target)
    case OpExitProcess(me, status) => ExitProcess(s, me, status)
    case OpKillProcess(me, pid) => KillProcess(s, me, pid)
    case OpSuicide(me) => CommitSuicide(s, me)
    case OpJoinProcess(me, pid) => JoinProcess(s, me, pid)
    case OpResumeProcess(me) => CollectProcess(s, me, s.threads[me].join.pid)
    case OpReapThread => ReapThread(s)
    case OpTakeProcess => TakeProcess(s)
    case OpFreeProcess => FreeProcess(s)
  }

  // ---------------------------------------------------------------------------------------------
  // The invariant
  // ---------------------------------------------------------------------------------------------

  function LiveSet(threads: map<Tid, Thread>, p: Pid): set<Tid> {
    set t | t in threads && threads[t].owner == p && threads[t].state != Terminated
  }

  function CleanSet(threads: map<Tid, Thread>, p: Pid): set<Tid> {
    set t | t in threads && threads[t].owner == p && threads[t].state == Terminated
  }

  /**
   In the middle of an exit: a thread about to leave may already have marked its process, and
   a thread that is out has left the list and released its joiners but not changed its state yet.
   */
  datatype Mid = Settled | Leaving(t: Tid) | Out(t: Tid)

  ghost predicate IsActive(threads: map<Tid, Thread>, mid: Mid, t: Tid) {
    t in threads && threads[t].state == Active && mid != Out(t)
  }

  ghost predicate CountsOk(threads: map<Tid, Thread>, pid: Pid, p: Process) {
    p.live == |LiveSet(threads, pid)| && p.toClean == |CleanSet(threads, pid)|
  }

  ghost predicate ListOk(threads: map<Tid, Thread>, mid: Mid, pid: Pid, p: Process) {
    NoDuplicates(p.list) && forall t :: t in p.list <==> IsActive(threads, mid, t) && threads[t].owner == pid
  }

  /** The counters are exact and the list holds exactly the active threads. */
  ghost predicate ProcessOk(threads: map<Tid, Thread>, mid: Mid, pid: Pid, p: Process) {
    CountsOk(threads, pid, p) && ListOk(threads, mid, pid, p)
  }

  ghost predicate JoinOk(s: State, mid: Mid, th: Thread) {
    && (th.join != NotJoining ==> th.state == Active)
    && (th.join.Waiting? ==> IsActive(s.threads, mid, th.join.target))
    && (th.join.Woken? ==> th.join.target in s.usedTids && !IsActive(s.threads, mid, th.join.target))
    && (th.join.WaitingForProcess? ==>
          th.join.pid != th.owner && th.join.pid in s.procs && s.procs[th.join.pid].state != Exited)
    && (th.join.WokenByProcess? ==>
          th.join.pid in s.usedPids && (th.join.pid in s.procs ==> s.procs[th.join.pid].state != Live))
  }

  ghost predicate ThreadOk(s: State, mid: Mid, t: Tid) {
    t in s.threads && var th := s.threads[t];
    && th.owner in s.procs && JoinOk(s, mid, th)
    && (IsActive(s.threads, mid, t) ==> s.procs[th.owner].state == Live || mid == Leaving(t))
    && (mid == Out(t) ==> th.state == Active && th.join == NotJoining)
  }

  /** The clean-up stack holds exactly the terminated threads that have not been reaped. */
  ghost predicate StackOk(s: State) {
    && NoDuplicates(s.threadStack)
    && forall t :: t in s.threadStack <==> t in s.threads && s.threads[t].state == Terminated
  }

  /**
   Every dead process is on its clean-up stack or in the reaper's hands, and no other process is.  That
   it is there once is a separate matter (`QueuedOnce`).
   */
  ghost predicate ProcStackOk(s: State) {
    && (forall p :: p in s.procStack ==> p in s.usedPids && (p in s.procs ==> s.procs[p].state == Dead))
    && (s.reaping.Some? ==> s.reaping.value in s.procs && s.procs[s.reaping.value].state == Dead)
    && (forall p :: p in s.procs && s.procs[p].state == Dead ==> p in s.procStack || s.reaping == Some(p))
  }

  /** A value was handed out at most once, and only by a thread that is finished. */
  ghost predicate DeliveredOk(s: State) {
    && NoDuplicates(s.delivered)
    && forall t :: t in s.delivered ==> t in s.usedTids && (t in s.threads ==> s.threads[t].state == Terminated)
  }

  ghost predicate InvAt(s: State, mid: Mid) {
    && (forall p :: p in s.procs ==> ProcessOk(s.threads, mid, p, s.procs[p]))
    && (forall t :: t in s.threads ==> ThreadOk(s, mid, t))
    && StackOk(s) && ProcStackOk(s) && DeliveredOk(s)
    && s.threads.Keys <= s.usedTids && s.procs.Keys <= s.usedPids
  }

  ghost predicate Inv(s: State) { InvAt(s, Settled) }

  // ---------------------------------------------------------------------------------------------
  // Counting
  // ---------------------------------------------------------------------------------------------

  /** Changing one thread moves at most that thread between the counted sets. */
  lemma SetsUpdate(threads: map<Tid, Thread>, t: Tid, th: Thread, p: Pid)
    ensures LiveSet(threads[t := th], p)
            == if th.owner == p && th.state != Terminated then LiveSet(threads, p) + {t} else LiveSet(threads, p) - {t}
    ensures CleanSet(threads[t := th], p)
            == if th.owner == p && th.state == Terminated
               then CleanSet(threads, p) + {t} else CleanSet(threads, p) - {t}
  {
  }

  lemma SetsRemove(threads: map<Tid, Thread>, t: Tid, p: Pid)
    ensures LiveSet(threads - {t}, p) == LiveSet(threads, p) - {t}
    ensures CleanSet(threads - {t}, p) == CleanSet(threads, p) - {t}
  {
  }

  /** The counts depend on owners and states only. */
  lemma SetsSame(threads: map<Tid, Thread>, threads': map<Tid, Thread>, p: Pid)
    requires threads.Keys == threads'.Keys
    requires forall t :: t in threads ==> threads[t].owner == threads'[t].owner && threads[t].state == threads'[t].state
    ensures LiveSet(threads, p) == LiveSet(threads', p) && CleanSet(threads, p) == CleanSet(threads', p)
  {
  }

  // ---------------------------------------------------------------------------------------------
  // Burying a thread
  // ---------------------------------------------------------------------------------------------

  lemma BuryProcessOk(s: State, mid: Mid, t: Tid, p: Pid)
    requires t in s.threads && s.threads[t].owner in s.procs && s.threads[t].state != Terminated
    requires !IsActive(s.threads, mid, t) && (mid == Settled || mid == Out(t))
    requires p in s.procs && ProcessOk(s.threads, mid, p, s.procs[p])
    ensures ProcessOk(Buried(s, t).threads, Settled, p, Buried(s, t).procs[p])
  {
    hide NoDuplicates, LiveSet, CleanSet;
    SetsUpdate(s.threads, t, s.threads[t].(state := Terminated, join := NotJoining), p);
    SetMembers(s.threads, t, p);
  }

  lemma SetMembers(threads: map<Tid, Thread>, t: Tid, p: Pid)
    ensures t in LiveSet(threads, p) <==> t in threads && threads[t].owner == p && threads[t].state != Terminated
    ensures t in CleanSet(threads, p) <==> t in threads && threads[t].owner == p && threads[t].state == Terminated
  {
  }

  lemma BuryThreadOk(s: State, mid: Mid, t: Tid, u: Tid)
    requires t in s.threads && s.threads[t].owner in s.procs && !IsActive(s.threads, mid, t)
             && (mid == Settled || mid == Out(t))
    requires ThreadOk(s, mid, u)
    ensures ThreadOk(Buried(s, t), Settled, u)
  {
  }

  /** Burying a finished thread, or one that is on its way out, settles the accounts. */
  lemma BuryKeepsInv(s: State, mid: Mid, t: Tid)
    requires InvAt(s, mid) && t in s.threads && s.threads[t].owner in s.procs && s.threads[t].state != Terminated
    requires !IsActive(s.threads, mid, t) && (mid == Settled || mid == Out(t))
    ensures Inv(Buried(s, t)) && Buried(s, t).procs[s.threads[t].owner].state == s.procs[s.threads[t].owner].state
  {
    hide NoDuplicates, ProcessOk, ThreadOk;
    var s' := Buried(s, t);
    forall p | p in s'.procs ensures ProcessOk(s'.threads, Settled, p, s'.procs[p]) {
      BuryProcessOk(s, mid, t, p);
    }
    forall u | u in s'.threads ensures ThreadOk(s', Settled, u) {
      BuryThreadOk(s, mid, t, u);
    }
    AppendExact(s.threadStack, t);
  }

  // ---------------------------------------------------------------------------------------------
  // Leaving
  // ---------------------------------------------------------------------------------------------

  /** The state in which a thread is out: off the list, joiners released, return value stored. */
  function OutState(s: State, me: Tid, retval: int): State
    requires me in s.threads && s.threads[me].owner in s.procs
  {
    Unlisted(s, me).(threads := JoinersWoken(s.threads[me := s.threads[me].(retval := retval)], me))
  }

  lemma OutProcessOk(s: State, mid: Mid, me: Tid, retval: int, p: Pid)
    requires me in s.threads && s.threads[me].owner in s.procs && s.threads[me].state == Active
    requires mid == Settled || mid == Leaving(me)
    requires p in s.procs && ProcessOk(s.threads, mid, p, s.procs[p])
    ensures ProcessOk(OutState(s, me, retval).threads, Out(me), p, OutState(s, me, retval).procs[p])
  {
    hide NoDuplicates, LiveSet, CleanSet;
    var s' := OutState(s, me, retval);
    SetsSame(s.threads, s'.threads, p);
    DropExact(s.procs[p].list, me);
  }

  lemma OutThreadOk(s: State, mid: Mid, me: Tid, retval: int, u: Tid)
    requires me in s.threads && s.threads[me].owner in s.procs && s.threads[me].state == Active
    requires s.threads[me].join == NotJoining
    requires mid == Settled || mid == Leaving(me)
    requires ThreadOk(s, mid, me) && ThreadOk(s, mid, u) && me in s.usedTids
    ensures ThreadOk(OutState(s, me, retval), Out(me), u)
  {
    hide Drop;
  }

  lemma OutKeepsInv(s: State, mid: Mid, me: Tid, retval: int)
    requires InvAt(s, mid) && me in s.threads && s.threads[me].owner in s.procs
    requires s.threads[me].state == Active && s.threads[me].join == NotJoining && (mid == Settled || mid == Leaving(me))
    ensures InvAt(OutState(s, me, retval), Out(me))
  {
    hide NoDuplicates, ProcessOk, ThreadOk, Drop;
    var s' := OutState(s, me, retval);
    forall p | p in s'.procs ensures ProcessOk(s'.threads, Out(me), p, s'.procs[p]) {
      OutProcessOk(s, mid, me, retval, p);
    }
    forall u | u in s'.threads ensures ThreadOk(s', Out(me), u) {
      OutThreadOk(s, mid, me, retval, u);
    }
  }

  /** A thread that is out may also stay until it is joined. */
  lemma StayKeepsInv(s: State, me: Tid)
    requires InvAt(s, Out(me)) && me in s.threads
    ensures Inv(s.(threads := s.threads[me := s.threads[me].(state := WaitingForJoin)]))
  {
    hide NoDuplicates, ProcessOk, ThreadOk;
    var s' := s.(threads := s.threads[me := s.threads[me].(state := WaitingForJoin)]);
    forall p | p in s'.procs ensures ProcessOk(s'.threads, Settled, p, s'.procs[p]) { StayProcessOk(s, me, p); }
    forall u | u in s'.threads ensures ThreadOk(s', Settled, u) { StayThreadOk(s, me, u); }
    OutIsActive(s, me);
  }

  lemma OutIsActive(s: State, me: Tid)
    requires InvAt(s, Out(me)) && me in s.threads
    ensures s.threads[me].state == Active && s.threads[me].owner in s.procs
  {
    assert ThreadOk(s, Out(me), me);
  }

  lemma StayProcessOk(s: State, me: Tid, p: Pid)
    requires me in s.threads && ThreadOk(s, Out(me), me) && p in s.procs && ProcessOk(s.threads, Out(me), p, s.procs[p])
    ensures ProcessOk(s.threads[me := s.threads[me].(state := WaitingForJoin)], Settled, p, s.procs[p])
  {
    hide NoDuplicates, LiveSet, CleanSet;
    SetsUpdate(s.threads, me, s.threads[me].(state := WaitingForJoin), p);
    SetMembers(s.threads, me, p);
  }

  lemma StayThreadOk(s: State, me: Tid, u: Tid)
    requires me in s.threads && ThreadOk(s, Out(me), me) && ThreadOk(s, Out(me), u)
    ensures ThreadOk(s.(threads := s.threads[me := s.threads[me].(state := WaitingForJoin)]), Settled, u)
  {
  }

  /** Declaring a process dead puts it on the clean-up stack. */
  lemma DeathKeepsInv(s: State, pid: Pid, status: int)
    requires Inv(s) && pid in s.procs
    requires forall t :: IsActive(s.threads, Settled, t) ==> s.threads[t].owner != pid
    ensures Inv(Killed(s, pid, status))
  {
    hide NoDuplicates, CountsOk, JoinOk;
    var s' := Killed(s, pid, status);
    forall p | p in s'.procs ensures ProcessOk(s'.threads, Settled, p, s'.procs[p]) {
      assert ProcessOk(s.threads, Settled, p, s.procs[p]);
      CountsFrame(s.threads, p, s.procs[p], s'.procs[p]);
    }
    forall t | t in s'.threads ensures ThreadOk(s', Settled, t) {
      assert ThreadOk(s, Settled, t);
      JoinFrame(s, s', Settled, s.threads[t]);
    }
  }

  lemma CountsFrame(threads: map<Tid, Thread>, pid: Pid, p: Process, p': Process)
    requires CountsOk(threads, pid, p) && p'.live == p.live && p'.toClean == p.toClean
    ensures CountsOk(threads, pid, p')
  {
  }

  /** Seen by a thread in a join, no process has come back to life, exited or disappeared. */
  ghost predicate SameForJoin(s: State, s': State, th: Thread) {
    && s.usedPids <= s'.usedPids
    && (forall p :: p in s'.procs && p in s.usedPids && s'.procs[p].state == Live ==>
                      p in s.procs && s.procs[p].state == Live)
    && (th.join.WaitingForProcess? && th.join.pid in s.procs ==>
          th.join.pid in s'.procs && (s'.procs[th.join.pid].state == Exited ==> s.procs[th.join.pid].state == Exited))
  }

  lemma JoinFrame(s: State, s': State, mid: Mid, th: Thread)
    requires JoinOk(s, mid, th) && s'.threads == s.threads && s'.usedTids == s.usedTids && SameForJoin(s, s', th)
    ensures JoinOk(s', mid, th)
  {
  }

  lemma NobodyActive(s: State, pid: Pid)
    requires Inv(s) && pid in s.procs && s.procs[pid].live == 0
    ensures forall t :: t in s.threads && s.threads[t].owner == pid ==> s.threads[t].state == Terminated
  {
    assert ProcessOk(s.threads, Settled, pid, s.procs[pid]);
    forall t | t in s.threads && s.threads[t].owner == pid ensures s.threads[t].state == Terminated {
      SetMembers(s.threads, t, pid);
    }
  }

  /** `ThreadExit` never fails for a running thread, and keeps the accounts. */
  lemma ThreadExitKeepsInv(s: State, mid: Mid, me: Tid, retval: int)
    requires InvAt(s, mid) && Runs(s, me) && (mid == Settled || mid == Leaving(me))
    ensures ThreadExit(s, me, retval).Done? && Inv(ThreadExit(s, me, retval).s)
  {
    hide InvAt, OutState, Buried, JoinersWoken, Unlisted;
    var gone := OutState(s, me, retval);
    RunningIsListed(s, mid, me);
    OutKeepsInv(s, mid, me, retval);
    OutFrame(s, me, retval);
    OutIsActive(gone, me);
    if s.threads[me].detached || s.procs[s.threads[me].owner].live == 1 {
      BuryKeepsInv(gone, Out(me), me);
      BuryFrame(gone, me);
      var dead := Buried(gone, me);
      var pid := s.threads[me].owner;
      if s.threads[me].detached && dead.procs[pid].live == 0 {
        NobodyActive(dead, pid);
        DeathKeepsInv(dead, pid, dead.procs[pid].status);
      }
    } else {
      StayKeepsInv(gone, me);
    }
  }

  lemma OutFrame(s: State, me: Tid, retval: int)
    requires me in s.threads && s.threads[me].owner in s.procs
    ensures var g := OutState(s, me, retval);
            && g == Unlisted(s, me).(threads := JoinersWoken(s.threads[me := s.threads[me].(retval := retval)], me))
            && me in g.threads && g.threads[me].owner == s.threads[me].owner && g.procs.Keys == s.procs.Keys
  {
  }

  lemma BuryFrame(s: State, t: Tid)
    requires t in s.threads && s.threads[t].owner in s.procs
    ensures Buried(s, t).procs.Keys == s.procs.Keys && Buried(s, t).threads.Keys == s.threads.Keys
  {
  }

  /** An exit records the value with the thread that leaves and changes no other thread's value. */
  lemma ExitRecords(s: State, me: Tid, retval: int)
    requires me in s.threads && s.threads[me].owner in s.procs && ThreadExit(s, me, retval).Done?
    ensures var s' := ThreadExit(s, me, retval).s;
            && s'.threads.Keys == s.threads.Keys && s'.threads[me].retval == retval
            && s'.threads[me].state == (if s.threads[me].detached || s.procs[s.threads[me].owner].live == 1
                                        then Terminated else WaitingForJoin)
            && forall t :: t in s.threads && t != me ==> s'.threads[t].retval == s.threads[t].retval
  {
    hide Drop;
  }

  lemma RunningIsListed(s: State, mid: Mid, me: Tid)
    requires InvAt(s, mid) && Runs(s, me) && !mid.Out?
    ensures me in s.procs[s.threads[me].owner].list && s.procs[s.threads[me].owner].live > 0
  {
    var pid := s.threads[me].owner;
    assert ProcessOk(s.threads, mid, pid, s.procs[pid]);
    assert IsActive(s.threads, mid, me);
    SetMembers(s.threads, me, pid);
  }

  // ---------------------------------------------------------------------------------------------
  // Every operation keeps the accounts
  // ---------------------------------------------------------------------------------------------

  lemma RelabelProcessOk(s: State, t: Tid, th: Thread, p: Pid)
    requires t in s.threads && th.owner == s.threads[t].owner && th.state == s.threads[t].state
    requires p in s.procs && ProcessOk(s.threads, Settled, p, s.procs[p])
    ensures ProcessOk(s.threads[t := th], Settled, p, s.procs[p])
  {
    hide NoDuplicates, LiveSet, CleanSet;
    SetsSame(s.threads, s.threads[t := th], p);
  }

  lemma RelabelThreadOk(s: State, t: Tid, th: Thread, u: Tid)
    requires t in s.threads && th.owner == s.threads[t].owner && th.state == s.threads[t].state
    requires JoinOk(s, Settled, th)
    requires ThreadOk(s, Settled, u)
    ensures ThreadOk(s.(threads := s.threads[t := th]), Settled, u)
  {
  }

  /** Changing what a thread waits for, or its flags. */
  lemma RelabelKeepsInv(s: State, t: Tid, th: Thread)
    requires Inv(s) && t in s.threads && th.owner == s.threads[t].owner && th.state == s.threads[t].state
    requires JoinOk(s, Settled, th)
    ensures Inv(s.(threads := s.threads[t := th]))
  {
    hide NoDuplicates, ProcessOk, ThreadOk, JoinOk;
    var s' := s.(threads := s.threads[t := th]);
    forall p | p in s'.procs ensures ProcessOk(s'.threads, Settled, p, s'.procs[p]) { RelabelProcessOk(s, t, th, p); }
    forall u | u in s'.threads ensures ThreadOk(s', Settled, u) { RelabelThreadOk(s, t, th, u); }
  }

  lemma SpawnProcessOk(threads: map<Tid, Thread>, tid: Tid, th: Thread, p: Pid, old': Process, new': Process)
    requires tid !in threads && th.state == Active && ProcessOk(threads, Settled, p, old')
    requires new'.toClean == old'.toClean
    requires th.owner == p ==> new'.live == old'.live + 1 && new'.list == [tid] + old'.list
    requires th.owner != p ==> new' == old'
    ensures ProcessOk(threads[tid := th], Settled, p, new')
  {
    hide NoDuplicates, LiveSet, CleanSet;
    SetsUpdate(threads, tid, th, p);
    SetMembers(threads, tid, p);
    AppendExact(old'.list, tid);
  }

  /** A new active thread in a live process. */
  lemma SpawnKeepsInv(s: State, tid: Tid, th: Thread)
    requires Inv(s) && tid !in s.usedTids && th.state == Active && th.join == NotJoining
    requires th.owner in s.procs && s.procs[th.owner].state == Live
    ensures var p := s.procs[th.owner];
            Inv(s.(procs := s.procs[th.owner := p.(live := p.live + 1, list := [tid] + p.list)],
                   threads := s.threads[tid := th], usedTids := s.usedTids + {tid}))
  {
    hide NoDuplicates, ProcessOk;
    var p := s.procs[th.owner];
    var s' := s.(procs := s.procs[th.owner := p.(live := p.live + 1, list := [tid] + p.list)],
                 threads := s.threads[tid := th], usedTids := s.usedTids + {tid});
    forall q | q in s'.procs ensures ProcessOk(s'.threads, Settled, q, s'.procs[q]) {
      SpawnProcessOk(s.threads, tid, th, q, s.procs[q], s'.procs[q]);
    }
    forall u | u in s'.threads ensures ThreadOk(s', Settled, u) {
      if u != tid { SpawnThreadOk(s, tid, th, u); }
    }
  }

  lemma SpawnThreadOk(s: State, tid: Tid, th: Thread, u: Tid)
    requires tid !in s.usedTids && tid !in s.threads && th.owner in s.procs && ThreadOk(s, Settled, u) && u != tid
    ensures var p := s.procs[th.owner];
            ThreadOk(s.(procs := s.procs[th.owner := p.(live := p.live + 1, list := [tid] + p.list)],
                        threads := s.threads[tid := th], usedTids := s.usedTids + {tid}), Settled, u)
  {
  }

  /** Only what a thread's process looks like matters to the thread. */
  lemma FrameThreadOk(s: State, s': State, t: Tid)
    requires ThreadOk(s, Settled, t) && s'.threads == s.threads && s'.usedTids == s.usedTids
    requires SameForJoin(s, s', s.threads[t])
    requires s.threads[t].owner in s'.procs && s'.procs[s.threads[t].owner].state == s.procs[s.threads[t].owner].state
    ensures ThreadOk(s', Settled, t)
  {
  }

  /** A process without threads. */
  lemma EmptyProcessKeepsInv(s: State, pid: Pid)
    requires Inv(s) && pid !in s.usedPids
    ensures Inv(s.(procs := s.procs[pid := Process(Live, 0, 0, 0, [])], usedPids := s.usedPids + {pid}))
  {
    hide NoDuplicates, ThreadOk, ProcessOk;
    var s' := s.(procs := s.procs[pid := Process(Live, 0, 0, 0, [])], usedPids := s.usedPids + {pid});
    forall t | t in s'.threads ensures ThreadOk(s', Settled, t) && s.threads[t].owner != pid {
      ThreadFacts(s, t);
      FrameThreadOk(s, s', t);
    }
    EmptyProcessOk(s.threads, pid);
  }

  lemma EmptyProcessOk(threads: map<Tid, Thread>, pid: Pid)
    requires forall t :: t in threads ==> threads[t].owner != pid
    ensures ProcessOk(threads, Settled, pid, Process(Live, 0, 0, 0, []))
  {
    assert LiveSet(threads, pid) == {} && CleanSet(threads, pid) == {};
  }

  lemma StartKeepsInv(s: State, pid: Pid, tid: Tid, detached: bool)
    requires Inv(s) && pid !in s.usedPids && tid !in s.usedTids
    ensures Inv(StartProcess(s, pid, tid, detached).s)
  {
    hide InvAt;
    EmptyProcessKeepsInv(s, pid);
    var s1 := s.(procs := s.procs[pid := Process(Live, 0, 0, 0, [])], usedPids := s.usedPids + {pid});
    var th := Thread(pid, Active, detached, 0, NotJoining);
    SpawnKeepsInv(s1, tid, th);
    assert [tid] + [] == [tid];
    assert s1.procs[pid := Process(Live, 0, 1, 0, [tid])] == s.procs[pid := Process(Live, 0, 1, 0, [tid])];
  }

  lemma ThreadFacts(s: State, t: Tid)
    requires Inv(s) && t in s.threads
    ensures s.threads[t].owner in s.procs && JoinOk(s, Settled, s.threads[t]) && t in s.usedTids
    ensures s.threads[t].state == Active ==> s.procs[s.threads[t].owner].state == Live
  {
    assert ThreadOk(s, Settled, t);
  }

  /** A value is handed out by a thread that has just been buried, for the first time. */
  lemma DeliverKeepsInv(s: State, t: Tid)
    requires Inv(s) && t in s.threads && s.threads[t].state == Terminated && t !in s.delivered
    ensures Inv(s.(delivered := s.delivered + [t]))
  {
    hide NoDuplicates, ProcessOk, ThreadOk;
    var s' := s.(delivered := s.delivered + [t]);
    AppendExact(s.delivered, t);
    forall u | u in s'.threads ensures ThreadOk(s', Settled, u) { ThreadFacts(s, u); FrameThreadOk(s, s', u); }
  }

  lemma CollectKeepsInv(s: State, me: Tid, target: Tid)
    requires Inv(s) && me in s.threads && s.threads[me].state == Active && me != target
    requires target in s.threads && s.threads[target].owner in s.procs && s.threads[target].state != Active
    ensures Collect(s, me, target).Done? && Inv(Collect(s, me, target).s)
  {
    hide InvAt, Buried;
    var free := s.(threads := s.threads[me := s.threads[me].(join := NotJoining)]);
    RelabelKeepsInv(s, me, s.threads[me].(join := NotJoining));
    if s.threads[target].state == WaitingForJoin {
      BuryKeepsInv(free, Settled, target);
      BuriedThread(free, target);
      NotDelivered(s, target);
      DeliverKeepsInv(Buried(free, target), target);
    }
  }

  lemma BuriedThread(s: State, t: Tid)
    requires t in s.threads && s.threads[t].owner in s.procs
    ensures t in Buried(s, t).threads && Buried(s, t).threads[t].state == Terminated
    ensures Buried(s, t).delivered == s.delivered
  {
  }

  lemma NotDelivered(s: State, t: Tid)
    requires Inv(s) && t in s.threads && s.threads[t].state != Terminated
    ensures t !in s.delivered
  {
  }

  lemma CollectProcessKeepsInv(s: State, me: Tid, pid: Pid)
    requires Inv(s) && me in s.threads && pid in s.procs && s.procs[pid].state != Live
    ensures CollectProcess(s, me, pid).Done? && Inv(CollectProcess(s, me, pid).s)
  {
    hide InvAt;
    var free := s.(threads := s.threads[me := s.threads[me].(join := NotJoining)]);
    RelabelKeepsInv(s, me, s.threads[me].(join := NotJoining));
    if s.procs[pid].state == Exited {
      forall t | IsActive(free.threads, Settled, t) ensures free.threads[t].owner != pid { ThreadFacts(free, t); }
      DeathKeepsInv(free, pid, free.procs[pid].status);
    }
  }

  /** Without joiners the victim is simply unlisted and buried, whatever it was waiting for. */
  lemma KillKeepsInv(s: State, t: Tid)
    requires Inv(s) && t in s.threads && s.threads[t].owner in s.procs && s.threads[t].state == Active
    requires !HasJoiner(s.threads, t)
    ensures Inv(Buried(Unlisted(s, t), t))
  {
    hide InvAt;
    var th := s.threads[t].(join := NotJoining);
    var s1 := s.(threads := s.threads[t := th]);
    RelabelKeepsInv(s, t, th);
    OutKeepsInv(s1, Settled, t, th.retval);
    var gone := OutState(s1, t, th.retval);
    assert gone.threads == s1.threads;
    OutIsActive(gone, t);
    BuryKeepsInv(gone, Out(t), t);
    assert Buried(Unlisted(s, t), t).threads == Buried(gone, t).threads;
  }

  lemma ExitMarkedInv(s: State, me: Tid, status: int)
    requires Inv(s) && Runs(s, me) && s.procs[s.threads[me].owner].list == [me]
    ensures var s' := ExitMarked(s, s.threads[me].owner, status); InvAt(s', Leaving(me)) && Runs(s', me)
  {
    hide NoDuplicates, ProcessOk, ThreadOk, ThreadExit;
    var s' := ExitMarked(s, s.threads[me].owner, status);
    forall p | p in s'.procs ensures ProcessOk(s'.threads, Leaving(me), p, s'.procs[p]) {
      ExitedProcessOk(s, me, status, p);
    }
    forall t | t in s'.threads ensures ThreadOk(s', Leaving(me), t) { OnlyMeThreadOk(s, me, t, status); }
    ThreadFacts(s, me);
  }

  lemma ExitProcessKeepsInv(s: State, me: Tid, status: int)
    requires Inv(s) && Runs(s, me) && s.procs[s.threads[me].owner].list == [me]
    ensures ExitProcess(s, me, status).Done? && Inv(ExitProcess(s, me, status).s)
  {
    hide InvAt, ThreadExit, ProcessJoinersWoken;
    ExitMarkedInv(s, me, status);
    ThreadExitKeepsInv(ExitMarked(s, s.threads[me].owner, status), Leaving(me), me, 0);
  }

  lemma ExitedProcessOk(s: State, me: Tid, status: int, p: Pid)
    requires me in s.threads && p in s.procs && ProcessOk(s.threads, Settled, p, s.procs[p])
    ensures ProcessOk(ProcessJoinersWoken(s.threads, s.threads[me].owner), Leaving(me), p, s.procs[p])
    ensures ProcessOk(ProcessJoinersWoken(s.threads, s.threads[me].owner), Leaving(me), p,
                      s.procs[p].(state := Exited, status := status))
  {
    hide NoDuplicates, LiveSet, CleanSet;
    SetsSame(s.threads, ProcessJoinersWoken(s.threads, s.threads[me].owner), p);
  }

  lemma OnlyMeThreadOk(s: State, me: Tid, t: Tid, status: int)
    requires Runs(s, me) && ThreadOk(s, Settled, me) && ThreadOk(s, Settled, t) && s.threads[me].owner in s.usedPids
    requires var pid := s.threads[me].owner;
             s.procs[pid].list == [me] && ProcessOk(s.threads, Settled, pid, s.procs[pid])
    ensures var pid := s.threads[me].owner;
            ThreadOk(ExitMarked(s, pid, status), Leaving(me), t)
  {
    assert IsActive(s.threads, Settled, t) && s.threads[t].owner == s.threads[me].owner
           ==> t in s.procs[s.threads[me].owner].list;
  }

  // ---------------------------------------------------------------------------------------------
  // The kill of a process, and suicide
  // ---------------------------------------------------------------------------------------------

  /** Somebody still joins a thread when its turn to be killed comes: not one of those killed before it. */
  ghost predicate JoinedWhenKilled(threads: map<Tid, Thread>, ts: seq<Tid>) {
    exists i, u :: 0 <= i < |ts| && u in threads && threads[u].join == Waiting(ts[i]) && u !in ts[..i]
  }

  lemma JoinedFirstOrLater(threads: map<Tid, Thread>, ts: seq<Tid>)
    requires ts != [] && ts[0] in threads
    ensures var rest := threads[ts[0] := threads[ts[0]].(state := Terminated, join := NotJoining)];
            JoinedWhenKilled(threads, ts) <==> HasJoiner(threads, ts[0]) || JoinedWhenKilled(rest, ts[1..])
  {
    var rest := threads[ts[0] := threads[ts[0]].(state := Terminated, join := NotJoining)];
    if HasJoiner(threads, ts[0]) {
      var u :| u in threads && threads[u].join == Waiting(ts[0]);
      assert u !in ts[..0];
    }
    if i, u :| 0 <= i < |ts| && u in threads && threads[u].join == Waiting(ts[i]) && u !in ts[..i] {
      if i > 0 {
        assert ts[0] in ts[..i] && ts[1..][i - 1] == ts[i] && forall v :: v in ts[1..][..i - 1] ==> v in ts[..i];
        assert rest[u].join == Waiting(ts[1..][i - 1]);
      }
    }
    if i, u :| 0 <= i < |ts[1..]| && u in rest && rest[u].join == Waiting(ts[1..][i]) && u !in ts[1..][..i] {
      assert ts[..i + 1] == [ts[0]] + ts[1..][..i] && ts[i + 1] == ts[1..][i];
      assert threads[u].join == Waiting(ts[i + 1]);
    }
  }

  lemma DropFirst(ts: seq<Tid>)
    requires ts != []
    ensures Drop(ts, ts[0]) == ts[1..]
  {
  }

  /** What killing threads does not touch, and what it does to those it kills. */
  ghost predicate KillFrame(s: State, ts: seq<Tid>, s': State) {
    && s'.threads.Keys == s.threads.Keys && s'.procs.Keys == s.procs.Keys
    && s'.procStack == s.procStack && s'.reaping == s.reaping
    && s'.usedTids == s.usedTids && s'.usedPids == s.usedPids && s'.delivered == s.delivered
    && (forall p :: p in s.procs ==> s'.procs[p].state == s.procs[p].state && s'.procs[p].status == s.procs[p].status)
    && (forall u :: u in s.threads && u !in ts ==> s'.threads[u] == s.threads[u])
    && (forall u :: u in s.threads && u in ts ==>
                      s'.threads[u] == s.threads[u].(state := Terminated, join := NotJoining))
  }

  lemma KillFrameOne(s: State, t: Tid)
    requires t in s.threads && s.threads[t].owner in s.procs
    ensures KillFrame(s, [t], Buried(Unlisted(s, t), t))
  {
    hide Drop;
  }

  lemma KillFrameThen(s: State, t: Tid, s1: State, ts: seq<Tid>, s2: State)
    requires KillFrame(s, [t], s1) && KillFrame(s1, ts, s2) && t !in ts
    ensures KillFrame(s, [t] + ts, s2)
  {
    assert forall u :: u in [t] + ts <==> u == t || u in ts;
  }

  lemma KillFrameNone(s: State)
    ensures KillFrame(s, [], s)
  {
  }

  /** The loop over the thread list empties it, and stops exactly at a thread that is still joined. */
  lemma {:induction false} KillAllKeepsInv(s: State, pid: Pid, ts: seq<Tid>)
    requires Inv(s) && pid in s.procs && s.procs[pid].list == ts
    ensures KillAll(s, ts).Panic? <==> JoinedWhenKilled(s.threads, ts)
    ensures KillAll(s, ts).Done? ==>
              var s' := KillAll(s, ts).s;
              Inv(s') && KillFrame(s, ts, s') && pid in s'.procs && s'.procs[pid].list == []
    decreases |ts|
  {
    hide InvAt, Buried, Drop, HasJoiner, JoinedWhenKilled, KillFrame, NoDuplicates;
    if ts == [] {
      KillFrameNone(s);
      NobodyListed(s.threads);
    } else {
      var t := ts[0];
      ListedFacts(s, pid, t);
      JoinedFirstOrLater(s.threads, ts);
      if !HasJoiner(s.threads, t) {
        KillKeepsInv(s, t);
        KillFrameOne(s, t);
        UnlistedFirst(s, pid);
        var s1 := Buried(Unlisted(s, t), t);
        KillAllKeepsInv(s1, pid, ts[1..]);
        if KillAll(s1, ts[1..]).Done? {
          KillFrameThen(s, t, s1, ts[1..], KillAll(s1, ts[1..]).s);
          assert [t] + ts[1..] == ts;
        }
      }
    }
  }

  lemma NobodyListed(threads: map<Tid, Thread>)
    ensures !JoinedWhenKilled(threads, [])
  {
  }

  lemma ListedFacts(s: State, pid: Pid, t: Tid)
    requires Inv(s) && pid in s.procs && t in s.procs[pid].list
    ensures t in s.threads && s.threads[t].owner == pid && s.threads[t].state == Active
  {
    assert ProcessOk(s.threads, Settled, pid, s.procs[pid]);
  }

  lemma UnlistedFirst(s: State, pid: Pid)
    requires Inv(s) && pid in s.procs && s.procs[pid].list != []
    ensures var ts := s.procs[pid].list;
            && ts[0] in s.threads && s.threads[ts[0]].owner == pid && ts[0] !in ts[1..]
            && var s1 := Buried(Unlisted(s, ts[0]), ts[0]);
               && pid in s1.procs && s1.procs[pid].list == ts[1..]
               && s1.threads == s.threads[ts[0] := s.threads[ts[0]].(state := Terminated, join := NotJoining)]
  {
    hide NoDuplicates, ProcessOk, ThreadOk;
    var ts := s.procs[pid].list;
    ListedFacts(s, pid, ts[0]);
    DropFirst(ts);
    ListHasNoRepeat(s, pid);
    TailExact(ts);
  }

  lemma ListHasNoRepeat(s: State, pid: Pid)
    requires Inv(s) && pid in s.procs
    ensures NoDuplicates(s.procs[pid].list)
  {
    assert ProcessOk(s.threads, Settled, pid, s.procs[pid]);
  }

  lemma ServeProcessOk(threads: map<Tid, Thread>, pid: Pid, mid: Mid, p: Pid, pr: Process)
    requires ProcessOk(threads, mid, p, pr)
    ensures ProcessOk(ProcessJoinersServed(threads, pid), mid, p, pr)
  {
    hide NoDuplicates, LiveSet, CleanSet;
    SetsSame(threads, ProcessJoinersServed(threads, pid), p);
  }

  lemma ServeThreadOk(s: State, pid: Pid, t: Tid)
    requires ThreadOk(s, Settled, t)
    ensures ThreadOk(s.(threads := ProcessJoinersServed(s.threads, pid)), Settled, t)
  {
  }

  /** Finishing the joins of a process touches nothing else. */
  lemma ServeKeepsInv(s: State, pid: Pid)
    requires Inv(s)
    ensures Inv(s.(threads := ProcessJoinersServed(s.threads, pid)))
  {
    hide NoDuplicates, ProcessOk, ThreadOk;
    var s' := s.(threads := ProcessJoinersServed(s.threads, pid));
    forall p | p in s'.procs ensures ProcessOk(s'.threads, Settled, p, s'.procs[p]) {
      ServeProcessOk(s.threads, pid, Settled, p, s.procs[p]);
    }
    forall t | t in s'.threads ensures ThreadOk(s', Settled, t) { ServeThreadOk(s, pid, t); }
  }

  lemma EmptyListMeansInactive(s: State, pid: Pid)
    requires Inv(s) && pid in s.procs && s.procs[pid].list == []
    ensures forall t :: IsActive(s.threads, Settled, t) ==> s.threads[t].owner != pid
  {
    assert ProcessOk(s.threads, Settled, pid, s.procs[pid]);
  }

  /** Exactly when the kill of another process fails. */
  ghost predicate KillFails(s: State, pid: Pid)
    requires pid in s.procs
  {
    JoinedWhenKilled(s.threads, s.procs[pid].list) || (s.procs[pid].state == Live && HasProcessJoiner(s.threads, pid))
  }

  lemma KillProcessKeepsInv(s: State, me: Tid, pid: Pid)
    requires Inv(s) && Runs(s, me) && s.threads[me].owner != pid && pid in s.procs
    ensures KillProcess(s, me, pid).Panic? <==> KillFails(s, pid)
    ensures KillProcess(s, me, pid).Done? ==> Inv(KillProcess(s, me, pid).s)
  {
    hide InvAt, KillAll, JoinedWhenKilled, KillFrame, HasProcessJoiner, ProcessJoinersServed;
    var ts := s.procs[pid].list;
    KillAllKeepsInv(s, pid, ts);
    if KillAll(s, ts).Done? {
      var s1 := KillAll(s, ts).s;
      KillKeepsProcessJoiner(s, pid, s1);
      ServeKeepsInv(s1, pid);
      var s2 := s1.(threads := ProcessJoinersServed(s1.threads, pid));
      EmptyListMeansInactive(s2, pid);
      DeathKeepsInv(s2, pid, -2);
    }
  }

  /** The threads of a process do not wait for it, so its joiners survive the kill of its threads. */
  lemma KillKeepsProcessJoiner(s: State, pid: Pid, s': State)
    requires Inv(s) && pid in s.procs && KillFrame(s, s.procs[pid].list, s')
    ensures HasProcessJoiner(s'.threads, pid) <==> HasProcessJoiner(s.threads, pid)
    ensures pid in s'.procs && s'.procs[pid].state == s.procs[pid].state
  {
    hide StackOk, ProcStackOk, DeliveredOk, ProcessOk;
    forall t | t in s.threads && s.threads[t].join == WaitingForProcess(pid) ensures s'.threads[t] == s.threads[t] {
      ThreadFacts(s, t);
      if t in s.procs[pid].list { ListedFacts(s, pid, t); }
    }
  }

  lemma DoomThreadOk(s: State, me: Tid, t: Tid)
    requires Runs(s, me) && ThreadOk(s, Settled, t)
    requires !HasProcessJoiner(s.threads, s.threads[me].owner)
    requires var pid := s.threads[me].owner;
             s.procs[pid].list == [me] && ProcessOk(s.threads, Settled, pid, s.procs[pid])
    ensures ThreadOk(Killed(s, s.threads[me].owner, -1), Leaving(me), t)
  {
    assert IsActive(s.threads, Settled, t) && s.threads[t].owner == s.threads[me].owner ==>
             t in s.procs[s.threads[me].owner].list;
  }

  lemma DoomProcessOk(s: State, me: Tid, p: Pid)
    requires me in s.threads && s.threads[me].owner in s.procs && p in s.procs
    requires ProcessOk(s.threads, Settled, p, s.procs[p])
    ensures ProcessOk(s.threads, Leaving(me), p, Killed(s, s.threads[me].owner, -1).procs[p])
  {
    hide NoDuplicates, LiveSet, CleanSet;
  }

  lemma ServedNone(threads: map<Tid, Thread>, pid: Pid)
    ensures !HasProcessJoiner(ProcessJoinersServed(threads, pid), pid)
  {
  }

  lemma SuicideMarkedInv(s: State, me: Tid)
    requires Inv(s) && Runs(s, me) && s.procs[s.threads[me].owner].list == [me]
    ensures var s' := SuicideMarked(s, s.threads[me].owner); InvAt(s', Leaving(me)) && Runs(s', me)
  {
    hide NoDuplicates, ProcessOk, ThreadOk, HasProcessJoiner, ProcessJoinersServed, Killed;
    var pid := s.threads[me].owner;
    var s1 := s.(threads := ProcessJoinersServed(s.threads, pid));
    ServeKeepsInv(s, pid);
    ServedMe(s, me);
    ServedNone(s.threads, pid);
    var s' := Killed(s1, pid, -1);
    KilledFrame(s1, pid, -1);
    forall p | p in s'.procs ensures ProcessOk(s'.threads, Leaving(me), p, s'.procs[p]) { DoomProcessOk(s1, me, p); }
    forall t | t in s'.threads ensures ThreadOk(s', Leaving(me), t) { DoomThreadOk(s1, me, t); }
    KilledStack(s1, pid, -1);
  }

  /** A thread without active siblings may end its process; how often that is queued is another matter. */
  lemma SuicideKeepsInv(s: State, me: Tid)
    requires Inv(s) && Runs(s, me) && s.procs[s.threads[me].owner].list == [me]
    ensures CommitSuicide(s, me).Done? && Inv(CommitSuicide(s, me).s)
  {
    hide InvAt, ThreadExit, ProcessJoinersServed, Killed;
    SuicideMarkedInv(s, me);
    ThreadExitKeepsInv(SuicideMarked(s, s.threads[me].owner), Leaving(me), me, 0);
  }

  lemma ServedMe(s: State, me: Tid)
    requires Runs(s, me)
    ensures var r := ProcessJoinersServed(s.threads, s.threads[me].owner); me in r && r[me] == s.threads[me]
  {
  }

  lemma KilledFrame(s: State, pid: Pid, status: int)
    requires pid in s.procs
    ensures var s' := Killed(s, pid, status);
            && s'.threads == s.threads && s'.threadStack == s.threadStack && s'.delivered == s.delivered
            && s'.usedTids == s.usedTids && s'.usedPids == s.usedPids && s'.procs.Keys == s.procs.Keys
  {
  }

  lemma KilledStack(s: State, pid: Pid, status: int)
    requires pid in s.procs && ProcStackOk(s) && pid in s.usedPids
    ensures ProcStackOk(Killed(s, pid, status))
  {
  }

  /** The reaper always finds what it needs. */
  lemma ReapKeepsInv(s: State)
    requires Inv(s)
    ensures ReapThread(s).Done? && Inv(ReapThread(s).s)
  {
    hide NoDuplicates, ProcessOk, ThreadOk, HasJoiner;
    if s.threadStack != [] {
      var n := |s.threadStack| - 1;
      var t := s.threadStack[n];
      ReapFacts(s);
      ReapStackOk(s);
      var pid := s.threads[t].owner;
      var s' := s.(threads := s.threads - {t}, threadStack := s.threadStack[..n],
                   procs := s.procs[pid := s.procs[pid].(toClean := s.procs[pid].toClean - 1)]);
      forall p | p in s'.procs ensures ProcessOk(s'.threads, Settled, p, s'.procs[p]) { ReapProcessOk(s, t, p); }
      forall u | u in s'.threads ensures ThreadOk(s', Settled, u) { ReapThreadOk(s, t, u); }
    }
  }

  lemma ReapStackOk(s: State)
    requires StackOk(s) && s.threadStack != []
    ensures var n := |s.threadStack| - 1;
            NoDuplicates(s.threadStack[..n])
            && forall t :: t in s.threadStack[..n] <==>
                             t in s.threads - {s.threadStack[n]} && s.threads[t].state == Terminated
  {
    hide NoDuplicates;
    InitExact(s.threadStack);
  }

  lemma ReapFacts(s: State)
    requires Inv(s) && s.threadStack != []
    ensures var t := s.threadStack[|s.threadStack| - 1];
            && t in s.threads && s.threads[t].state == Terminated && s.threads[t].owner in s.procs
            && s.procs[s.threads[t].owner].toClean > 0 && !HasJoiner(s.threads, t)
  {
    hide NoDuplicates;
    var t := s.threadStack[|s.threadStack| - 1];
    assert t in s.threadStack;
    ThreadFacts(s, t);
    assert ProcessOk(s.threads, Settled, s.threads[t].owner, s.procs[s.threads[t].owner]);
    SetMembers(s.threads, t, s.threads[t].owner);
    NoJoinerOfFinished(s, t);
  }

  lemma NoJoinerOfFinished(s: State, t: Tid)
    requires Inv(s) && t in s.threads && s.threads[t].state != Active
    ensures !HasJoiner(s.threads, t)
  {
    forall u | u in s.threads ensures s.threads[u].join != Waiting(t) { assert ThreadOk(s, Settled, u); }
  }

  lemma ReapProcessOk(s: State, t: Tid, p: Pid)
    requires t in s.threads && s.threads[t].state == Terminated && p in s.procs
    requires ProcessOk(s.threads, Settled, p, s.procs[p])
    ensures ProcessOk(s.threads - {t}, Settled, p,
                      if p == s.threads[t].owner then s.procs[p].(toClean := s.procs[p].toClean - 1) else s.procs[p])
  {
    hide NoDuplicates, CountsOk;
    ReapCountsOk(s, t, p);
    ReapActive(s.threads, t);
  }

  lemma ReapCountsOk(s: State, t: Tid, p: Pid)
    requires t in s.threads && s.threads[t].state == Terminated && p in s.procs && CountsOk(s.threads, p, s.procs[p])
    ensures CountsOk(s.threads - {t}, p,
                     if p == s.threads[t].owner then s.procs[p].(toClean := s.procs[p].toClean - 1) else s.procs[p])
  {
    hide LiveSet, CleanSet;
    SetsRemove(s.threads, t, p);
    SetMembers(s.threads, t, p);
  }

  lemma ReapActive(threads: map<Tid, Thread>, t: Tid)
    requires t in threads && threads[t].state == Terminated
    ensures forall u :: IsActive(threads - {t}, Settled, u) <==> IsActive(threads, Settled, u)
    ensures forall u :: u in threads - {t} ==> (threads - {t})[u] == threads[u]
    ensures !IsActive(threads, Settled, t)
  {
  }

  lemma ReapThreadOk(s: State, t: Tid, u: Tid)
    requires t in s.threads && s.threads[t].state == Terminated && s.threads[t].owner in s.procs && u != t
    requires ThreadOk(s, Settled, u)
    ensures var pid := s.threads[t].owner;
            ThreadOk(s.(threads := s.threads - {t},
                        threadStack := s.threadStack[..if s.threadStack == [] then 0 else |s.threadStack| - 1],
                        procs := s.procs[pid := s.procs[pid].(toClean := s.procs[pid].toClean - 1)]), Settled, u)
  {
  }

  lemma TakeProcessKeepsInv(s: State)
    requires Inv(s)
    ensures TakeProcess(s).Panic? <==> Fails(s, OpTakeProcess)
    ensures TakeProcess(s).Done? ==> Inv(TakeProcess(s).s)
  {
    hide NoDuplicates, ProcessOk, ThreadOk;
    if TakeProcess(s).Done? && TakeProcess(s).s != s {
      var s' := TakeProcess(s).s;
      assert s.procStack == s'.procStack + [s'.reaping.value];
      forall u | u in s'.threads ensures ThreadOk(s', Settled, u) { ThreadFacts(s, u); FrameThreadOk(s, s', u); }
    }
  }

  /** A process is freed only when no thread names it any more. */
  lemma FreeProcessKeepsInv(s: State)
    requires Inv(s)
    ensures FreeProcess(s).Panic? <==> Fails(s, OpFreeProcess)
    ensures FreeProcess(s).Done? ==> Inv(FreeProcess(s).s)
    ensures FreeProcess(s).Done? ==>
              forall p, t :: p in s.procs && p !in FreeProcess(s).s.procs && t in s.threads ==>
                               s.threads[t].owner != p && s.threads[t].join != WaitingForProcess(p)
  {
    hide NoDuplicates, ThreadOk, ProcessOk;
    if FreeProcess(s).Done? && FreeProcess(s).s != s {
      var s' := FreeProcess(s).s;
      NobodyNames(s, s.reaping.value);
      forall u | u in s'.threads ensures ThreadOk(s', Settled, u) { ThreadFacts(s, u); FrameThreadOk(s, s', u); }
    }
  }

  lemma NobodyNames(s: State, pid: Pid)
    requires Inv(s) && pid in s.procs && s.procs[pid].live == 0 && s.procs[pid].toClean == 0
    ensures forall t :: t in s.threads ==> s.threads[t].owner != pid
  {
    assert ProcessOk(s.threads, Settled, pid, s.procs[pid]);
    forall t | t in s.threads ensures s.threads[t].owner != pid { SetMembers(s.threads, t, pid); }
  }

  // ---------------------------------------------------------------------------------------------
  // Exactly which calls fail
  // ---------------------------------------------------------------------------------------------

  /** Another thread of the caller's process is active. */
  ghost predicate HasActiveSibling(s: State, me: Tid)
    requires me in s.threads
  {
    exists t :: t in s.threads && t != me && s.threads[t].owner == s.threads[me].owner && s.threads[t].state == Active
  }

  ghost predicate Fails(s: State, op: Op)
    requires Enabled(s, op)
  {
    match op
    case OpKill(me, target) =>
      && target != me && target in s.threads
      && (s.threads[target].state == WaitingForJoin
          || (s.threads[target].state == Active && HasJoiner(s.threads, target)))
    case OpExitProcess(me, _) => HasActiveSibling(s, me)
    case OpKillProcess(me, pid) =>
      if s.threads[me].owner == pid then HasActiveSibling(s, me) else pid in s.procs && KillFails(s, pid)
    case OpSuicide(me) => HasActiveSibling(s, me)
    case OpTakeProcess =>
      s.procStack != [] && s.reaping.None? && s.procStack[|s.procStack| - 1] !in s.procs
    case OpResume(me) => s.threads[me].join.target !in s.threads
    case OpResumeProcess(me) => s.threads[me].join.pid !in s.procs
    case OpFreeProcess =>
      && s.reaping.Some? && s.reaping.value in s.procs
      && s.procs[s.reaping.value].toClean == 0 && s.procs[s.reaping.value].live == 0
      && HasProcessJoiner(s.threads, s.reaping.value)
    case _ => false
  }

  lemma ListIsMeIff(s: State, me: Tid)
    requires Inv(s) && Runs(s, me)
    ensures s.procs[s.threads[me].owner].list == [me] <==> !HasActiveSibling(s, me)
  {
    var pid := s.threads[me].owner;
    var list := s.procs[pid].list;
    assert ProcessOk(s.threads, Settled, pid, s.procs[pid]);
    RunningIsListed(s, Settled, me);
    if list == [me] {
      forall t | t in s.threads && t != me && s.threads[t].owner == pid ensures s.threads[t].state != Active {
        assert IsActive(s.threads, Settled, t) ==> t in list;
      }
    } else {
      OtherMember(list, me);
    }
  }

  lemma OtherMember(list: seq<Tid>, me: Tid)
    requires NoDuplicates(list) && me in list && list != [me]
    ensures exists t :: t in list && t != me
  {
    assert |list| > 1;
    assert list[0] in list && list[1] in list;
  }

  /** One step of any kind: it fails exactly when `Fails` says so, and otherwise keeps the accounts. */
  lemma ApplyKeepsInv(s: State, op: Op)
    requires Inv(s) && Enabled(s, op)
    ensures Apply(s, op).Panic? <==> Fails(s, op)
    ensures Apply(s, op).Done? ==> Inv(Apply(s, op).s)
  {
    hide InvAt, ThreadExit, Buried, Unlisted, ExitProcess, HasActiveSibling, ReapThread, TakeProcess, FreeProcess;
    hide KillProcess, CommitSuicide, KillFails, HasJoiner, HasProcessJoiner;
    match op
    case OpStart(pid, tid, detached) => StartKeepsInv(s, pid, tid, detached);
    case OpCreate(me, tid, detached) =>
      ThreadFacts(s, me);
      SpawnKeepsInv(s, tid, Thread(s.threads[me].owner, Active, detached, 0, NotJoining));
    case OpExit(me, retval) => ThreadExitKeepsInv(s, Settled, me, retval);
    case OpJoin(me, target) => JoinKeepsInv(s, me, target);
    case OpResume(me) => ResumeKeepsInv(s, me);
    case OpDetach(target) => DetachKeepsInv(s, target);
    case OpKill(me, target) => MurderKeepsInv(s, me, target);
    case OpExitProcess(me, status) => LeaveKeepsInv(s, me, status);
    case OpKillProcess(me, pid) => KillProcessIff(s, me, pid);
    case OpSuicide(me) =>
      ListIsMeIff(s, me);
      if !HasActiveSibling(s, me) { SuicideKeepsInv(s, me); } else { SuicideFails(s, me); }
    case OpJoinProcess(me, pid) => JoinProcessKeepsInv(s, me, pid);
    case OpResumeProcess(me) => ResumeProcessKeepsInv(s, me);
    case OpReapThread => ReapKeepsInv(s);
    case OpTakeProcess => TakeProcessKeepsInv(s);
    case OpFreeProcess => FreeProcessKeepsInv(s);
  }

  lemma LeaveKeepsInv(s: State, me: Tid, status: int)
    requires Inv(s) && Runs(s, me)
    ensures ExitProcess(s, me, status).Panic? <==> HasActiveSibling(s, me)
    ensures ExitProcess(s, me, status).Done? ==> Inv(ExitProcess(s, me, status).s)
  {
    hide InvAt, ExitProcess, HasActiveSibling;
    ListIsMeIff(s, me);
    if !HasActiveSibling(s, me) { ExitProcessKeepsInv(s, me, status); } else { ExitProcessFails(s, me, status); }
  }

  lemma KillProcessIff(s: State, me: Tid, pid: Pid)
    requires Inv(s) && Enabled(s, OpKillProcess(me, pid))
    ensures KillProcess(s, me, pid).Panic? <==> Fails(s, OpKillProcess(me, pid))
    ensures KillProcess(s, me, pid).Done? ==> Inv(KillProcess(s, me, pid).s)
  {
    hide InvAt, ExitProcess, HasActiveSibling, KillAll, KillFails;
    if s.threads[me].owner == pid {
      LeaveKeepsInv(s, me, -2);
    } else if pid in s.procs {
      KillProcessKeepsInv(s, me, pid);
    }
  }

  /** One turn of the loop over the thread list. */
  lemma KillAllTurn(s: State, me: Tid, pid: Pid)
    requires Inv(s) && Runs(s, me) && s.threads[me].owner != pid && pid in s.procs && s.procs[pid].list != []
    ensures var ts := s.procs[pid].list;
            && Enabled(s, OpKill(me, ts[0])) && ts[0] != me
            && match CommitMurder(s, me, ts[0])
               case Panic(_) => KillAll(s, ts).Panic?
               case Done(s1, _) =>
                 && pid in s1.procs && s1.procs[pid].list == ts[1..] && KillAll(s, ts) == KillAll(s1, ts[1..])
                 && Runs(s1, me) && s1.threads[me] == s.threads[me] && s1.usedTids == s.usedTids
  {
    hide InvAt, HasJoiner, Drop;
    var ts := s.procs[pid].list;
    ListedFacts(s, pid, ts[0]);
    UnlistedFirst(s, pid);
    ListedIffActive(s, ts[0]);
  }

  lemma SuicideFails(s: State, me: Tid)
    requires Runs(s, me) && s.procs[s.threads[me].owner].list != [me]
    ensures CommitSuicide(s, me).Panic?
  {
  }

  lemma ExitProcessFails(s: State, me: Tid, status: int)
    requires Runs(s, me) && s.procs[s.threads[me].owner].list != [me]
    ensures ExitProcess(s, me, status).Panic?
  {
  }

  lemma JoinKeepsInv(s: State, me: Tid, target: Tid)
    requires Inv(s) && Enabled(s, OpJoin(me, target))
    ensures JoinThread(s, me, target).Done? && Inv(JoinThread(s, me, target).s)
  {
    hide InvAt, Collect;
    if me != target && target in s.threads {
      if s.threads[target].state == Active {
        RelabelKeepsInv(s, me, s.threads[me].(join := Waiting(target)));
      } else {
        CollectKeepsInv(s, me, target);
      }
    }
  }

  lemma ResumeKeepsInv(s: State, me: Tid)
    requires Inv(s) && Enabled(s, OpResume(me))
    ensures var r := Collect(s, me, s.threads[me].join.target);
            (r.Panic? <==> s.threads[me].join.target !in s.threads) && (r.Done? ==> Inv(r.s))
  {
    hide InvAt;
    var target := s.threads[me].join.target;
    ThreadFacts(s, me);
    if target in s.threads { CollectKeepsInv(s, me, target); }
  }

  lemma DetachKeepsInv(s: State, target: Tid)
    requires Inv(s) && Enabled(s, OpDetach(target))
    ensures DetachThread(s, target).Done? && Inv(DetachThread(s, target).s)
  {
    hide InvAt, Buried;
    if target in s.threads {
      if s.threads[target].state == WaitingForJoin {
        BuryKeepsInv(s, Settled, target);
      } else {
        ThreadFacts(s, target);
        RelabelKeepsInv(s, target, s.threads[target].(detached := true));
      }
    }
  }

  lemma MurderKeepsInv(s: State, me: Tid, target: Tid)
    requires Inv(s) && Enabled(s, OpKill(me, target))
    ensures CommitMurder(s, me, target).Panic? <==> Fails(s, OpKill(me, target))
    ensures CommitMurder(s, me, target).Done? ==> Inv(CommitMurder(s, me, target).s)
  {
    hide InvAt, Buried, Unlisted, ThreadExit, HasJoiner;
    if target == me {
      ThreadExitKeepsInv(s, Settled, me, 0);
    } else if target in s.threads && s.threads[target].state != Terminated {
      ListedIffActive(s, target);
      if s.threads[target].state == Active && !HasJoiner(s.threads, target) { KillKeepsInv(s, target); }
    }
  }

  lemma ListedIffActive(s: State, t: Tid)
    requires Inv(s) && t in s.threads
    ensures s.threads[t].owner in s.procs && (t in s.procs[s.threads[t].owner].list <==> s.threads[t].state == Active)
  {
    ThreadFacts(s, t);
    assert ProcessOk(s.threads, Settled, s.threads[t].owner, s.procs[s.threads[t].owner]);
    assert IsActive(s.threads, Settled, t) <==> s.threads[t].state == Active;
  }

  lemma JoinProcessKeepsInv(s: State, me: Tid, pid: Pid)
    requires Inv(s) && Runs(s, me)
    ensures JoinProcess(s, me, pid).Done? && Inv(JoinProcess(s, me, pid).s)
  {
    hide InvAt, CollectProcess;
    if s.threads[me].owner != pid && pid in s.procs {
      if s.procs[pid].state == Live {
        RelabelKeepsInv(s, me, s.threads[me].(join := WaitingForProcess(pid)));
      } else {
        CollectProcessKeepsInv(s, me, pid);
      }
    }
  }

  lemma ResumeProcessKeepsInv(s: State, me: Tid)
    requires Inv(s) && me in s.threads && s.threads[me].state == Active && s.threads[me].join.WokenByProcess?
    ensures var r := CollectProcess(s, me, s.threads[me].join.pid);
            (r.Panic? <==> s.threads[me].join.pid !in s.procs) && (r.Done? ==> Inv(r.s))
  {
    hide InvAt;
    var pid := s.threads[me].join.pid;
    ThreadFacts(s, me);
    if pid in s.procs { CollectProcessKeepsInv(s, me, pid); }
  }

  // ---------------------------------------------------------------------------------------------
  // Every run
  // ---------------------------------------------------------------------------------------------

  ghost predicate IsRun(s: State, ops: seq<Op>)
    decreases |ops|
  {
    ops == [] || (Enabled(s, ops[0]) && Apply(s, ops[0]).Done? && IsRun(Apply(s, ops[0]).s, ops[1..]))
  }

  ghost function Run(s: State, ops: seq<Op>): State
    requires IsRun(s, ops)
    decreases |ops|
  {
    if ops == [] then s else Run(Apply(s, ops[0]).s, ops[1..])
  }

  const EMPTY: State := State(map[], map[], [], [], None, {}, {}, [])

  lemma {:induction false} RunKeepsInv(s: State, ops: seq<Op>)
    requires Inv(s) && IsRun(s, ops)
    ensures Inv(Run(s, ops))
    decreases |ops|
  {
    hide Inv, Apply, Enabled;
    if ops != [] {
      ApplyKeepsInv(s, ops[0]);
      RunKeepsInv(Apply(s, ops[0]).s, ops[1..]);
    }
  }

  /**
   After any run: the counters of every process are exact, the clean-up stack holds every terminated
   thread once, every thread's process still exists, and no return value was handed out twice.
   */
  lemma EveryRunIsExact(ops: seq<Op>, p: Pid)
    requires IsRun(EMPTY, ops)
    ensures var s := Run(EMPTY, ops);
            && (p in s.procs ==>
                  s.procs[p].live == |LiveSet(s.threads, p)| && s.procs[p].toClean == |CleanSet(s.threads, p)|)
            && NoDuplicates(s.threadStack)
            && (forall t :: t in s.threadStack <==> t in s.threads && s.threads[t].state == Terminated)
            && (forall t :: t in s.threads ==> s.threads[t].owner in s.procs)
            && NoDuplicates(s.delivered)
  {
    hide IsRun, Run, NoDuplicates, LiveSet, CleanSet;
    EmptyExact();
    assert Inv(EMPTY);
    RunKeepsInv(EMPTY, ops);
    var s := Run(EMPTY, ops);
    forall t | t in s.threads ensures s.threads[t].owner in s.procs { ThreadFacts(s, t); }
    assert p in s.procs ==> ProcessOk(s.threads, Settled, p, s.procs[p]);
  }
}
