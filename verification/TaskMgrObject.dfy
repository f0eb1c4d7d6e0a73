/**
 The task manager object: its calls as updates of the thread, process and clean-up tables, each proved
 to do what the corresponding function of module `TaskMgr` says.
 */
module TaskMgrObject {
  import opened Basics
  import opened TaskMgr

  class Manager {
    var threads: map<Tid, Thread>
    var procs: map<Pid, Process>
    var threadStack: seq<Tid>
    var procStack: seq<Pid>
    var reaping: Option<Pid>
    ghost var usedTids: set<Tid>
    ghost var usedPids: set<Pid>
    ghost var delivered: seq<Tid>

    ghost function Now(): State
      reads this
    {
      State(threads, procs, threadStack, procStack, reaping, usedTids, usedPids, delivered)
    }

    constructor ()
      ensures Now() == EMPTY
    {
      threads, procs, threadStack, procStack, reaping := map[], map[], [], [], None;
      usedTids, usedPids, delivered := {}, {}, [];
    }

    method CreateThread(me: Tid, tid: Tid, detached: bool)
      requires Inv(Now()) && Enabled(Now(), OpCreate(me, tid, detached))
      modifies this
      ensures Inv(Now()) && TaskMgr.CreateThread(old(Now()), me, tid, detached) == Done(Now(), Nothing)
    {
      hide InvAt;
      ApplyKeepsInv(Now(), OpCreate(me, tid, detached));
      var pid := threads[me].owner;
      threads := threads[tid := Thread(pid, Active, detached, 0, NotJoining)];
      usedTids := usedTids + {tid};
      var process := procs[pid];
      procs := procs[pid := process.(live := process.live + 1, list := [tid] + process.list)];
    }

    /** Hands a thread to the reaper. */
    method Bury(t: Tid)
      requires t in threads && threads[t].owner in procs
      modifies this`threads, this`threadStack, this`procs
      ensures Now() == Buried(old(Now()), t)
    {
      var pid := threads[t].owner;
      threads := threads[t := threads[t].(state := Terminated, join := NotJoining)];
      threadStack := threadStack + [t];
      procs := procs[pid := procs[pid].(toClean := procs[pid].toClean + 1)];
      procs := procs[pid := procs[pid].(live := procs[pid].live - 1)];
    }

    /** A running thread ends; the process ends with its last detached thread. */
    method ThreadExit(me: Tid, retval: int, ghost mid: Mid)
      requires InvAt(Now(), mid) && Runs(Now(), me) && (mid == Settled || mid == Leaving(me))
      modifies this
      ensures Inv(Now()) && TaskMgr.ThreadExit(old(Now()), me, retval) == Done(Now(), Nothing)
      ensures me in threads && threads[me].retval == retval && threads[me].state ==
              if old(threads[me].detached || procs[threads[me].owner].live == 1) then Terminated else WaitingForJoin
      ensures forall t :: t in old(threads) && t != me ==>
                            t in threads && threads[t].retval == old(threads)[t].retval
    {
      hide InvAt, Buried, JoinersWoken, Drop;
      ThreadExitKeepsInv(Now(), mid, me, retval);
      RunningIsListed(Now(), mid, me);
      ExitRecords(Now(), me, retval);
      var pid := threads[me].owner;
      var detached, last := threads[me].detached, procs[pid].live == 1;
      threads := threads[me := threads[me].(retval := retval)];
      procs := procs[pid := procs[pid].(list := Drop(procs[pid].list, me))];
      threads := JoinersWoken(threads, me);
      WokenFrame(old(threads)[me := old(threads)[me].(retval := retval)], me);
      if detached || last {
        BuryFrame(Now(), me);
        Bury(me);
        if detached && procs[pid].live == 0 {
          procs := procs[pid := procs[pid].(state := Dead)];
          procStack := procStack + [pid];
        }
      } else {
        threads := threads[me := threads[me].(state := WaitingForJoin)];
      }
    }

    /** The first half of a join; `blocked` tells that the caller has to wait. */
    method JoinThread(me: Tid, target: Tid) returns (blocked: bool, reply: Reply)
      requires Inv(Now()) && Enabled(Now(), OpJoin(me, target))
      modifies this
      ensures Inv(Now()) && TaskMgr.JoinThread(old(Now()), me, target) == Done(Now(), reply)
      ensures blocked <==> me != target && target in old(threads) && old(threads)[target].state == Active
    {
      hide InvAt, Buried;
      JoinKeepsInv(Now(), me, target);
      if me == target || target !in threads {
        return false, Refused;
      }
      if threads[target].state == Active {
        threads := threads[me := threads[me].(join := Waiting(target))];
        return true, Nothing;
      }
      reply := CollectFrom(me, target);
      blocked := false;
    }

    /** The second half: a finished thread gives its value to exactly one caller. */
    method CollectFrom(me: Tid, target: Tid) returns (reply: Reply)
      requires Inv(Now()) && me in threads && threads[me].state == Active && me != target
      requires target in threads && threads[target].owner in procs && threads[target].state != Active
      modifies this
      ensures Inv(Now()) && Collect(old(Now()), me, target) == Done(Now(), reply)
      ensures reply.Value? <==> old(threads)[target].state == WaitingForJoin
      ensures reply.Value? ==> reply.v == old(threads)[target].retval && delivered == old(delivered) + [target]
    {
      hide InvAt, Buried;
      CollectKeepsInv(Now(), me, target);
      var state, retval := threads[target].state, threads[target].retval;
      threads := threads[me := threads[me].(join := NotJoining)];
      if state == WaitingForJoin {
        Bury(target);
        delivered := delivered + [target];
        return Value(retval);
      }
      return Refused;
    }

    method DetachThread(target: Tid) returns (reply: Reply)
      requires Inv(Now()) && Enabled(Now(), OpDetach(target))
      modifies this`threads, this`threadStack, this`procs
      ensures Inv(Now()) && TaskMgr.DetachThread(old(Now()), target) == Done(Now(), reply)
    {
      hide InvAt, Buried;
      DetachKeepsInv(Now(), target);
      if target !in threads {
        return Refused;
      }
      if threads[target].state == WaitingForJoin {
        Bury(target);
        return Nothing;
      }
      threads := threads[target := threads[target].(detached := true)];
      return Nothing;
    }

    /** Kills another thread; `ok` is false when one of its assertions fails. */
    method CommitMurder(me: Tid, target: Tid) returns (ok: bool, reply: Reply)
      requires Inv(Now()) && Enabled(Now(), OpKill(me, target))
      modifies this
      ensures ok <==> !old(Fails(Now(), OpKill(me, target)))
      ensures ok ==> Inv(Now()) && TaskMgr.CommitMurder(old(Now()), me, target) == Done(Now(), reply)
    {
      hide InvAt, Buried, HasJoiner, Drop;
      MurderKeepsInv(Now(), me, target);
      reply := Nothing;
      if target == me {
        ThreadExitKeepsInv(Now(), Settled, me, 0);
        ThreadExit(me, 0, Settled);
        return true, Nothing;
      }
      if target !in threads {
        return true, Refused;
      }
      if threads[target].state == Terminated {
        return true, Nothing;
      }
      var pid := threads[target].owner;
      if target !in procs[pid].list || HasJoiner(threads, target) {
        return false, Nothing;
      }
      procs := procs[pid := procs[pid].(list := Drop(procs[pid].list, target))];
      Bury(target);
      return true, Nothing;
    }

    /** The last active thread leaves its process; `ok` is false when there is another one. */
    method ExitProcess(me: Tid, status: int) returns (ok: bool)
      requires Inv(Now()) && Runs(Now(), me)
      modifies this
      ensures ok <==> !old(HasActiveSibling(Now(), me))
      ensures ok ==> Inv(Now()) && TaskMgr.ExitProcess(old(Now()), me, status) == Done(Now(), Nothing)
    {
      hide InvAt, HasActiveSibling, TaskMgr.ThreadExit, ProcessJoinersWoken;
      ListIsMeIff(Now(), me);
      var pid := threads[me].owner;
      if procs[pid].list != [me] {
        return false;
      }
      ExitMarkedInv(Now(), me, status);
      procs := procs[pid := procs[pid].(state := Exited, status := status)];
      threads := ProcessJoinersWoken(threads, pid);
      ThreadExit(me, 0, Leaving(me));
      return true;
    }

    /** Kills a process: its threads one after the other, then its joiners are run, then it is queued. */
    method KillProcess(me: Tid, pid: Pid) returns (ok: bool, reply: Reply)
      requires Inv(Now()) && Enabled(Now(), OpKillProcess(me, pid))
      modifies this
      ensures ok <==> !old(Fails(Now(), OpKillProcess(me, pid)))
      ensures ok ==> Inv(Now()) && TaskMgr.KillProcess(old(Now()), me, pid) == Done(Now(), reply)
    {
      hide InvAt, HasActiveSibling, TaskMgr.ExitProcess, KillAll, HasJoiner, KillFails, ProcessJoinersServed;
      hide TaskMgr.CommitMurder;
      ghost var s := Now();
      KillProcessIff(s, me, pid);
      reply := Nothing;
      if threads[me].owner == pid {
        ok := ExitProcess(me, -2);
        return;
      }
      if pid !in procs {
        return true, Refused;
      }
      while procs[pid].list != []
        invariant Inv(Now()) && Runs(Now(), me) && threads[me].owner != pid && pid in procs
        invariant KillAll(s, s.procs[pid].list) == KillAll(Now(), procs[pid].list)
        decreases |procs[pid].list|
      {
        KillAllTurn(Now(), me, pid);
        MurderKeepsInv(Now(), me, procs[pid].list[0]);
        var killed, _ := CommitMurder(me, procs[pid].list[0]);
        if !killed {
          return false, Nothing;
        }
      }
      KillNone(Now());
      if procs[pid].state == Live && HasProcessJoiner(threads, pid) {
        return false, Nothing;
      }
      threads := ProcessJoinersServed(threads, pid);
      if procs[pid].state != Dead {
        procs := procs[pid := procs[pid].(state := Dead, status := -2)];
        procStack := procStack + [pid];
      }
      return true, Nothing;
    }

    /** The last active thread takes its process down; `ok` is false when there is another one. */
    method CommitSuicide(me: Tid) returns (ok: bool)
      requires Inv(Now()) && Runs(Now(), me)
      modifies this
      ensures ok <==> !old(HasActiveSibling(Now(), me))
      ensures ok ==> Inv(Now()) && TaskMgr.CommitSuicide(old(Now()), me) == Done(Now(), Nothing)
    {
      hide InvAt, HasActiveSibling, TaskMgr.ThreadExit, ProcessJoinersServed;
      ListIsMeIff(Now(), me);
      var pid := threads[me].owner;
      if procs[pid].list != [me] {
        return false;
      }
      SuicideMarkedInv(Now(), me);
      threads := ProcessJoinersServed(threads, pid);
      procs := procs[pid := procs[pid].(state := Dead, status := -1)];
      procStack := procStack + [pid];
      ThreadExit(me, 0, Leaving(me));
      return true;
    }

    /** Reaps terminated threads until none is left. */
    method ThreadRipperWork()
      requires Inv(Now())
      modifies this`threads, this`threadStack, this`procs
      ensures Inv(Now()) && threadStack == []
      ensures threads.Keys == set t | t in old(threads) && old(threads)[t].state != Terminated
      ensures forall t :: t in threads ==> threads[t] == old(threads)[t]
      ensures forall p :: p in procs ==> procs[p].toClean == 0
    {
      hide InvAt, HasJoiner;
      ghost var before := Now();
      StackExact(before);
      while threadStack != []
        invariant Inv(Now()) && procStack == before.procStack && usedTids == before.usedTids
        invariant threads.Keys <= before.threads.Keys && forall t :: t in threads ==> threads[t] == before.threads[t]
        invariant forall t :: t in before.threads && before.threads[t].state != Terminated ==> t in threads
        decreases |threadStack|
      {
        ReapFacts(Now());
        ReapKeepsInv(Now());
        var t := threadStack[|threadStack| - 1];
        threadStack := threadStack[..|threadStack| - 1];
        var pid := threads[t].owner;
        threads := threads - {t};
        procs := procs[pid := procs[pid].(toClean := procs[pid].toClean - 1)];
      }
      StackExact(Now());
    }
  }

  lemma KillNone(s: State)
    ensures KillAll(s, []) == Done(s, Nothing)
  {
  }

  lemma WokenFrame(threads: map<Tid, Thread>, me: Tid)
    requires me in threads && threads[me].join == NotJoining
    ensures me in JoinersWoken(threads, me) && JoinersWoken(threads, me)[me] == threads[me]
  {
  }

  lemma StackExact(s: State)
    requires Inv(s)
    ensures forall t :: t in s.threadStack <==> t in s.threads && s.threads[t].state == Terminated
    ensures s.threadStack == [] ==> forall p :: p in s.procs ==> s.procs[p].toClean == 0
  {
    forall p | p in s.procs && s.threadStack == [] ensures s.procs[p].toClean == 0 {
      assert ProcessOk(s.threads, Settled, p, s.procs[p]);
      assert CleanSet(s.threads, p) == {};
    }
  }
}
