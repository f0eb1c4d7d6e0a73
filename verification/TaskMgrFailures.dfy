/**
 Runs from the empty machine that reach each of the failures of module `TaskMgr`.
 */
module TaskMgrFailures {
  import opened Basics
  import opened TaskMgr
  import opened TaskMgrRuns

  /** The operations lead from the empty state to `s`. */
  ghost predicate LeadsTo(ops: seq<Op>, s: State) { IsRun(EMPTY, ops) && Run(EMPTY, ops) == s }

  ghost predicate Steps(s: State, op: Op, s': State) { Enabled(s, op) && Apply(s, op).Done? && Apply(s, op).s == s' }

  ghost predicate Breaks(s: State, op: Op, why: Reason) { Enabled(s, op) && Apply(s, op) == Panic(why) }

  lemma {:induction false} RunSnoc(s: State, ops: seq<Op>, op: Op)
    requires IsRun(s, ops) && Enabled(Run(s, ops), op) && Apply(Run(s, ops), op).Done?
    ensures IsRun(s, ops + [op]) && Run(s, ops + [op]) == Apply(Run(s, ops), op).s
    decreases |ops|
  {
    hide Apply, Enabled;
    if ops == [] {
      assert ops + [op] == [op];
      assert IsRun(Apply(s, op).s, []);
    } else {
      assert (ops + [op])[1..] == ops[1..] + [op];
      RunSnoc(Apply(s, ops[0]).s, ops[1..], op);
    }
  }

  lemma Then(ops: seq<Op>, s: State, op: Op, s': State)
    requires LeadsTo(ops, s) && Steps(s, op, s')
    ensures LeadsTo(ops + [op], s')
  {
    hide Apply, Enabled;
    RunSnoc(EMPTY, ops, op);
  }

  lemma Start()
    ensures LeadsTo([], EMPTY)
  {
  }

  function Fresh(pid: Pid): Thread { Thread(pid, Active, false, 0, NotJoining) }

  /** One process with three threads. */
  const TRIPLE_OPS: seq<Op> := [OpStart(0, 0, false), OpCreate(0, 1, false), OpCreate(0, 2, false)]
  const TRIPLE: State :=
    State(map[0 := Fresh(0), 1 := Fresh(0), 2 := Fresh(0)], map[0 := Process(Live, 0, 3, 0, [2, 1, 0])],
          [], [], None, {0, 1, 2}, {0}, [])

  lemma TripleRun()
    ensures LeadsTo(TRIPLE_OPS, TRIPLE)
  {
    hide Apply, Enabled, LeadsTo, Steps;
    var s1 := State(map[0 := Fresh(0)], map[0 := Process(Live, 0, 1, 0, [0])], [], [], None, {0}, {0}, []);
    var s2 := s1.(threads := s1.threads[1 := Fresh(0)], procs := map[0 := Process(Live, 0, 2, 0, [1, 0])],
                  usedTids := {0, 1});
    TripleSteps(s1, s2);
    Start();
    var r1 := [] + [OpStart(0, 0, false)];
    var r2 := r1 + [OpCreate(0, 1, false)];
    Then([], EMPTY, OpStart(0, 0, false), s1);
    Then(r1, s1, OpCreate(0, 1, false), s2);
    Then(r2, s2, OpCreate(0, 2, false), TRIPLE);
    assert r2 + [OpCreate(0, 2, false)] == TRIPLE_OPS;
  }

  lemma TripleSteps(s1: State, s2: State)
    requires s1 == State(map[0 := Fresh(0)], map[0 := Process(Live, 0, 1, 0, [0])], [], [], None, {0}, {0}, [])
    requires s2 == s1.(threads := s1.threads[1 := Fresh(0)], procs := map[0 := Process(Live, 0, 2, 0, [1, 0])],
                       usedTids := {0, 1})
    ensures Steps(EMPTY, OpStart(0, 0, false), s1)
    ensures Steps(s1, OpCreate(0, 1, false), s2)
    ensures Steps(s2, OpCreate(0, 2, false), TRIPLE)
  {
    assert StartProcess(EMPTY, 0, 0, false).s == s1;
    assert [1] + [0] == [1, 0] && [2] + [1, 0] == [2, 1, 0];
    assert CreateThread(s1, 0, 1, false).s == s2;
    assert CreateThread(s2, 0, 2, false).s == TRIPLE;
  }

  /** A process cannot be left while a sibling is active. */
  lemma LeavingSiblingsFails()
    ensures LeadsTo(TRIPLE_OPS, TRIPLE) && Breaks(TRIPLE, OpExitProcess(0, 0), AssertFailed)
  {
    hide LeadsTo, ThreadExit;
    TripleRun();
  }

  /** A thread cannot be killed while somebody joins it. */
  lemma KillWithJoinerFails()
    ensures var s := TRIPLE.(threads := TRIPLE.threads[0 := Fresh(0).(join := Waiting(1))]);
            LeadsTo(TRIPLE_OPS + [OpJoin(0, 1)], s) && Breaks(s, OpKill(2, 1), AssertFailed)
  {
    hide LeadsTo, ThreadExit, Buried;
    TripleRun();
    var s := TRIPLE.(threads := TRIPLE.threads[0 := Fresh(0).(join := Waiting(1))]);
    assert s.threads[0].join == Waiting(1);
    Then(TRIPLE_OPS, TRIPLE, OpJoin(0, 1), s);
  }

  /** After the exit of thread 1. */
  const EXITED: State :=
    TRIPLE.(threads := TRIPLE.threads[1 := Fresh(0).(state := WaitingForJoin)],
            procs := map[0 := Process(Live, 0, 3, 0, [2, 0])])

  lemma ExitOfOne(join: Join, join': Join)
    requires (join == NotJoining && join' == NotJoining) || (join == Waiting(1) && join' == Woken(1))
    ensures Steps(TRIPLE.(threads := TRIPLE.threads[0 := Fresh(0).(join := join)]), OpExit(1, 0),
                  EXITED.(threads := EXITED.threads[0 := Fresh(0).(join := join')]))
  {
    var s := TRIPLE.(threads := TRIPLE.threads[0 := Fresh(0).(join := join)]);
    assert Drop([2, 1, 0], 1) == [2, 0] by { assert [2, 1, 0][1..] == [1, 0] && [1, 0][1..] == [0]; }
    var r := ThreadExit(s, 1, 0).s;
    assert r.threads == EXITED.threads[0 := Fresh(0).(join := join')];
    assert r.procs == EXITED.procs;
  }

  /** A thread that waits to be joined cannot be killed. */
  lemma KillOfFinishedFails()
    ensures LeadsTo(TRIPLE_OPS + [OpExit(1, 0)], EXITED) && Breaks(EXITED, OpKill(0, 1), AssertFailed)
  {
    hide LeadsTo, ThreadExit, Buried, Steps;
    TripleRun();
    ExitOfOne(NotJoining, NotJoining);
    assert TRIPLE.threads[0 := Fresh(0).(join := NotJoining)] == TRIPLE.threads;
    assert EXITED.threads[0 := Fresh(0).(join := NotJoining)] == EXITED.threads;
    Then(TRIPLE_OPS, TRIPLE, OpExit(1, 0), EXITED);
  }

  /** A joiner that resumes after its target was detached and reaped finds the target gone. */
  lemma ResumeAfterReapFails()
    ensures exists s :: && LeadsTo(TRIPLE_OPS + [OpJoin(0, 1), OpExit(1, 0), OpDetach(1), OpReapThread], s)
                        && Breaks(s, OpResume(0), Dangling)
  {
    hide LeadsTo, Steps, Breaks;
    TripleRun();
    var s1 := TRIPLE.(threads := TRIPLE.threads[0 := Fresh(0).(join := Waiting(1))]);
    var s2 := EXITED.(threads := EXITED.threads[0 := Fresh(0).(join := Woken(1))]);
    var s3 := Buried(s2, 1);
    var s4 := s3.(threads := map[0 := Fresh(0).(join := Woken(1)), 2 := Fresh(0)], threadStack := [],
                  procs := map[0 := Process(Live, 0, 2, 0, [2, 0])]);
    ReapSteps(s1, s2, s3, s4);
    ExitOfOne(Waiting(1), Woken(1));
    var r1 := TRIPLE_OPS + [OpJoin(0, 1)];
    var r2 := r1 + [OpExit(1, 0)];
    var r3 := r2 + [OpDetach(1)];
    Then(TRIPLE_OPS, TRIPLE, OpJoin(0, 1), s1);
    Then(r1, s1, OpExit(1, 0), s2);
    Then(r2, s2, OpDetach(1), s3);
    Then(r3, s3, OpReapThread, s4);
    assert r3 + [OpReapThread] == TRIPLE_OPS + [OpJoin(0, 1), OpExit(1, 0), OpDetach(1), OpReapThread];
  }

  lemma ReapSteps(s1: State, s2: State, s3: State, s4: State)
    requires s1 == TRIPLE.(threads := TRIPLE.threads[0 := Fresh(0).(join := Waiting(1))])
    requires s2 == EXITED.(threads := EXITED.threads[0 := Fresh(0).(join := Woken(1))])
    requires s3 == Buried(s2, 1)
    requires s4 == s3.(threads := map[0 := Fresh(0).(join := Woken(1)), 2 := Fresh(0)], threadStack := [],
                       procs := map[0 := Process(Live, 0, 2, 0, [2, 0])])
    ensures Steps(TRIPLE, OpJoin(0, 1), s1) && Steps(s2, OpDetach(1), s3)
    ensures Steps(s3, OpReapThread, s4) && Breaks(s4, OpResume(0), Dangling)
  {
    hide ReapThread, Buried;
    BuriedOne(s2);
    ReapOne(s3, s4);
  }

  lemma BuriedOne(s: State)
    requires s == EXITED.(threads := EXITED.threads[0 := Fresh(0).(join := Woken(1))])
    ensures Buried(s, 1)
            == s.(threads := map[0 := Fresh(0).(join := Woken(1)), 1 := Fresh(0).(state := Terminated), 2 := Fresh(0)],
                  threadStack := [1], procs := map[0 := Process(Live, 0, 2, 1, [2, 0])])
  {
  }

  lemma ReapOne(s: State, s': State)
    requires s == EXITED.(threads := map[0 := Fresh(0).(join := Woken(1)), 1 := Fresh(0).(state := Terminated),
                                         2 := Fresh(0)],
                          threadStack := [1], procs := map[0 := Process(Live, 0, 2, 1, [2, 0])])
    requires s' == s.(threads := map[0 := Fresh(0).(join := Woken(1)), 2 := Fresh(0)], threadStack := [],
                      procs := map[0 := Process(Live, 0, 2, 0, [2, 0])])
    ensures ReapThread(s) == Done(s', Nothing)
  {
    assert [1][..0] == [];
    assert s.threads - {1} == s'.threads;
  }

  /** Two processes of one thread each; the first waits for the second. */
  function DuoOps(detached: bool): seq<Op> { [OpStart(0, 0, false), OpStart(1, 1, detached), OpJoinProcess(0, 1)] }

  const HOST: Process := Process(Live, 0, 1, 0, [0])

  function Duo(detached: bool): State {
    State(map[0 := Fresh(0).(join := WaitingForProcess(1)), 1 := Fresh(1).(detached := detached)],
          map[0 := HOST, 1 := Process(Live, 0, 1, 0, [1])], [], [], None, {0, 1}, {0, 1}, [])
  }

  lemma DuoRun(detached: bool)
    ensures LeadsTo(DuoOps(detached), Duo(detached))
  {
    hide Apply, Enabled, LeadsTo, Steps;
    var s1 := State(map[0 := Fresh(0)], map[0 := HOST], [], [], None, {0}, {0}, []);
    var s2 := Duo(detached).(threads := Duo(detached).threads[0 := Fresh(0)]);
    DuoSteps(detached, s1, s2);
    Start();
    var r1 := [] + [OpStart(0, 0, false)];
    var r2 := r1 + [OpStart(1, 1, detached)];
    Then([], EMPTY, OpStart(0, 0, false), s1);
    Then(r1, s1, OpStart(1, 1, detached), s2);
    Then(r2, s2, OpJoinProcess(0, 1), Duo(detached));
    assert r2 + [OpJoinProcess(0, 1)] == DuoOps(detached);
  }

  lemma DuoSteps(detached: bool, s1: State, s2: State)
    requires s1 == State(map[0 := Fresh(0)], map[0 := HOST], [], [], None, {0}, {0}, [])
    requires s2 == Duo(detached).(threads := Duo(detached).threads[0 := Fresh(0)])
    ensures Steps(EMPTY, OpStart(0, 0, false), s1)
    ensures Steps(s1, OpStart(1, 1, detached), s2)
    ensures Steps(s2, OpJoinProcess(0, 1), Duo(detached))
  {
    assert StartProcess(EMPTY, 0, 0, false).s == s1;
    assert StartProcess(s1, 1, 1, detached).s == s2;
    assert JoinProcess(s2, 0, 1).s == Duo(detached);
  }

  /** After the only thread of the second process has exited or left; the join is as given. */
  function DuoDead(join: Join, status: int): State {
    State(map[0 := Fresh(0).(join := join), 1 := Fresh(1).(detached := true, state := Terminated)],
          map[0 := HOST, 1 := Process(Dead, status, 0, 1, [])], [1], [1], None, {0, 1}, {0, 1}, [])
  }

  /** The same when the reaper of threads has passed and the reaper of processes holds the process. */
  function DuoReaped(join: Join, status: int): State {
    State(map[0 := Fresh(0).(join := join)], map[0 := HOST, 1 := Process(Dead, status, 0, 0, [])], [], [], Some(1),
          {0, 1}, {0, 1}, [])
  }

  lemma DuoReap(ops: seq<Op>, join: Join, status: int)
    requires LeadsTo(ops, DuoDead(join, status)) && !join.Waiting?
    ensures LeadsTo(ops + [OpReapThread, OpTakeProcess], DuoReaped(join, status))
  {
    hide Apply, Enabled, LeadsTo, Steps;
    var s := DuoReaped(join, status).(procStack := [1], reaping := None);
    DuoReapSteps(join, status, s);
    Then(ops, DuoDead(join, status), OpReapThread, s);
    Then(ops + [OpReapThread], s, OpTakeProcess, DuoReaped(join, status));
    assert ops + [OpReapThread] + [OpTakeProcess] == ops + [OpReapThread, OpTakeProcess];
  }

  lemma DuoReapSteps(join: Join, status: int, s: State)
    requires !join.Waiting? && s == DuoReaped(join, status).(procStack := [1], reaping := None)
    ensures Steps(DuoDead(join, status), OpReapThread, s) && Steps(s, OpTakeProcess, DuoReaped(join, status))
  {
    var d := DuoDead(join, status);
    assert [1][..0] == [];
    assert d.threads - {1} == s.threads;
    assert ReapThread(d).s.procs == s.procs;
  }

  lemma DuoExit()
    ensures Steps(Duo(true), OpExit(1, 0), DuoDead(WaitingForProcess(1), 0))
  {
    assert [1][1..] == [];
    var r := ThreadExit(Duo(true), 1, 0).s;
    assert r.threads == DuoDead(WaitingForProcess(1), 0).threads;
    assert r.procs == DuoDead(WaitingForProcess(1), 0).procs;
  }

  lemma DuoLeave()
    ensures Steps(Duo(true), OpExitProcess(1, 7), DuoDead(WokenByProcess(1), 7))
  {
    hide ThreadExit;
    var s := Duo(true).(procs := map[0 := HOST, 1 := Process(Exited, 7, 1, 0, [1])],
                        threads := Duo(true).threads[0 := Fresh(0).(join := WokenByProcess(1))]);
    assert ProcessJoinersWoken(Duo(true).threads, 1) == s.threads;
    assert Duo(true).procs[1 := Process(Exited, 7, 1, 0, [1])] == s.procs;
    DuoLast(s);
  }

  lemma DuoLast(s: State)
    requires s == Duo(true).(procs := map[0 := HOST, 1 := Process(Exited, 7, 1, 0, [1])],
                             threads := Duo(true).threads[0 := Fresh(0).(join := WokenByProcess(1))])
    ensures ThreadExit(s, 1, 0) == Done(DuoDead(WokenByProcess(1), 7), Nothing)
  {
    assert [1][1..] == [];
    var r := ThreadExit(s, 1, 0).s;
    assert r.threads == DuoDead(WokenByProcess(1), 7).threads;
    assert r.procs == DuoDead(WokenByProcess(1), 7).procs;
  }

  /** The exit of a last detached thread strands the joiner of its process, and the clean-up then fails. */
  lemma StrandedJoinerFails()
    ensures LeadsTo(DuoOps(true) + [OpExit(1, 0), OpReapThread, OpTakeProcess], DuoReaped(WaitingForProcess(1), 0))
    ensures Breaks(DuoReaped(WaitingForProcess(1), 0), OpFreeProcess, AssertFailed)
    ensures Stranded(DuoReaped(WaitingForProcess(1), 0), 0, 1)
  {
    hide LeadsTo, Steps;
    DuoRun(true);
    DuoExit();
    Then(DuoOps(true), Duo(true), OpExit(1, 0), DuoDead(WaitingForProcess(1), 0));
    DuoReap(DuoOps(true) + [OpExit(1, 0)], WaitingForProcess(1), 0);
    assert DuoOps(true) + [OpExit(1, 0)] + [OpReapThread, OpTakeProcess]
           == DuoOps(true) + [OpExit(1, 0), OpReapThread, OpTakeProcess];
    assert DuoReaped(WaitingForProcess(1), 0).threads[0].join == WaitingForProcess(1);
  }

  /** A joiner that was woken but resumes after the process was freed finds it gone. */
  lemma ResumeAfterFreeFails()
    ensures var s := DuoReaped(WokenByProcess(1), 7).(procs := map[0 := HOST], reaping := None);
            && LeadsTo(DuoOps(true) + [OpExitProcess(1, 7), OpReapThread, OpTakeProcess, OpFreeProcess], s)
            && Breaks(s, OpResumeProcess(0), Dangling)
  {
    hide LeadsTo, Steps;
    DuoRun(true);
    DuoLeave();
    var r1 := DuoOps(true) + [OpExitProcess(1, 7)];
    Then(DuoOps(true), Duo(true), OpExitProcess(1, 7), DuoDead(WokenByProcess(1), 7));
    DuoReap(r1, WokenByProcess(1), 7);
    var s := DuoReaped(WokenByProcess(1), 7).(procs := map[0 := HOST], reaping := None);
    DuoFree(s);
    Then(r1 + [OpReapThread, OpTakeProcess], DuoReaped(WokenByProcess(1), 7), OpFreeProcess, s);
    assert r1 + [OpReapThread, OpTakeProcess] + [OpFreeProcess]
        == DuoOps(true) + [OpExitProcess(1, 7), OpReapThread, OpTakeProcess, OpFreeProcess];
  }

  lemma DuoFree(s: State)
    requires s == DuoReaped(WokenByProcess(1), 7).(procs := map[0 := HOST], reaping := None)
    ensures Steps(DuoReaped(WokenByProcess(1), 7), OpFreeProcess, s)
  {
    assert DuoReaped(WokenByProcess(1), 7).procs - {1} == s.procs;
  }

  /** The exit of a last thread that is not detached leaves a live process with no thread, and its joiner. */
  lemma ForgottenProcessRun()
    ensures exists s :: && LeadsTo(DuoOps(false) + [OpExit(1, 0)], s) && Forgotten(s, 1) && s.procs[1].live == 0
                        && Stranded(s, 0, 1)
  {
    hide LeadsTo;
    DuoRun(false);
    assert [1][1..] == [];
    var s := ThreadExit(Duo(false), 1, 0).s;
    assert s.threads == map[0 := Fresh(0).(join := WaitingForProcess(1)), 1 := Fresh(1).(state := Terminated)];
    Then(DuoOps(false), Duo(false), OpExit(1, 0), s);
    assert Forgotten(s, 1) && Stranded(s, 0, 1);
  }

  // ---------------------------------------------------------------------------------------------
  // Kills by pid, and suicide
  // ---------------------------------------------------------------------------------------------

  lemma LeadsToInv(ops: seq<Op>, s: State)
    requires LeadsTo(ops, s)
    ensures Inv(s)
  {
    hide InvAt, IsRun, Run;
    EmptyInv();
    RunKeepsInv(EMPTY, ops);
  }

  lemma EmptyInv()
    ensures Inv(EMPTY)
  {
  }

  /** A further process with one thread. */
  function With(s: State, pid: Pid, tid: Tid): State {
    s.(procs := s.procs[pid := Process(Live, 0, 1, 0, [tid])], usedPids := s.usedPids + {pid},
       threads := s.threads[tid := Fresh(pid)], usedTids := s.usedTids + {tid})
  }

  lemma ThenStart(ops: seq<Op>, s: State, pid: Pid, tid: Tid)
    requires LeadsTo(ops, s) && pid !in s.usedPids && tid !in s.usedTids
    ensures LeadsTo(ops + [OpStart(pid, tid, false)], With(s, pid, tid)) && Runs(With(s, pid, tid), tid)
  {
    hide LeadsTo;
    Then(ops, s, OpStart(pid, tid, false), With(s, pid, tid));
  }

  /** The joiner of a dead process that is not freed is released by a kill of that process. */
  lemma KillReleasesStranded()
    ensures var ops := DuoOps(true) + [OpExit(1, 0)] + [OpStart(2, 2, false)];
            exists s, s' :: && LeadsTo(ops, s) && Stranded(s, 0, 1)
                            && LeadsTo(ops + [OpKillProcess(2, 1)], s') && Runs(s', 0)
  {
    hide LeadsTo, Steps, InvAt, KillProcess;
    DuoRun(true);
    DuoExit();
    var dead := DuoDead(WaitingForProcess(1), 0);
    var r1 := DuoOps(true) + [OpExit(1, 0)];
    Then(DuoOps(true), Duo(true), OpExit(1, 0), dead);
    ThenStart(r1, dead, 2, 2);
    var r2, s := r1 + [OpStart(2, 2, false)], With(dead, 2, 2);
    LeadsToInv(r2, s);
    assert !JoinedWhenKilled(s.threads, []);
    KillProcessIff(s, 2, 1);
    var s' := KillProcess(s, 2, 1).s;
    StrandedReleasedIff(s, OpKillProcess(2, 1), 0, 1);
    ApplyKeepsInv(s, OpKillProcess(2, 1));
    ThreadFacts(s', 0);
    StepIs(s, OpKillProcess(2, 1), s');
    Then(r2, s, OpKillProcess(2, 1), s');
  }

  lemma StepIs(s: State, op: Op, s': State)
    requires Enabled(s, op) && Apply(s, op).Done? && s' == Apply(s, op).s
    ensures Steps(s, op, s')
  {
  }

  /** A kill by pid queues a forgotten process for cleaning. */
  lemma KillQueuesForgotten()
    ensures var ops := [OpStart(0, 0, false), OpStart(1, 1, false), OpExit(1, 0)];
            exists s, s' :: && LeadsTo(ops, s) && Forgotten(s, 1)
                            && LeadsTo(ops + [OpKillProcess(0, 1)], s') && 1 in s'.procStack
  {
    hide LeadsTo, Steps, InvAt, KillProcess, ThreadExit, With, HasActive;
    PairRun();
    var r2, s2 := [OpStart(0, 0, false), OpStart(1, 1, false)], PAIR;
    PairExits();
    var s := ThreadExit(s2, 1, 0).s;
    StepIs(s2, OpExit(1, 0), s);
    Then(r2, s2, OpExit(1, 0), s);
    var r3 := r2 + [OpExit(1, 0)];
    assert r3 == [OpStart(0, 0, false), OpStart(1, 1, false), OpExit(1, 0)];
    LeadsToInv(r3, s);
    ForgottenKillIff(s, 0, 1);
    ForgottenStep(s, OpKillProcess(0, 1), 1);
    StepIs(s, OpKillProcess(0, 1), KillProcess(s, 0, 1).s);
    Then(r3, s, OpKillProcess(0, 1), KillProcess(s, 0, 1).s);
  }

  /** Two processes of one thread each. */
  const PAIR: State := With(With(EMPTY, 0, 0), 1, 1)

  lemma PairRun()
    ensures LeadsTo([OpStart(0, 0, false), OpStart(1, 1, false)], PAIR) && Inv(PAIR)
  {
    hide LeadsTo, InvAt;
    Start();
    ThenStart([], EMPTY, 0, 0);
    ThenStart([] + [OpStart(0, 0, false)], With(EMPTY, 0, 0), 1, 1);
    assert [] + [OpStart(0, 0, false)] + [OpStart(1, 1, false)] == [OpStart(0, 0, false), OpStart(1, 1, false)];
    LeadsToInv([OpStart(0, 0, false), OpStart(1, 1, false)], PAIR);
  }

  lemma PairExits()
    ensures Runs(PAIR, 1) && ThreadExit(PAIR, 1, 0).Done?
    ensures var s := ThreadExit(PAIR, 1, 0).s; Forgotten(s, 1) && Runs(s, 0) && !HasProcessJoiner(s.threads, 1)
  {
    hide InvAt, ThreadExit, LeadsTo;
    PairRun();
    LastExitOutcome(PAIR, 1, 0);
    ThreadExitKeepsInv(PAIR, Settled, 1, 0);
    var s := ThreadExit(PAIR, 1, 0).s;
    ExitThreads(PAIR, 1, 0, 0);
    ThreadFacts(s, 1);
  }

  /** A live process that somebody waits for cannot be killed. */
  lemma KillOfJoinedProcessFails()
    ensures var s := With(Duo(false), 2, 2);
            LeadsTo(DuoOps(false) + [OpStart(2, 2, false)], s) && Runs(s, 2) && KillProcess(s, 2, 1).Panic?
  {
    hide LeadsTo, InvAt, KillProcess;
    DuoRun(false);
    ThenStart(DuoOps(false), Duo(false), 2, 2);
    var s := With(Duo(false), 2, 2);
    LeadsToInv(DuoOps(false) + [OpStart(2, 2, false)], s);
    assert s.threads[0].join == WaitingForProcess(1);
    KillProcessIff(s, 2, 1);
  }

  function Joining(t: Tid): State { TRIPLE.(threads := TRIPLE.threads[t := Fresh(0).(join := Waiting(1))]) }

  lemma JoiningRun(t: Tid)
    requires t == 0 || t == 2
    ensures LeadsTo(TRIPLE_OPS + [OpJoin(t, 1)] + [OpStart(1, 3, false)], With(Joining(t), 1, 3))
    ensures Runs(With(Joining(t), 1, 3), 3)
  {
    hide LeadsTo;
    TripleRun();
    Then(TRIPLE_OPS, TRIPLE, OpJoin(t, 1), Joining(t));
    ThenStart(TRIPLE_OPS + [OpJoin(t, 1)], Joining(t), 1, 3);
  }

  /**
   The threads of a process are killed in the order of its list, newest first: a join between two of
   them makes the kill fail exactly when the joined thread is the newer one.
   */
  lemma KillOrderMatters()
    ensures LeadsTo(TRIPLE_OPS + [OpJoin(0, 1)] + [OpStart(1, 3, false)], With(Joining(0), 1, 3))
    ensures KillProcess(With(Joining(0), 1, 3), 3, 0).Panic?
    ensures LeadsTo(TRIPLE_OPS + [OpJoin(2, 1)] + [OpStart(1, 3, false)], With(Joining(2), 1, 3))
    ensures KillProcess(With(Joining(2), 1, 3), 3, 0).Done?
  {
    hide LeadsTo, InvAt, KillProcess;
    JoiningRun(0);
    JoiningRun(2);
    var s, t := With(Joining(0), 1, 3), With(Joining(2), 1, 3);
    LeadsToInv(TRIPLE_OPS + [OpJoin(0, 1)] + [OpStart(1, 3, false)], s);
    LeadsToInv(TRIPLE_OPS + [OpJoin(2, 1)] + [OpStart(1, 3, false)], t);
    KillProcessIff(s, 3, 0);
    KillProcessIff(t, 3, 0);
    var list := [2, 1, 0];
    assert s.procs[0].list == list && t.procs[0].list == list && list[..1] == [2];
    assert s.threads[0].join == Waiting(list[1]) && 0 !in list[..1];
    assert forall u :: u in t.threads && t.threads[u].join.Waiting? ==> u == 2 && t.threads[u].join.target == 1;
    assert forall i :: 0 < i < 3 ==> list[..i][0] == 2 && 2 in list[..i];
  }

  /** After the suicide of a detached thread that was alone. */
  const DOUBLED: State :=
    State(map[0 := Fresh(0).(detached := true, state := Terminated)], map[0 := Process(Dead, -1, 0, 1, [])],
          [0], [0, 0], None, {0}, {0}, [])

  const ALONE: State :=
    State(map[0 := Fresh(0).(detached := true)], map[0 := Process(Live, 0, 1, 0, [0])], [], [], None, {0}, {0}, [])

  lemma AloneDies()
    ensures Steps(ALONE, OpSuicide(0), DOUBLED)
  {
    var s := ALONE.(procs := map[0 := Process(Dead, -1, 1, 0, [0])], procStack := [0]);
    assert ProcessJoinersServed(ALONE.threads, 0) == ALONE.threads;
    assert Killed(ALONE, 0, -1) == s by {
      assert ALONE.procs[0 := Process(Dead, -1, 1, 0, [0])] == s.procs;
    }
    AloneExits(s);
  }

  lemma AloneExits(s: State)
    requires s == ALONE.(procs := map[0 := Process(Dead, -1, 1, 0, [0])], procStack := [0])
    ensures ThreadExit(s, 0, 0) == Done(DOUBLED, Nothing)
  {
    assert [0][1..] == [];
    var r := ThreadExit(s, 0, 0).s;
    assert r.threads == DOUBLED.threads;
    assert r.procs == DOUBLED.procs;
  }

  lemma DoubledReaped(s: State)
    requires s == DOUBLED.(threads := map[], procs := map[0 := Process(Dead, -1, 0, 0, [])], threadStack := [])
    ensures Steps(DOUBLED, OpReapThread, s)
  {
    assert [0][..0] == [];
    assert DOUBLED.threads - {0} == s.threads;
    assert ReapThread(DOUBLED).s.procs == s.procs;
  }

  lemma DoubledSteps(s1: State, s2: State, s3: State)
    requires s1 == DOUBLED.(threads := map[], procs := map[0 := Process(Dead, -1, 0, 0, [])], threadStack := [])
    requires s2 == s1.(procStack := [0], reaping := Some(0)) && s3 == s1.(procs := map[], procStack := [0])
    ensures Steps(DOUBLED, OpReapThread, s1) && Steps(s1, OpTakeProcess, s2) && Steps(s2, OpFreeProcess, s3)
    ensures Breaks(s3, OpTakeProcess, AssertFailed)
  {
    DoubledReaped(s1);
    hide ReapThread;
    assert [0, 0][..1] == [0];
    assert s2.procs - {0} == s3.procs;
  }

  /** Its process is queued twice, and the second time the reaper does not find it. */
  lemma SuicideQueuesTwice()
    ensures var ops := [OpStart(0, 0, true), OpSuicide(0)];
            && LeadsTo(ops, DOUBLED) && !QueuedOnce(DOUBLED)
            && exists s :: && LeadsTo(ops + [OpReapThread, OpTakeProcess, OpFreeProcess], s)
                           && Breaks(s, OpTakeProcess, AssertFailed)
  {
    hide LeadsTo, Steps, Breaks;
    Start();
    StepIs(EMPTY, OpStart(0, 0, true), ALONE) by { assert StartProcess(EMPTY, 0, 0, true).s == ALONE; }
    Then([], EMPTY, OpStart(0, 0, true), ALONE);
    AloneDies();
    var r1 := [] + [OpStart(0, 0, true)];
    Then(r1, ALONE, OpSuicide(0), DOUBLED);
    var r2 := r1 + [OpSuicide(0)];
    assert r2 == [OpStart(0, 0, true), OpSuicide(0)];
    var s1 := DOUBLED.(threads := map[], procs := map[0 := Process(Dead, -1, 0, 0, [])], threadStack := []);
    var s2, s3 := s1.(procStack := [0], reaping := Some(0)), s1.(procs := map[], procStack := [0]);
    DoubledSteps(s1, s2, s3);
    Then(r2, DOUBLED, OpReapThread, s1);
    Then(r2 + [OpReapThread], s1, OpTakeProcess, s2);
    Then(r2 + [OpReapThread] + [OpTakeProcess], s2, OpFreeProcess, s3);
    assert r2 + [OpReapThread] + [OpTakeProcess] + [OpFreeProcess] == r2 + [OpReapThread, OpTakeProcess, OpFreeProcess];
    assert DOUBLED.procStack[0] == DOUBLED.procStack[1];
  }

  /** A thread that kills itself leaves like one that exits with zero: a join is answered without any exit. */
  lemma SelfKillHandsOutZero()
    ensures exists s :: && LeadsTo(TRIPLE_OPS + [OpKill(2, 2)], s) && Enabled(s, OpJoin(0, 2))
                        && Apply(s, OpJoin(0, 2)).Done? && Apply(s, OpJoin(0, 2)).reply == Value(0)
  {
    hide LeadsTo, ThreadExit, InvAt, Buried;
    TripleRun();
    LeadsToInv(TRIPLE_OPS, TRIPLE);
    ThreadExitKeepsInv(TRIPLE, Settled, 2, 0);
    ExitRecords(TRIPLE, 2, 0);
    ExitThreads(TRIPLE, 2, 0, 0);
    var s := ThreadExit(TRIPLE, 2, 0).s;
    ThreadFacts(s, 0);
    ThreadFacts(s, 2);
    StepIs(TRIPLE, OpKill(2, 2), s);
    Then(TRIPLE_OPS, TRIPLE, OpKill(2, 2), s);
  }
}
