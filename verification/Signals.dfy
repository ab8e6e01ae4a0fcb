/** sigstop (proc.c), which makes any process SLEEPING whatever it is doing: not a step of
    the system, because it breaks the invariant that the others keep. */
module Signals {
  import opened Processes
  import EW = ExitWait

  // sigstop's write, under p->lock.
  function Stopped(s: State, j: nat): State
    requires j < |s.procs|
  {
    With(s, j, s.procs[j].(st := Sleeping))
  }

  // Child k has told its parent j, or is past doing so: no wakeup will come for it.
  predicate Told(r: Proc, j: nat) {
    r.parent == EW.ChildOf(j) && (r.st == Zombie || r.pc.ExitDie? || (r.pc.ExitWake? && j < r.pc.j))
  }

  // reparent has handed a child to init and its wakeup has not reached init yet.
  predicate InitToBeWoken(s: State) {
    s.wl.HeldBy? && s.wl.p < |s.procs| && s.procs[s.wl.p].pc.ReparentWake? && s.procs[s.wl.p].pc.j <= s.init
  }

  // A process in wait that has nothing to hear from a child.
  ghost predicate NoNews(s: State, j: nat) {
    forall k :: 0 <= k < |s.procs| && Told(s.procs[k], j) ==> s.procs[k].st == Zombie && j == s.init && InitToBeWoken(s)
  }

  /** The processes that sigstop may be used on: those asleep already, and those that have
      been woken and have not run since -- in wait, only without news from a child. */
  ghost predicate StopSafe(s: State, j: nat)
    requires j < |s.procs|
  {
    var r := s.procs[j];
    || r.st == Sleeping
    || (r.st == Runnable && r.pc.Off? && r.pc.r.AfterSleep? && (r.pc.r.next == Rewait ==> NoNews(s, j)))
  }

  /** sigstop keeps the invariant exactly on those: never on one that is RUNNING, ZOMBIE,
      UNUSED, USED, new or preempted. */
  lemma StopKeepsIff(s: State, j: nat)
    requires Inv(s) && Free?(s, j)
    ensures Inv(Stopped(s, j)) <==> StopSafe(s, j)
  {
    var r, s' := s.procs[j], Stopped(s, j);
    assert Local(r, j);
    if r.st == Sleeping {
      assert s' == s;
    } else if r.st == Runnable && r.pc.Off? && r.pc.r.AfterSleep? {
      WokenStopped(s, j);
    } else {
      assert !Local(s'.procs[j], j);
    }
  }

  lemma WokenStopped(s: State, j: nat)
    requires Inv(s) && Free?(s, j) && s.procs[j].st == Runnable && s.procs[j].pc.Off? && s.procs[j].pc.r.AfterSleep?
    ensures Inv(Stopped(s, j)) <==> StopSafe(s, j)
  {
    var s', a := Stopped(s, j), AbsOf(s);
    assert Local(s.procs[j], j) && Local(s'.procs[j], j);
    OneMoves(s, s', j);
    if s.procs[j].pc.r.next == Rewait {
      assert Views(s'.procs) == EW.Become(a, j, EW.Sleepy(false)).ps;
      assert AbsOf(s') == EW.Become(a, j, EW.Sleepy(false));
      EW.SleepAgainIff(a, j);
      NewsIs(s, j);
    } else {
      assert Views(s'.procs) == Views(s.procs);
      assert AbsOf(s') == a;
    }
  }

  lemma NewsIs(s: State, j: nat)
    requires Inv(s)
    ensures NoNews(s, j) <==> EW.NoNews(AbsOf(s), j)
  {
    var a := AbsOf(s);
    if s.wl.HeldBy? && s.wl.p < |s.procs| {
      assert Local(s.procs[s.wl.p], s.wl.p);
      WakingIs(s.procs[s.wl.p], s.wl.p);
    }
    forall k | 0 <= k < |s.procs|
      ensures Told(s.procs[k], j) <==> a.ps[k].parent == EW.ChildOf(j) && (a.ps[k].life.Dead? || EW.PastParent(a.ps[k]))
      ensures s.procs[k].st == Zombie ==> !EW.PastParent(a.ps[k])
    {
      assert Local(s.procs[k], k);
      ToldIs(s.procs[k], k, j);
    }
  }

  lemma WakingIs(r: Proc, i: nat)
    requires Local(r, i)
    ensures RoleOf(r).WakingInit? <==> r.pc.ReparentWake?
    ensures r.pc.ReparentWake? ==> RoleOf(r).j == r.pc.j
  {
  }

  lemma ToldIs(r: Proc, k: nat, j: nat)
    requires Local(r, k)
    ensures Told(r, j) <==> r.parent == EW.ChildOf(j) && (LifeOf(r.st).Dead? || EW.PastParent(ViewOf(r)))
    ensures r.st == Zombie ==> !EW.PastParent(ViewOf(r))
  {
  }

  /** Stopping a process that runs: its lock is free, it is not RUNNING, and a CPU has it as
      its current process -- what HandOff excludes. */
  lemma StopBreaksHandOff(s: State, p: nat)
    requires Reachable(s) && Free?(s, p) && s.procs[p].st == Running
    ensures var s' := Stopped(s, p);
            s'.procs[p].lock == Free && s'.procs[p].st != Running && exists c :: 0 <= c < |s'.cpus| && HasCurrent(s'.cpus[c], p)
  {
    HandOff(s, p);
  }

  /** Stopping a process that its child's exit woke in wait: it is asleep in wait again,
      with a ZOMBIE child and wait_lock free -- what NoMissedExit excludes. */
  lemma StopMissesExit(s: State, p: nat, k: nat)
    requires Reachable(s) && Free?(s, p) && k < |s.procs| && s.procs[p].st == Runnable && s.procs[p].pc == Off(AfterSleep(Rewait))
    requires s.wl.Open? && s.procs[k].parent == EW.ChildOf(p) && s.procs[k].st == Zombie
    ensures var s' := Stopped(s, p);
            && s'.wl.Open? && s'.procs[k].parent == EW.ChildOf(p) && s'.procs[k].st == Zombie
            && s'.procs[p].st == Sleeping && s'.procs[p].chan == WaitOn(p)
  {
    ReachableAt(s, p);
    ParentsAlive(s, k);
  }

  // init at boot, on its way to the only CPU, there, and in user space.
  function Booting(st: PState, lock: Holder, pc: Pc, cpu: Cpu): State {
    State([Proc(st, NoChan, EW.NoParent, false, 1, lock, pc, 0)], [cpu], EW.Open, 0, 2, [])
  }

  lemma BootLooks(s: State, s': State)
    requires s == Booting(Runnable, Free, Off(First), Idle) && s' == Booting(Runnable, ByCpu(0), Off(First), Looking(0))
    ensures Initial(s) && Enabled(s, Look(0, 0)) && Step(s, Look(0, 0)) == s'
  {
  }

  lemma BootDispatches(s: State, s': State)
    requires s == Booting(Runnable, ByCpu(0), Off(First), Looking(0)) && s' == Booting(Running, ByThread, On(First), Current(0))
    ensures Enabled(s, Dispatch(0)) && Step(s, Dispatch(0)) == s'
  {
  }

  lemma BootResumes(s: State, s': State)
    requires s == Booting(Running, ByThread, On(First), Current(0)) && s' == Booting(Running, Free, User, Current(0))
    ensures Enabled(s, Resumed(0)) && Step(s, Resumed(0)) == s'
  {
  }

  /** A run that gets there: init is dispatched and reaches user space. */
  lemma RunningReached()
    ensures exists s :: Reachable(s) && Free?(s, 0) && s.procs[0].st == Running
  {
    var s0, s1 := Booting(Runnable, Free, Off(First), Idle), Booting(Runnable, ByCpu(0), Off(First), Looking(0));
    var s2, s3 := Booting(Running, ByThread, On(First), Current(0)), Booting(Running, Free, User, Current(0));
    BootLooks(s0, s1);
    BootDispatches(s1, s2);
    BootResumes(s2, s3);
    RunOne(s2, Resumed(0), [], s3);
    RunOne(s1, Dispatch(0), [Resumed(0)], s3);
    RunOne(s0, Look(0, 0), [Dispatch(0), Resumed(0)], s3);
    assert Reachable(s3);
  }

  lemma RunOne(s: State, a: Action, acts: seq<Action>, s': State)
    requires Enabled(s, a) && Run(Step(s, a), acts, s')
    ensures Run(s, [a] + acts, s')
  {
    assert ([a] + acts)[1..] == acts;
  }
}
