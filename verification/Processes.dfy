/** fork, exit, wait, sleep, wakeup, kill, sigcont, yield and the scheduler (proc.c) as a
    state machine.  Every process's kernel thread and every CPU's scheduler take steps in any
    order; a stretch of code that holds a single p->lock throughout is one step, and so is
    each acquire and release otherwise. */
module Processes {
  import EW = ExitWait

  datatype PState = Unused | Used | Runnable | Running | Sleeping | Zombie

  // A sleep channel: none, the address of a process (slept on in wait), or another.
  datatype Chan = NoChan | WaitOn(p: nat) | Other(n: nat)

  // Where a kernel thread goes on when it gets a CPU back.
  datatype Resume = First | Never | AfterYield(next: Pc) | AfterSleep(next: Pc)

  // Where a kernel thread is.
  datatype Pc =
    | User                             // anywhere without these locks
    | ForkLink(np: nat)                // fork: before np->parent = p
    | ForkReady(np: nat)               // fork: before np->state = RUNNABLE
    | Reparent(k: nat)                 // exit: reparent's loop is at k
    | ReparentWake(k: nat, j: nat)     // exit: wakeup(initproc) is at j
    | ExitWake(j: nat)                 // exit: wakeup(p->parent) is at j
    | ExitDie                          // exit: before acquire(&p->lock)
    | ExitRelease                      // exit: before release(&wait_lock)
    | Scan(k: nat, have: bool)         // wait: the table scan is at k
    | ScanEnd(have: bool)              // wait: after the scan
    | WaitSleep                        // sleep in wait: before acquire(&p->lock)
    | WaitUnlock                       // sleep in wait: before release(&wait_lock)
    | Rewait                           // sleep in wait: before acquire(&wait_lock)
    | Doze(chan: Chan, next: Pc)       // sleep: before p->state = SLEEPING
    | Switch(r: Resume)                // in sched, before swtch
    | Off(r: Resume)                   // not on a CPU
    | On(r: Resume)                    // just switched to, p->lock still held

  datatype Holder = Free | ByThread | ByCpu(c: nat)

  datatype Proc = Proc(st: PState, chan: Chan, parent: EW.Parent, killed: bool, pid: nat, lock: Holder, pc: Pc, on: nat)

  // A CPU's scheduler loop; c->proc is p in Current(p) and Back(p), and 0 otherwise.
  datatype Cpu = Idle | Looking(p: nat) | Current(p: nat) | Back(p: nat)

  datatype State = State(procs: seq<Proc>, cpus: seq<Cpu>, wl: EW.WaitLock, init: nat, nextpid: nat, reaped: seq<nat>)

  datatype Action =
    | ForkStart(p: nat, np: nat, ok: bool) | ForkSetParent(p: nat) | ForkSetReady(p: nat)
    | ExitStart(p: nat) | ExitStep(p: nat) | ExitZombie(p: nat) | ExitUnlock(p: nat)
    | WaitStart(p: nat) | WaitScan(p: nat, copied: bool) | WaitDecide(p: nat) | WaitLockSelf(p: nat) | WaitRelease(p: nat)
    | SleepOther(p: nat, n: nat) | SleepSet(p: nat) | Yield(p: nat) | Resumed(p: nat)
    | Wakeup(j: nat, n: nat) | Kill(j: nat) | Continue(j: nat)
    | Look(c: nat, p: nat) | LookAway(c: nat) | Dispatch(c: nat) | SwitchOut(p: nat) | Finish(c: nat)

  // ---- Steps --------------------------------------------------------------------------------

  function With(s: State, p: nat, r: Proc): State
    requires p < |s.procs|
  {
    s.(procs := s.procs[p := r])
  }

  function Goto(s: State, p: nat, pc: Pc): State
    requires p < |s.procs|
  {
    With(s, p, s.procs[p].(pc := pc))
  }

  // The body of wakeup's loop at j.
  function Woken(s: State, j: nat, chan: Chan): State
    requires j < |s.procs|
  {
    if s.procs[j].st == Sleeping && s.procs[j].chan == chan then With(s, j, s.procs[j].(st := Runnable)) else s
  }

  function ParentChan(r: Proc): Chan {
    match r.parent
    case NoParent => NoChan
    case ChildOf(p) => WaitOn(p)
  }

  // No spinlock is held: an interrupt may make the thread yield.
  predicate Preemptible(pc: Pc) {
    pc.User? || pc.ForkLink? || pc.ForkReady? || pc.Rewait?
  }

  predicate Free?(s: State, j: nat) {
    j < |s.procs| && s.procs[j].lock == Free
  }

  predicate Enabled(s: State, a: Action) {
    var n := |s.procs|;
    match a
    case ForkStart(p, np, _) => p < n && s.procs[p].pc.User? && Free?(s, np) && s.procs[np].st == Unused
    case ForkSetParent(p) => p < n && s.procs[p].pc.ForkLink? && s.procs[p].pc.np < n && s.wl.Open?
    case ForkSetReady(p) => p < n && s.procs[p].pc.ForkReady? && Free?(s, s.procs[p].pc.np)
    case ExitStart(p) => p < n && s.procs[p].pc.User? && p != s.init && s.wl.Open?
    case ExitStep(p) => p < n && match s.procs[p].pc {
        case Reparent(k) => true
        case ReparentWake(k, j) => j < n && j != p ==> Free?(s, j)
        case ExitWake(j) => j < n && j != p ==> Free?(s, j)
        case _ => false
      }
    case ExitZombie(p) => p < n && s.procs[p].pc.ExitDie? && Free?(s, p)
    case ExitUnlock(p) => p < n && s.procs[p].pc.ExitRelease?
    case WaitStart(p) => p < n && (s.procs[p].pc.User? || s.procs[p].pc.Rewait?) && s.wl.Open?
    case WaitScan(p, _) => p < n && s.procs[p].pc.Scan? &&
      (s.procs[p].pc.k < n && s.procs[s.procs[p].pc.k].parent == EW.ChildOf(p) ==> Free?(s, s.procs[p].pc.k))
    case WaitDecide(p) => p < n && s.procs[p].pc.ScanEnd? && (s.procs[p].pc.have ==> Free?(s, p))
    case WaitLockSelf(p) => p < n && s.procs[p].pc.WaitSleep? && Free?(s, p)
    case WaitRelease(p) => p < n && s.procs[p].pc.WaitUnlock?
    case SleepOther(p, _) => p < n && s.procs[p].pc.User? && Free?(s, p)
    case SleepSet(p) => p < n && s.procs[p].pc.Doze?
    case Yield(p) => p < n && Preemptible(s.procs[p].pc) && Free?(s, p)
    case Resumed(p) => p < n && s.procs[p].pc.On?
    case Wakeup(j, _) => Free?(s, j)
    case Kill(j) => Free?(s, j)
    case Continue(j) => Free?(s, j)
    case Look(c, p) => c < |s.cpus| && s.cpus[c].Idle? && Free?(s, p)
    case LookAway(c) => c < |s.cpus| && s.cpus[c].Looking? && s.cpus[c].p < n && s.procs[s.cpus[c].p].st != Runnable
    case Dispatch(c) => c < |s.cpus| && s.cpus[c].Looking? && s.cpus[c].p < n && s.procs[s.cpus[c].p].st == Runnable
                        && s.procs[s.cpus[c].p].pc.Off?
    case SwitchOut(p) => p < n && s.procs[p].pc.Switch? && s.procs[p].on < |s.cpus|
    case Finish(c) => c < |s.cpus| && s.cpus[c].Back? && s.cpus[c].p < n
  }

  function Step(s: State, a: Action): State
    requires Enabled(s, a)
  {
    if Sleeps(a) then SleepStep(s, a)
    else if Schedules(a) then CpuStep(s, a)
    else if Forks(a) then ForkStep(s, a)
    else if Exits(a) then ExitsStep(s, a)
    else WaitStep(s, a)
  }

  predicate Exits(a: Action) {
    a.ExitStart? || a.ExitStep? || a.ExitZombie? || a.ExitUnlock?
  }

  function ForkStep(s: State, a: Action): State
    requires Enabled(s, a) && Forks(a)
  {
    match a
    case ForkStart(p, np, ok) =>
      // allocproc and uvmcopy; on failure freeproc puts the slot back.
      if ok then
        Goto(With(s, np, s.procs[np].(st := Used, pid := s.nextpid, pc := Off(First))), p, ForkLink(np)).(nextpid := s.nextpid + 1)
      else s.(nextpid := s.nextpid + 1)
    case ForkSetParent(p) =>
      var np := s.procs[p].pc.np;
      Goto(With(s, np, s.procs[np].(parent := EW.ChildOf(p))), p, ForkReady(np))
    case ForkSetReady(p) =>
      var np := s.procs[p].pc.np;
      Goto(With(s, np, s.procs[np].(st := Runnable)), p, User)
  }

  function ExitsStep(s: State, a: Action): State
    requires Enabled(s, a) && Exits(a)
  {
    match a
    case ExitStart(p) => Goto(s, p, Reparent(0)).(wl := EW.HeldBy(p))
    case ExitStep(p) => (
      match s.procs[p].pc
      case Reparent(k) =>
        if k >= |s.procs| then Goto(s, p, ExitWake(0))
        else if s.procs[k].parent == EW.ChildOf(p) then
          Goto(With(s, k, s.procs[k].(parent := EW.ChildOf(s.init))), p, ReparentWake(k, 0))
        else Goto(s, p, Reparent(k + 1))
      case ReparentWake(k, j) =>
        if j >= |s.procs| then Goto(s, p, Reparent(k + 1))
        else Goto(if j == p then s else Woken(s, j, WaitOn(s.init)), p, ReparentWake(k, j + 1))
      case ExitWake(j) =>
        if j >= |s.procs| then Goto(s, p, ExitDie)
        else Goto(if j == p then s else Woken(s, j, ParentChan(s.procs[p])), p, ExitWake(j + 1)))
    case ExitZombie(p) => With(s, p, s.procs[p].(lock := ByThread, st := Zombie, pc := ExitRelease))
    case ExitUnlock(p) => Goto(s, p, Switch(Never)).(wl := EW.Open)
  }

  function WaitStep(s: State, a: Action): State
    requires Enabled(s, a) && (a.WaitStart? || a.WaitScan? || a.WaitDecide? || a.WaitLockSelf? || a.WaitRelease?)
  {
    match a
    case WaitStart(p) => Goto(s, p, Scan(0, false)).(wl := EW.HeldBy(p))
    case WaitScan(p, copied) =>
      var k, have := s.procs[p].pc.k, s.procs[p].pc.have;
      if k >= |s.procs| then Goto(s, p, ScanEnd(have))
      else if s.procs[k].parent != EW.ChildOf(p) then Goto(s, p, Scan(k + 1, have))
      else if s.procs[k].st != Zombie then Goto(s, p, Scan(k + 1, true))
      else if !copied then Goto(s, p, User).(wl := EW.Open)
      else
        // freeproc
        Goto(With(s, k, s.procs[k].(st := Unused, chan := NoChan, parent := EW.NoParent, killed := false, pid := 0)), p, User)
          .(wl := EW.Open, reaped := s.reaped + [s.procs[k].pid])
    case WaitDecide(p) =>
      if !s.procs[p].pc.have || s.procs[p].killed then Goto(s, p, User).(wl := EW.Open) else Goto(s, p, WaitSleep)
    case WaitLockSelf(p) => With(s, p, s.procs[p].(lock := ByThread, pc := WaitUnlock))
    case WaitRelease(p) => Goto(s, p, Doze(WaitOn(p), Rewait)).(wl := EW.Open)
  }

  function SleepStep(s: State, a: Action): State
    requires Enabled(s, a) && Sleeps(a)
  {
    With(s, Sleeper(a), Slept(s.procs[Sleeper(a)], a))
  }

  // The one process that sleep, wakeup, yield, kill and sigcont change.
  function Slept(r: Proc, a: Action): Proc
    requires Sleeps(a) && (a.SleepSet? ==> r.pc.Doze?) && (a.Resumed? ==> r.pc.On?)
  {
    match a
    case SleepOther(_, n) => r.(lock := ByThread, pc := Doze(Other(n), User))
    case SleepSet(_) => r.(chan := r.pc.chan, st := Sleeping, pc := Switch(AfterSleep(r.pc.next)))
    case Yield(_) => r.(lock := ByThread, st := Runnable, pc := Switch(AfterYield(r.pc)))
    case Resumed(_) => (
      match r.pc.r
      case AfterSleep(next) => r.(chan := NoChan, lock := Free, pc := next)
      case AfterYield(next) => r.(lock := Free, pc := next)
      case _ => r.(lock := Free, pc := User))
    case Wakeup(_, n) => if r.st == Sleeping && r.chan == Other(n) then r.(st := Runnable) else r
    case Kill(_) => r.(killed := true, st := if r.st == Sleeping then Runnable else r.st)
    case Continue(_) => if r.st == Sleeping then r.(st := Runnable) else r
  }

  function CpuStep(s: State, a: Action): State
    requires Enabled(s, a) && Schedules(a)
  {
    match a
    case Look(c, p) => With(s, p, s.procs[p].(lock := ByCpu(c))).(cpus := s.cpus[c := Looking(p)])
    case LookAway(c) =>
      var p := s.cpus[c].p;
      With(s, p, s.procs[p].(lock := Free)).(cpus := s.cpus[c := Idle])
    case Dispatch(c) =>
      var p := s.cpus[c].p;
      With(s, p, s.procs[p].(lock := ByThread, st := Running, pc := On(s.procs[p].pc.r), on := c)).(cpus := s.cpus[c := Current(p)])
    case SwitchOut(p) =>
      var c := s.procs[p].on;
      With(s, p, s.procs[p].(lock := ByCpu(c), pc := Off(s.procs[p].pc.r))).(cpus := s.cpus[c := Back(p)])
    case Finish(c) =>
      var p := s.cpus[c].p;
      With(s, p, s.procs[p].(lock := Free)).(cpus := s.cpus[c := Idle])
  }

  // ---- The protocol it carries out ------------------------------------------------------------------

  function LifeOf(st: PState): EW.Life {
    match st
    case Unused => EW.Empty
    case Used => EW.Embryo
    case Zombie => EW.Dead
    case _ => EW.Live
  }

  function RoleAt(pc: Pc): EW.Role {
    match pc
    case ForkLink(np) => EW.Linking(np)
    case ForkReady(np) => EW.Readying(np)
    case Reparent(k) => EW.Giving(k)
    case ReparentWake(k, j) => EW.WakingInit(k, j)
    case ExitWake(j) => EW.WakingParent(j)
    case ExitDie => EW.Dying
    case ExitRelease => EW.Leaving
    case Scan(k, have) => EW.Scanning(k, have)
    case ScanEnd(have) => EW.Scanned(have)
    case WaitSleep => EW.Sleepy(true)
    case WaitUnlock => EW.Sleepy(true)
    case Doze(_, next) => if next == Rewait then EW.Sleepy(false) else EW.Quiet
    case _ => EW.Quiet
  }

  // A thread that has yielded keeps its role; one that has gone to sleep in wait is
  // sleepy until someone makes it RUNNABLE.
  function ResumeRole(r: Resume, st: PState): EW.Role {
    match r
    case AfterYield(next) => RoleAt(next)
    case AfterSleep(next) => if next == Rewait && st == Sleeping then EW.Sleepy(false) else EW.Quiet
    case _ => EW.Quiet
  }

  function RoleOf(r: Proc): EW.Role {
    match r.pc
    case Switch(res) => ResumeRole(res, r.st)
    case Off(res) => ResumeRole(res, r.st)
    case On(res) => ResumeRole(res, r.st)
    case _ => RoleAt(r.pc)
  }

  function ViewOf(r: Proc): EW.View {
    EW.View(LifeOf(r.st), r.parent, r.pid, RoleOf(r))
  }

  function Views(procs: seq<Proc>): (v: seq<EW.View>)
    ensures |v| == |procs| && forall i :: 0 <= i < |procs| ==> v[i] == ViewOf(procs[i])
  {
    seq(|procs|, i requires 0 <= i < |procs| => ViewOf(procs[i]))
  }

  function AbsOf(s: State): EW.Abs {
    EW.Abs(Views(s.procs), s.wl, s.init, s.nextpid, s.reaped)
  }

  // The protocol step that a step of the system is.
  function ProtocolStep(s: State, a: Action): EW.Action
    requires Enabled(s, a)
  {
    match a
    case ForkStart(p, np, ok) => EW.Fork(p, np, ok)
    case ForkSetParent(p) => EW.Link(p)
    case ForkSetReady(p) => EW.Ready(p)
    case ExitStart(p) => EW.ExitStart(p)
    case ExitStep(p) =>
      if s.procs[p].pc.Reparent? then EW.Give(p) else if s.procs[p].pc.ReparentWake? then EW.WakeInit(p) else EW.WakeParent(p)
    case ExitZombie(p) => EW.Die(p)
    case ExitUnlock(p) => EW.Leave(p)
    case WaitStart(p) => EW.WaitStart(p)
    case WaitScan(p, copied) => EW.Scan(p, copied)
    case WaitDecide(p) => if !s.procs[p].pc.have || s.procs[p].killed then EW.GiveUp(p) else EW.GoSleep(p)
    case WaitRelease(p) => EW.Release(p)
    case Kill(j) => if RoleOf(s.procs[j]) == EW.Sleepy(false) then EW.Wake(j) else EW.Nothing
    case Continue(j) => if RoleOf(s.procs[j]) == EW.Sleepy(false) then EW.Wake(j) else EW.Nothing
    case _ => EW.Nothing
  }

  // ---- The invariant ----------------------------------------------------------------------------------

  predicate HoldsOwn(pc: Pc) {
    pc.ExitRelease? || pc.WaitUnlock? || pc.Doze? || pc.Switch? || pc.On?
  }

  predicate SleepArgs(chan: Chan, next: Pc, i: nat) {
    (chan == WaitOn(i) && next == Rewait) || (chan.Other? && next == User)
  }

  predicate ResumeOk(r: Resume) {
    match r
    case AfterYield(next) => Preemptible(next)
    case AfterSleep(next) => next == Rewait || next == User
    case _ => true
  }

  // State, program point and own lock of process i agree.
  predicate Local(r: Proc, i: nat) {
    && (HoldsOwn(r.pc) <==> r.lock == ByThread)
    && match r.pc
       case Off(res) =>
         && ResumeOk(res)
         && (match res
             case First => r.st == Used || r.st == Runnable
             case Never => r.st == Unused || r.st == Zombie
             case AfterYield(_) => r.st == Runnable
             case AfterSleep(next) => (r.st == Runnable || r.st == Sleeping) && SleepArgs(r.chan, next, i))
       case Switch(res) =>
         && ResumeOk(res)
         && (match res
             case First => false
             case Never => r.st == Zombie
             case AfterYield(_) => r.st == Runnable
             case AfterSleep(next) => r.st == Sleeping && SleepArgs(r.chan, next, i))
       case On(res) => r.st == Running && ResumeOk(res) && res != Never
       case ExitRelease => r.st == Zombie
       case Doze(chan, next) => r.st == Running && SleepArgs(chan, next, i)
       case _ => r.st == Running
  }

  ghost predicate Locals(s: State) {
    forall i {:trigger Local(s.procs[i], i)} :: 0 <= i < |s.procs| ==> Local(s.procs[i], i)
  }

  ghost predicate CpuOk(s: State, c: nat)
    requires c < |s.cpus|
  {
    match s.cpus[c]
    case Idle => true
    case Looking(p) => p < |s.procs| && s.procs[p].lock == ByCpu(c)
    case Current(p) => p < |s.procs| && !s.procs[p].pc.Off? && s.procs[p].on == c
    case Back(p) => p < |s.procs| && s.procs[p].lock == ByCpu(c) && s.procs[p].pc.Off?
  }

  ghost predicate OnCpu(s: State, r: Proc, i: nat) {
    && (r.lock.ByCpu? ==> r.lock.c < |s.cpus| && (s.cpus[r.lock.c] == Looking(i) || s.cpus[r.lock.c] == Back(i)))
    && (!r.pc.Off? ==> r.on < |s.cpus| && s.cpus[r.on] == Current(i))
  }

  // Each CPU and each process on a CPU know of each other.
  ghost predicate Cpus(s: State) {
    && (forall c {:trigger CpuOk(s, c)} :: 0 <= c < |s.cpus| ==> CpuOk(s, c))
    && (forall i {:trigger OnCpu(s, s.procs[i], i)} :: 0 <= i < |s.procs| ==> OnCpu(s, s.procs[i], i))
  }

  ghost predicate Inv(s: State) {
    Locals(s) && Cpus(s) && EW.Inv(AbsOf(s))
  }

  // ---- Every step keeps it -----------------------------------------------------------------------------

  lemma ViewsWith(procs: seq<Proc>, p: nat, r: Proc)
    requires p < |procs|
    ensures Views(procs[p := r]) == Views(procs)[p := ViewOf(r)]
  {
  }

  // One process changes, and may only give up or take its own lock.
  predicate Steady(r: Proc, r': Proc) {
    && r'.on == r.on && (r'.pc.Off? <==> r.pc.Off?)
    && (r.lock.ByCpu? || r'.lock.ByCpu? ==> r'.lock == r.lock)
  }

  lemma CpusSteady(s: State, s': State)
    requires Cpus(s) && s'.cpus == s.cpus && |s'.procs| == |s.procs|
    requires forall i :: 0 <= i < |s.procs| ==> Steady(s.procs[i], s'.procs[i])
    ensures Cpus(s')
  {
    forall c | 0 <= c < |s'.cpus| ensures CpuOk(s', c) {
      assert CpuOk(s, c);
    }
    forall i | 0 <= i < |s'.procs| ensures OnCpu(s', s'.procs[i], i) {
      assert OnCpu(s, s.procs[i], i);
    }
  }

  ghost predicate Simulates(s: State, a: Action, s': State)
    requires Enabled(s, a)
  {
    EW.Enabled(AbsOf(s), ProtocolStep(s, a)) && AbsOf(s') == EW.Step(AbsOf(s), ProtocolStep(s, a))
  }

  // What a step must leave behind.
  ghost predicate Kept(s: State, a: Action, s': State)
    requires Enabled(s, a)
  {
    Locals(s') && Cpus(s') && Simulates(s, a, s')
  }

  lemma OneProc(s: State, s': State, p: nat)
    requires Locals(s) && p < |s.procs| == |s'.procs| && s'.procs == s.procs[p := s'.procs[p]] && Local(s'.procs[p], p)
    ensures Locals(s') && Views(s'.procs) == Views(s.procs)[p := ViewOf(s'.procs[p])]
  {
    ViewsWith(s.procs, p, s'.procs[p]);
  }

  lemma OneSteady(s: State, s': State, p: nat)
    requires Cpus(s) && p < |s.procs| == |s'.procs| && s'.procs == s.procs[p := s'.procs[p]] && s'.cpus == s.cpus
    requires Steady(s.procs[p], s'.procs[p])
    ensures Cpus(s')
  {
    CpusSteady(s, s');
  }

  // One process moves on; everything but it, wait_lock, nextpid and reaped is as before.
  lemma OneMoves(s: State, s': State, p: nat)
    requires Locals(s) && Cpus(s) && p < |s.procs| == |s'.procs| && s'.procs == s.procs[p := s'.procs[p]] && s'.cpus == s.cpus
    requires Local(s'.procs[p], p) && Steady(s.procs[p], s'.procs[p])
    ensures Locals(s') && Cpus(s') && Views(s'.procs) == Views(s.procs)[p := ViewOf(s'.procs[p])]
  {
    OneProc(s, s', p);
    OneSteady(s, s', p);
  }

  // Two do.
  lemma TwoMove(s: State, s': State, k: nat, p: nat)
    requires Locals(s) && Cpus(s) && k < |s.procs| == |s'.procs| && p < |s.procs| && k != p && s'.cpus == s.cpus
    requires s'.procs == s.procs[k := s'.procs[k]][p := s'.procs[p]]
    requires Local(s'.procs[k], k) && Steady(s.procs[k], s'.procs[k]) && Local(s'.procs[p], p) && Steady(s.procs[p], s'.procs[p])
    ensures Locals(s') && Cpus(s') && Views(s'.procs) == Views(s.procs)[k := ViewOf(s'.procs[k])][p := ViewOf(s'.procs[p])]
  {
    var s1 := With(s, k, s'.procs[k]);
    OneMoves(s, s1, k);
    OneMoves(s1, s', p);
  }

  // ---- sleep, wakeup, yield, kill ----

  predicate Sleeps(a: Action) {
    a.SleepOther? || a.SleepSet? || a.Yield? || a.Resumed? || a.Wakeup? || a.Kill? || a.Continue?
  }

  function Sleeper(a: Action): nat
    requires Sleeps(a)
  {
    match a
    case SleepOther(p, _) => p
    case SleepSet(p) => p
    case Yield(p) => p
    case Resumed(p) => p
    case Wakeup(j, _) => j
    case Kill(j) => j
    case Continue(j) => j
  }

  // What the step needs of the process.
  predicate SleepReady(r: Proc, a: Action) {
    match a
    case SleepOther(_, _) => r.pc.User? && r.lock == Free
    case SleepSet(_) => r.pc.Doze?
    case Yield(_) => Preemptible(r.pc) && r.lock == Free
    case Resumed(_) => r.pc.On?
    case _ => r.lock == Free
  }

  predicate Awakes(a: Action) {
    a.Kill? || a.Continue?
  }

  lemma SleepRecord(r: Proc, a: Action, p: nat)
    requires Sleeps(a) && SleepReady(r, a) && Local(r, p)
    ensures var r' := Slept(r, a);
            && Local(r', p) && Steady(r, r')
            && ViewOf(r') == if Awakes(a) && RoleOf(r) == EW.Sleepy(false) then ViewOf(r).(role := EW.Quiet) else ViewOf(r)
  {
  }

  lemma SleepKeeps(s: State, a: Action)
    requires Locals(s) && Cpus(s) && Enabled(s, a) && Sleeps(a)
    ensures Kept(s, a, SleepStep(s, a))
  {
    var p, s' := Sleeper(a), SleepStep(s, a);
    assert SleepReady(s.procs[p], a) && Local(s.procs[p], p);
    SleepRecord(s.procs[p], a, p);
    OneProc(s, s', p);
    OneSteady(s, s', p);
    assert Views(s'.procs) == EW.Step(AbsOf(s), ProtocolStep(s, a)).ps;
  }

  // ---- the CPUs ----

  predicate Schedules(a: Action) {
    a.Look? || a.LookAway? || a.Dispatch? || a.SwitchOut? || a.Finish?
  }

  function Scheduled(s: State, a: Action): nat
    requires Enabled(s, a) && Schedules(a)
  {
    match a
    case Look(_, p) => p
    case LookAway(c) => s.cpus[c].p
    case Dispatch(c) => s.cpus[c].p
    case SwitchOut(p) => p
    case Finish(c) => s.cpus[c].p
  }

  function CpuUsed(s: State, a: Action): nat
    requires Enabled(s, a) && Schedules(a)
  {
    match a
    case Look(c, _) => c
    case LookAway(c) => c
    case Dispatch(c) => c
    case SwitchOut(p) => s.procs[p].on
    case Finish(c) => c
  }

  lemma CpuRecord(s: State, a: Action)
    requires Enabled(s, a) && Schedules(a) && Local(s.procs[Scheduled(s, a)], Scheduled(s, a))
    requires CpuOk(s, CpuUsed(s, a)) && OnCpu(s, s.procs[Scheduled(s, a)], Scheduled(s, a))
    ensures var p, c := Scheduled(s, a), CpuUsed(s, a); var s' := CpuStep(s, a);
            && |s'.procs| == |s.procs| && s'.procs == s.procs[p := s'.procs[p]] && s'.(procs := s.procs, cpus := s.cpus) == s
            && |s'.cpus| == |s.cpus| && s'.cpus == s.cpus[c := s'.cpus[c]]
            && Local(s'.procs[p], p) && ViewOf(s'.procs[p]) == ViewOf(s.procs[p])
            && CpuOk(s', c) && OnCpu(s', s'.procs[p], p)
            && (s.cpus[c] == Idle || s.cpus[c].p == p) && (s.procs[p].lock.ByCpu? ==> s.procs[p].lock.c == c)
            && SameSeat(s.procs[p], s'.procs[p], c)
  {
  }

  // For a CPU other than c the process is as before, or is not there.
  predicate SameSeat(r: Proc, r': Proc, c: nat) {
    r.pc.Off? || r.on == c || (r'.on == r.on && !r'.pc.Off?)
  }

  lemma CpusOne(s: State, s': State, p: nat, c: nat)
    requires Cpus(s) && p < |s.procs| == |s'.procs| && s'.procs == s.procs[p := s'.procs[p]]
    requires c < |s.cpus| == |s'.cpus| && s'.cpus == s.cpus[c := s'.cpus[c]]
    requires CpuOk(s', c) && OnCpu(s', s'.procs[p], p) && (s.cpus[c] == Idle || s.cpus[c].p == p)
    requires (s.procs[p].lock.ByCpu? ==> s.procs[p].lock.c == c) && SameSeat(s.procs[p], s'.procs[p], c)
    ensures Cpus(s')
  {
    forall d | 0 <= d < |s'.cpus| ensures CpuOk(s', d) {
      assert CpuOk(s, d);
    }
    forall i | 0 <= i < |s'.procs| ensures OnCpu(s', s'.procs[i], i) {
      assert OnCpu(s, s.procs[i], i);
    }
  }

  lemma CpuKeeps(s: State, a: Action)
    requires Locals(s) && Cpus(s) && Enabled(s, a) && Schedules(a)
    ensures Kept(s, a, CpuStep(s, a))
  {
    var p, c, s' := Scheduled(s, a), CpuUsed(s, a), CpuStep(s, a);
    assert CpuOk(s, c) && OnCpu(s, s.procs[p], p) && Local(s.procs[p], p);
    CpuRecord(s, a);
    OneProc(s, s', p);
    CpusOne(s, s', p, c);
    assert Views(s'.procs) == Views(s.procs);
  }

  // ---- fork ----

  predicate Forks(a: Action) {
    a.ForkStart? || a.ForkSetParent? || a.ForkSetReady?
  }

  // The process whose slot fork is filling.
  function Child(s: State, a: Action): nat
    requires Enabled(s, a) && Forks(a)
  {
    if a.ForkStart? then a.np else s.procs[a.p].pc.np
  }

  lemma ForkRecord(s: State, a: Action, p: nat, np: nat)
    requires Enabled(s, a) && Forks(a) && (a.ForkStart? ==> a.ok) && p == a.p && np == Child(s, a) < |s.procs|
    requires Local(s.procs[p], p) && Local(s.procs[np], np) && (!a.ForkStart? ==> s.procs[np].st == Used)
    ensures var s' := ForkStep(s, a);
            && np != p && |s'.procs| == |s.procs| && s'.procs == s.procs[np := s'.procs[np]][p := s'.procs[p]] && s'.cpus == s.cpus
            && Local(s'.procs[np], np) && Steady(s.procs[np], s'.procs[np]) && Local(s'.procs[p], p) && Steady(s.procs[p], s'.procs[p])
  {
  }

  lemma ForkSimulates(s: State, a: Action, p: nat, np: nat)
    requires Enabled(s, a) && Forks(a) && (a.ForkStart? ==> a.ok) && p == a.p && np == Child(s, a) < |s.procs| && np != p
    requires Local(s.procs[p], p) && Local(s.procs[np], np) && (!a.ForkStart? ==> s.procs[np].st == Used)
    requires var s' := ForkStep(s, a);
             |s'.procs| == |s.procs| && Views(s'.procs) == Views(s.procs)[np := ViewOf(s'.procs[np])][p := ViewOf(s'.procs[p])]
    ensures Simulates(s, a, ForkStep(s, a))
  {
  }

  lemma ForkKeeps(s: State, a: Action)
    requires Locals(s) && Cpus(s) && EW.Forks(AbsOf(s)) && Enabled(s, a) && Forks(a)
    ensures Kept(s, a, ForkStep(s, a))
  {
    var s', p, np := ForkStep(s, a), a.p, Child(s, a);
    assert Local(s.procs[p], p);
    assert AbsOf(s).ps[p].role == RoleOf(s.procs[p]);
    assert Local(s.procs[np], np);
    if a.ForkStart? && !a.ok {
      ForkFails(s, a);
    } else {
      ForkRecord(s, a, p, np);
      TwoMove(s, s', np, p);
      ForkSimulates(s, a, p, np);
    }
  }

  lemma ForkFails(s: State, a: Action)
    requires Locals(s) && Cpus(s) && Enabled(s, a) && a.ForkStart? && !a.ok
    ensures Kept(s, a, ForkStep(s, a))
  {
    assert Local(s.procs[a.p], a.p) && Local(s.procs[a.np], a.np);
    CpusSteady(s, ForkStep(s, a));
  }

  // ---- wait ----

  // The scan meets a dead child of p and reaps it.
  predicate Reaps(s: State, p: nat, k: nat, copied: bool)
    requires p < |s.procs|
  {
    k < |s.procs| && s.procs[k].parent == EW.ChildOf(p) && s.procs[k].st == Zombie && copied
  }

  lemma WaitScanKeeps(s: State, p: nat, copied: bool)
    requires Locals(s) && Cpus(s) && EW.Parents(AbsOf(s)) && Enabled(s, WaitScan(p, copied))
    ensures Kept(s, WaitScan(p, copied), WaitStep(s, WaitScan(p, copied)))
  {
    var s', k := WaitStep(s, WaitScan(p, copied)), s.procs[p].pc.k;
    assert Local(s.procs[p], p);
    if Reaps(s, p, k, copied) {
      assert AbsOf(s).ps[k].parent == EW.ChildOf(p) && k != p;
      assert Local(s.procs[k], k);
      ReapRecord(s, p, k);
      TwoMove(s, s', k, p);
      ReapSimulates(s, p, k);
    } else {
      ScanRecord(s, p, k, copied);
      OneMoves(s, s', p);
      ScanSimulates(s, p, k, copied);
    }
  }

  lemma ReapRecord(s: State, p: nat, k: nat)
    requires Enabled(s, WaitScan(p, true)) && k == s.procs[p].pc.k && Reaps(s, p, k, true) && k != p && Local(s.procs[p], p) && Local(s.procs[k], k)
    ensures var s' := WaitStep(s, WaitScan(p, true));
            && |s'.procs| == |s.procs| && s'.procs == s.procs[k := s'.procs[k]][p := s'.procs[p]] && s'.cpus == s.cpus
            && Local(s'.procs[k], k) && Steady(s.procs[k], s'.procs[k]) && Local(s'.procs[p], p) && Steady(s.procs[p], s'.procs[p])
  {
  }

  lemma ReapSimulates(s: State, p: nat, k: nat)
    requires Enabled(s, WaitScan(p, true)) && k == s.procs[p].pc.k && Reaps(s, p, k, true) && k != p && Local(s.procs[p], p) && Local(s.procs[k], k)
    requires var s' := WaitStep(s, WaitScan(p, true));
             |s'.procs| == |s.procs| && Views(s'.procs) == Views(s.procs)[k := ViewOf(s'.procs[k])][p := ViewOf(s'.procs[p])]
    ensures Simulates(s, WaitScan(p, true), WaitStep(s, WaitScan(p, true)))
  {
  }

  lemma ScanRecord(s: State, p: nat, k: nat, copied: bool)
    requires Enabled(s, WaitScan(p, copied)) && k == s.procs[p].pc.k && !Reaps(s, p, k, copied) && Local(s.procs[p], p)
    ensures var s' := WaitStep(s, WaitScan(p, copied));
            && |s'.procs| == |s.procs| && s'.procs == s.procs[p := s'.procs[p]] && s'.cpus == s.cpus
            && Local(s'.procs[p], p) && Steady(s.procs[p], s'.procs[p])
  {
  }

  lemma ScanSimulates(s: State, p: nat, k: nat, copied: bool)
    requires Enabled(s, WaitScan(p, copied)) && k == s.procs[p].pc.k && !Reaps(s, p, k, copied) && Local(s.procs[p], p)
    requires var s' := WaitStep(s, WaitScan(p, copied));
             |s'.procs| == |s.procs| && Views(s'.procs) == Views(s.procs)[p := ViewOf(s'.procs[p])]
    ensures Simulates(s, WaitScan(p, copied), WaitStep(s, WaitScan(p, copied)))
  {
  }

  predicate WaitsAlone(a: Action) {
    a.WaitStart? || a.WaitDecide? || a.WaitLockSelf? || a.WaitRelease?
  }

  lemma WaitRecord(s: State, a: Action, p: nat)
    requires Enabled(s, a) && WaitsAlone(a) && p == a.p && Local(s.procs[p], p)
    ensures var s' := WaitStep(s, a);
            && |s'.procs| == |s.procs| && s'.procs == s.procs[p := s'.procs[p]] && s'.cpus == s.cpus
            && Local(s'.procs[p], p) && Steady(s.procs[p], s'.procs[p])
  {
  }

  lemma WaitSimulates(s: State, a: Action, p: nat)
    requires Enabled(s, a) && WaitsAlone(a) && p == a.p && Local(s.procs[p], p)
    requires var s' := WaitStep(s, a);
             |s'.procs| == |s.procs| && Views(s'.procs) == Views(s.procs)[p := ViewOf(s'.procs[p])]
    ensures Simulates(s, a, WaitStep(s, a))
  {
  }

  lemma WaitKeeps(s: State, a: Action)
    requires Locals(s) && Cpus(s) && Enabled(s, a) && WaitsAlone(a)
    ensures Kept(s, a, WaitStep(s, a))
  {
    var s', p := WaitStep(s, a), a.p;
    assert Local(s.procs[p], p);
    WaitRecord(s, a, p);
    OneMoves(s, s', p);
    WaitSimulates(s, a, p);
  }

  // ---- exit ----

  predicate ExitsAlone(a: Action) {
    a.ExitStart? || a.ExitZombie? || a.ExitUnlock?
  }

  lemma ExitKeeps(s: State, a: Action)
    requires Locals(s) && Cpus(s) && Enabled(s, a) && ExitsAlone(a)
    ensures Kept(s, a, ExitsStep(s, a))
  {
    var s', p := ExitsStep(s, a), a.p;
    assert Local(s.procs[p], p);
    OneMoves(s, s', p);
    assert Views(s'.procs) == EW.Step(AbsOf(s), ProtocolStep(s, a)).ps;
  }

  lemma ReparentKeeps(s: State, p: nat)
    requires Locals(s) && Cpus(s) && EW.Parents(AbsOf(s)) && Enabled(s, ExitStep(p)) && s.procs[p].pc.Reparent?
    ensures Kept(s, ExitStep(p), ExitsStep(s, ExitStep(p)))
  {
    var k := s.procs[p].pc.k;
    assert Local(s.procs[p], p);
    if k < |s.procs| && s.procs[k].parent == EW.ChildOf(p) {
      assert AbsOf(s).ps[k].parent == EW.ChildOf(p) && k != p;
      GivesChild(s, p, k);
    } else {
      GivesNothing(s, p, k);
    }
  }

  lemma GivesNothing(s: State, p: nat, k: nat)
    requires Locals(s) && Cpus(s) && Enabled(s, ExitStep(p)) && s.procs[p].pc == Reparent(k)
    requires k >= |s.procs| || s.procs[k].parent != EW.ChildOf(p)
    ensures Kept(s, ExitStep(p), ExitsStep(s, ExitStep(p)))
  {
    assert Local(s.procs[p], p);
    OneMoves(s, ExitsStep(s, ExitStep(p)), p);
  }

  lemma GivesChild(s: State, p: nat, k: nat)
    requires Locals(s) && Cpus(s) && Enabled(s, ExitStep(p)) && s.procs[p].pc == Reparent(k)
    requires k < |s.procs| && k != p && s.procs[k].parent == EW.ChildOf(p)
    ensures Kept(s, ExitStep(p), ExitsStep(s, ExitStep(p)))
  {
    assert Local(s.procs[p], p) && Local(s.procs[k], k);
    TwoMove(s, ExitsStep(s, ExitStep(p)), k, p);
  }

  /** wakeup of a parent wakes exactly a process asleep in wait: nobody else sleeps on the
      address of a process. */
  lemma WokenIs(s: State, j: nat, t: nat)
    requires Locals(s) && Cpus(s) && Free?(s, j)
    ensures var s' := Woken(s, j, WaitOn(t));
            Locals(s') && Cpus(s') && Views(s'.procs) == EW.Woken(AbsOf(s), j, EW.ChildOf(t)).ps
  {
    assert Local(s.procs[j], j);
    var s' := Woken(s, j, WaitOn(t));
    OneProc(s, s', j);
    OneSteady(s, s', j);
  }

  lemma ExitWakeKeeps(s: State, p: nat)
    requires Locals(s) && Cpus(s) && Enabled(s, ExitStep(p)) && !s.procs[p].pc.Reparent?
    ensures Kept(s, ExitStep(p), ExitsStep(s, ExitStep(p)))
  {
    var j := s.procs[p].pc.j;
    var t := if s.procs[p].pc.ReparentWake? then EW.ChildOf(s.init) else s.procs[p].parent;
    if j < |s.procs| && j != p && t.ChildOf? {
      ExitWakes(s, p, j, t.p);
    } else {
      ExitWakesNobody(s, p, j, t);
    }
  }

  // wakeup is at some other process, on the channel of process t.
  lemma ExitWakes(s: State, p: nat, j: nat, t: nat)
    requires Locals(s) && Cpus(s) && Enabled(s, ExitStep(p)) && !s.procs[p].pc.Reparent? && j == s.procs[p].pc.j < |s.procs| && j != p
    requires EW.ChildOf(t) == if s.procs[p].pc.ReparentWake? then EW.ChildOf(s.init) else s.procs[p].parent
    ensures Kept(s, ExitStep(p), ExitsStep(s, ExitStep(p)))
  {
    var s', s1 := ExitsStep(s, ExitStep(p)), Woken(s, j, WaitOn(t));
    assert Local(s.procs[p], p);
    WokenIs(s, j, t);
    WakeRecord(s, p, j, t);
    OneMoves(s1, s', p);
    WakeSimulates(s, p, j, t);
  }

  lemma WakeRecord(s: State, p: nat, j: nat, t: nat)
    requires Enabled(s, ExitStep(p)) && !s.procs[p].pc.Reparent? && j == s.procs[p].pc.j < |s.procs| && j != p && Local(s.procs[p], p)
    requires EW.ChildOf(t) == if s.procs[p].pc.ReparentWake? then EW.ChildOf(s.init) else s.procs[p].parent
    ensures var s', s1 := ExitsStep(s, ExitStep(p)), Woken(s, j, WaitOn(t));
            && |s'.procs| == |s1.procs| == |s.procs| && s'.procs == s1.procs[p := s'.procs[p]] && s'.(procs := s.procs) == s
            && s1.procs[p] == s.procs[p] && s1.cpus == s.cpus
            && Local(s'.procs[p], p) && Steady(s.procs[p], s'.procs[p])
            && ViewOf(s'.procs[p]) == ViewOf(s.procs[p]).(role := RoleOf(s'.procs[p]))
  {
  }

  lemma WakeSimulates(s: State, p: nat, j: nat, t: nat)
    requires Enabled(s, ExitStep(p)) && !s.procs[p].pc.Reparent? && j == s.procs[p].pc.j < |s.procs| && j != p && Local(s.procs[p], p)
    requires EW.ChildOf(t) == if s.procs[p].pc.ReparentWake? then EW.ChildOf(s.init) else s.procs[p].parent
    requires var s', s1 := ExitsStep(s, ExitStep(p)), Woken(s, j, WaitOn(t));
             && |s'.procs| == |s1.procs| == |s.procs| && s'.(procs := s.procs) == s
             && Views(s1.procs) == EW.Woken(AbsOf(s), j, EW.ChildOf(t)).ps && Views(s'.procs) == Views(s1.procs)[p := ViewOf(s'.procs[p])]
             && ViewOf(s'.procs[p]) == ViewOf(s.procs[p]).(role := RoleOf(s'.procs[p]))
    ensures Simulates(s, ExitStep(p), ExitsStep(s, ExitStep(p)))
  {
  }

  // wakeup is at the exiting process itself, past the end, or has no channel.
  lemma ExitWakesNobody(s: State, p: nat, j: nat, t: EW.Parent)
    requires Locals(s) && Cpus(s) && Enabled(s, ExitStep(p)) && !s.procs[p].pc.Reparent? && j == s.procs[p].pc.j
    requires t == if s.procs[p].pc.ReparentWake? then EW.ChildOf(s.init) else s.procs[p].parent
    requires j >= |s.procs| || j == p || t.NoParent?
    ensures Kept(s, ExitStep(p), ExitsStep(s, ExitStep(p)))
  {
    var s' := ExitsStep(s, ExitStep(p));
    assert Local(s.procs[p], p) && (j < |s.procs| ==> Local(s.procs[j], j));
    PassRecord(s, p, j, t);
    OneMoves(s, s', p);
    PassSimulates(s, p, j, t);
  }

  lemma PassRecord(s: State, p: nat, j: nat, t: EW.Parent)
    requires Enabled(s, ExitStep(p)) && !s.procs[p].pc.Reparent? && j == s.procs[p].pc.j && Local(s.procs[p], p)
    requires t == if s.procs[p].pc.ReparentWake? then EW.ChildOf(s.init) else s.procs[p].parent
    requires (j >= |s.procs| || j == p || t.NoParent?) && (j < |s.procs| ==> Local(s.procs[j], j))
    ensures var s' := ExitsStep(s, ExitStep(p));
            && |s'.procs| == |s.procs| && s'.procs == s.procs[p := s'.procs[p]] && s'.(procs := s.procs) == s
            && Local(s'.procs[p], p) && Steady(s.procs[p], s'.procs[p])
            && ViewOf(s'.procs[p]) == ViewOf(s.procs[p]).(role := RoleOf(s'.procs[p]))
  {
  }

  lemma PassSimulates(s: State, p: nat, j: nat, t: EW.Parent)
    requires Enabled(s, ExitStep(p)) && !s.procs[p].pc.Reparent? && j == s.procs[p].pc.j && Local(s.procs[p], p)
    requires t == if s.procs[p].pc.ReparentWake? then EW.ChildOf(s.init) else s.procs[p].parent
    requires j >= |s.procs| || j == p || t.NoParent?
    requires var s' := ExitsStep(s, ExitStep(p));
             && |s'.procs| == |s.procs| && s'.(procs := s.procs) == s && Views(s'.procs) == Views(s.procs)[p := ViewOf(s'.procs[p])]
             && ViewOf(s'.procs[p]) == ViewOf(s.procs[p]).(role := RoleOf(s'.procs[p]))
    ensures Simulates(s, ExitStep(p), ExitsStep(s, ExitStep(p)))
  {
  }

  /** Every step of the system is a step of the exit/wait protocol, or none of it. */
  lemma StepKeeps(s: State, a: Action)
    requires Locals(s) && Cpus(s) && EW.Forks(AbsOf(s)) && EW.Parents(AbsOf(s)) && Enabled(s, a)
    ensures Kept(s, a, Step(s, a))
  {
    if Sleeps(a) {
      SleepKeeps(s, a);
    } else if Schedules(a) {
      CpuKeeps(s, a);
    } else if Forks(a) {
      ForkKeeps(s, a);
    } else {
      WaitLockStepKeeps(s, a);
    }
  }

  // The steps of exit and wait.
  lemma WaitLockStepKeeps(s: State, a: Action)
    requires Locals(s) && Cpus(s) && EW.Parents(AbsOf(s)) && Enabled(s, a) && !Sleeps(a) && !Schedules(a) && !Forks(a)
    ensures Kept(s, a, Step(s, a))
  {
    if WaitsAlone(a) {
      WaitKeeps(s, a);
    } else if ExitsAlone(a) {
      ExitKeeps(s, a);
    } else {
      match a
      case WaitScan(p, copied) => WaitScanKeeps(s, p, copied);
      case ExitStep(p) => if s.procs[p].pc.Reparent? { ReparentKeeps(s, p); } else { ExitWakeKeeps(s, p); }
    }
  }

  lemma StepKeepsInv(s: State, a: Action)
    requires Inv(s) && Enabled(s, a)
    ensures Inv(Step(s, a))
  {
    StepKeeps(s, a);
    EW.StepKeepsInv(AbsOf(s), ProtocolStep(s, a));
  }

  // ---- Whole runs ------------------------------------------------------------------------------------

  // userinit: only init is there.
  ghost predicate Initial(s: State) {
    && s.init < |s.procs| && s.wl == EW.Open && s.reaped == []
    && (forall c :: 0 <= c < |s.cpus| ==> s.cpus[c] == Idle)
    && (forall i :: 0 <= i < |s.procs| ==>
          && s.procs[i].chan == NoChan && s.procs[i].parent == EW.NoParent && s.procs[i].lock == Free
          && if i == s.init then s.procs[i].st == Runnable && s.procs[i].pc == Off(First) && s.procs[i].pid < s.nextpid
             else s.procs[i].st == Unused && s.procs[i].pc == Off(Never))
  }

  ghost predicate Run(s: State, acts: seq<Action>, s': State)
    decreases |acts|
  {
    if acts == [] then s' == s else Enabled(s, acts[0]) && Run(Step(s, acts[0]), acts[1..], s')
  }

  ghost predicate Reachable(s: State) {
    exists s0, acts :: Initial(s0) && Run(s0, acts, s)
  }

  lemma InitialInv(s: State)
    requires Initial(s)
    ensures Inv(s)
  {
    InitialLocal(s);
    InitialViews(s);
    EW.StartInv(AbsOf(s));
  }

  lemma InitialLocal(s: State)
    requires Initial(s)
    ensures Locals(s) && Cpus(s)
  {
  }

  lemma InitialViews(s: State)
    requires Initial(s)
    ensures EW.Start(AbsOf(s))
  {
  }

  lemma {:induction false} RunKeepsInv(s: State, acts: seq<Action>, s': State)
    requires Inv(s) && Run(s, acts, s')
    ensures Inv(s')
    decreases |acts|
  {
    if acts != [] {
      StepKeepsInv(s, acts[0]);
      RunKeepsInv(Step(s, acts[0]), acts[1..], s');
    }
  }

  lemma ReachableInv(s: State)
    requires Reachable(s)
    ensures Inv(s)
  {
    var s0, acts :| Initial(s0) && Run(s0, acts, s);
    InitialInv(s0);
    RunKeepsInv(s0, acts, s);
  }

  // What the invariant says of one process.
  lemma ReachableAt(s: State, i: nat)
    requires Reachable(s) && i < |s.procs|
    ensures Local(s.procs[i], i) && OnCpu(s, s.procs[i], i) && (EW.HoldsWait(RoleOf(s.procs[i])) <==> s.wl == EW.HeldBy(i))
    ensures s.procs[i].lock.ByCpu? ==> s.procs[i].lock.c < |s.cpus| && CpuOk(s, s.procs[i].lock.c)
  {
    ReachableInv(s);
    assert AbsOf(s).ps[i] == ViewOf(s.procs[i]) && Local(s.procs[i], i) && OnCpu(s, s.procs[i], i);
    assert s.procs[i].lock.ByCpu? ==> CpuOk(s, s.procs[i].lock.c);
  }

  lemma ReachableHolder(s: State)
    requires Reachable(s) && s.wl.HeldBy?
    ensures s.wl.p < |s.procs|
  {
    ReachableInv(s);
  }

  /** No exit is missed: while wait_lock is free, no process is asleep in wait while it has
      a ZOMBIE child. */
  lemma NoMissedExit(s: State, p: nat, k: nat)
    requires Reachable(s) && p < |s.procs| && k < |s.procs|
    requires s.wl.Open? && s.procs[k].parent == EW.ChildOf(p) && s.procs[k].st == Zombie
    ensures !(s.procs[p].st == Sleeping && s.procs[p].chan == WaitOn(p))
  {
    ReachableInv(s);
    var a := AbsOf(s);
    assert Local(s.procs[p], p) && a.ps[p] == ViewOf(s.procs[p]) && a.ps[k] == ViewOf(s.procs[k]);
  }

  /** Every recorded parent is neither ZOMBIE nor UNUSED, whoever holds wait_lock. */
  lemma ParentsAlive(s: State, k: nat)
    requires Reachable(s) && k < |s.procs| && s.procs[k].parent.ChildOf?
    ensures s.procs[k].parent.p < |s.procs|
    ensures s.procs[s.procs[k].parent.p].st != Zombie && s.procs[s.procs[k].parent.p].st != Unused
  {
    ReachableInv(s);
    var a := AbsOf(s);
    assert a.ps[k].parent == s.procs[k].parent;
  }

  /** wait reports that there are no children only when there are none. */
  lemma NoChildrenIsTrue(s: State, p: nat, k: nat)
    requires Reachable(s) && p < |s.procs| && k < |s.procs| && s.procs[p].pc == ScanEnd(false)
    ensures s.procs[k].parent != EW.ChildOf(p)
  {
    ReachableInv(s);
    var a := AbsOf(s);
    assert a.ps[p].role == EW.Scanned(false) && a.ps[k].parent == s.procs[k].parent;
  }

  /** No process is reaped twice, and none is reaped while it still has a slot. */
  lemma ReapedOnce(s: State, i: nat, j: nat)
    requires Reachable(s)
    ensures i < j < |s.reaped| ==> s.reaped[i] != s.reaped[j]
    ensures i < |s.procs| && s.procs[i].st != Unused ==> s.procs[i].pid !in s.reaped
  {
    ReachableInv(s);
    assert i < |s.procs| ==> AbsOf(s).ps[i] == ViewOf(s.procs[i]);
  }

  /** While p->lock is free, p is RUNNING exactly when some CPU has it as its current
      process, and then only one CPU does. */
  lemma HandOff(s: State, p: nat)
    requires Reachable(s) && p < |s.procs| && s.procs[p].lock == Free
    ensures s.procs[p].st == Running <==> exists c :: 0 <= c < |s.cpus| && HasCurrent(s.cpus[c], p)
    ensures forall c, d :: 0 <= c < |s.cpus| && 0 <= d < |s.cpus| && HasCurrent(s.cpus[c], p) && HasCurrent(s.cpus[d], p) ==> c == d
  {
    ReachableInv(s);
    assert Local(s.procs[p], p) && OnCpu(s, s.procs[p], p);
    if s.procs[p].st == Running {
      assert HasCurrent(s.cpus[s.procs[p].on], p);
    }
    forall c | 0 <= c < |s.cpus| && HasCurrent(s.cpus[c], p) ensures c == s.procs[p].on && s.procs[p].st == Running {
      assert CpuOk(s, c);
    }
  }

  // c->proc == p.
  predicate HasCurrent(cpu: Cpu, p: nat) {
    cpu == Current(p) || cpu == Back(p)
  }

  /** sched never panics: its caller holds p->lock and not wait_lock, is not RUNNING, and
      is the current process of the CPU it runs on. */
  lemma SchedDoesNotPanic(s: State, p: nat)
    requires Reachable(s) && p < |s.procs| && s.procs[p].pc.Switch?
    ensures s.procs[p].lock == ByThread && s.wl != EW.HeldBy(p) && s.procs[p].st != Running
    ensures s.procs[p].on < |s.cpus| && s.cpus[s.procs[p].on] == Current(p) && Enabled(s, SwitchOut(p))
  {
    ReachableAt(s, p);
  }

  /** The scheduler can run what it finds RUNNABLE: that thread is off every CPU and has
      somewhere to go on, so exit's last panic is never reached. */
  lemma DispatchIsSafe(s: State, c: nat)
    requires Reachable(s) && c < |s.cpus| && s.cpus[c].Looking?
    ensures s.cpus[c].p < |s.procs|
    ensures var r := s.procs[s.cpus[c].p];
            r.lock == ByCpu(c) && (r.st == Runnable ==> r.pc.Off? && r.pc.r != Never && Enabled(s, Dispatch(c)))
  {
    ReachableInv(s);
    assert CpuOk(s, c) && Local(s.procs[s.cpus[c].p], s.cpus[c].p);
  }

  // ---- Progress -------------------------------------------------------------------------------------------

  // The next step of a thread that holds wait_lock.
  function HolderStep(pc: Pc, p: nat): Action {
    match pc
    case ExitDie => ExitZombie(p)
    case ExitRelease => ExitUnlock(p)
    case Scan(_, _) => WaitScan(p, true)
    case ScanEnd(_) => WaitDecide(p)
    case WaitSleep => WaitLockSelf(p)
    case WaitUnlock => WaitRelease(p)
    case _ => ExitStep(p)
  }

  // The process whose p->lock that step acquires.
  function Wanted(s: State, p: nat): nat
    requires p < |s.procs|
  {
    match s.procs[p].pc
    case ReparentWake(_, j) => j
    case ExitWake(j) => j
    case Scan(k, _) => k
    case _ => p
  }

  // A step of whoever holds j's lock: its own thread, or a CPU.
  function UnlockStep(s: State, j: nat): Action
    requires j < |s.procs|
  {
    var r := s.procs[j];
    match r.lock
    case ByCpu(c) => if c < |s.cpus| && s.cpus[c].Back? then Finish(c) else if r.st == Runnable then Dispatch(c) else LookAway(c)
    case _ => (
      match r.pc
      case Doze(_, _) => SleepSet(j)
      case Switch(_) => SwitchOut(j)
      case _ => Resumed(j))
  }

  /** wait_lock is not held for ever: its holder can take its next step, or the p->lock
      that step needs is held by a thread or CPU that can itself take a step without
      waiting for anything. */
  lemma WaitLockProgress(s: State, p: nat)
    requires Reachable(s) && s.wl == EW.HeldBy(p)
    ensures p < |s.procs|
    ensures Enabled(s, HolderStep(s.procs[p].pc, p)) || (Wanted(s, p) < |s.procs| && Enabled(s, UnlockStep(s, Wanted(s, p))))
  {
    ReachableHolder(s);
    ReachableAt(s, p);
    var j := Wanted(s, p);
    HolderIsOn(s.procs[p], p);
    if j < |s.procs| && s.procs[j].lock != Free && !HoldsOwn(s.procs[p].pc) {
      BlockerMoves(s, p, j);
    } else {
      CanMove(s, p);
    }
  }

  lemma HolderIsOn(r: Proc, p: nat)
    requires Local(r, p) && EW.HoldsWait(RoleOf(r))
    ensures EW.HoldsWait(RoleAt(r.pc))
  {
  }

  lemma BlockerMoves(s: State, p: nat, j: nat)
    requires Reachable(s) && s.wl == EW.HeldBy(p) && p < |s.procs| && j < |s.procs| && !HoldsOwn(s.procs[p].pc) && s.procs[j].lock != Free
    ensures Enabled(s, UnlockStep(s, j))
  {
    ReachableAt(s, j);
    NotHolder(s, p, j);
    CanUnlock(s, j);
  }

  // Only the holder of wait_lock is about to release it.
  lemma NotHolder(s: State, p: nat, j: nat)
    requires s.wl == EW.HeldBy(p) && p < |s.procs| && j < |s.procs| && !HoldsOwn(s.procs[p].pc)
    requires EW.HoldsWait(RoleOf(s.procs[j])) <==> s.wl == EW.HeldBy(j)
    ensures !s.procs[j].pc.ExitRelease? && !s.procs[j].pc.WaitUnlock?
  {
  }

  lemma CanMove(s: State, p: nat)
    requires p < |s.procs| && EW.HoldsWait(RoleAt(s.procs[p].pc)) && Local(s.procs[p], p)
    requires Wanted(s, p) >= |s.procs| || s.procs[Wanted(s, p)].lock == Free || HoldsOwn(s.procs[p].pc)
    ensures Enabled(s, HolderStep(s.procs[p].pc, p))
  {
  }

  lemma CanUnlock(s: State, j: nat)
    requires j < |s.procs| && s.procs[j].lock != Free && Local(s.procs[j], j) && OnCpu(s, s.procs[j], j)
    requires s.procs[j].lock.ByCpu? ==> CpuOk(s, s.procs[j].lock.c)
    requires !s.procs[j].pc.ExitRelease? && !s.procs[j].pc.WaitUnlock?
    ensures Enabled(s, UnlockStep(s, j))
  {
  }
}
