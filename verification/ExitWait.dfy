/** The protocol by which exit, wait and fork share the process table: what each thread is
    doing with wait_lock and with its children, without p->lock, CPUs and other sleeps
    (proc.c's exit, wait, reparent and the parts of fork, sleep and wakeup they use). */
module ExitWait {

  datatype Life = Empty | Embryo | Live | Dead

  datatype Parent = NoParent | ChildOf(p: nat)

  datatype WaitLock = Open | HeldBy(p: nat)

  // What a thread is doing in the protocol.
  datatype Role =
    | Quiet
    | Linking(np: nat)                  // fork: np has no parent yet
    | Readying(np: nat)                 // fork: np is not RUNNABLE yet
    | Giving(k: nat)                    // exit: reparent's loop is at k
    | WakingInit(k: nat, j: nat)        // exit: reparent's wakeup(initproc) is at j
    | WakingParent(j: nat)              // exit: wakeup(p->parent) is at j
    | Dying                             // exit: about to become ZOMBIE
    | Leaving                           // exit: ZOMBIE, about to release wait_lock
    | Scanning(k: nat, have: bool)      // wait: the table scan is at k
    | Scanned(have: bool)               // wait: after the scan
    | Sleepy(locked: bool)              // wait: will sleep, or is asleep once unlocked

  datatype View = View(life: Life, parent: Parent, pid: nat, role: Role)

  datatype Abs = Abs(ps: seq<View>, wl: WaitLock, init: nat, nextpid: nat, reaped: seq<nat>)

  datatype Action =
    | Fork(p: nat, np: nat, ok: bool) | Link(p: nat) | Ready(p: nat)
    | ExitStart(p: nat) | Give(p: nat) | WakeInit(p: nat) | WakeParent(p: nat) | Die(p: nat) | Leave(p: nat)
    | WaitStart(p: nat) | Scan(p: nat, copied: bool) | GiveUp(p: nat) | GoSleep(p: nat) | Release(p: nat)
    | Wake(p: nat) | Nothing

  // ---- Steps --------------------------------------------------------------------------------

  function With(a: Abs, p: nat, v: View): Abs
    requires p < |a.ps|
  {
    a.(ps := a.ps[p := v])
  }

  function Become(a: Abs, p: nat, role: Role): Abs
    requires p < |a.ps|
  {
    With(a, p, a.ps[p].(role := role))
  }

  // wakeup at j on the channel of process t.
  function Woken(a: Abs, j: nat, t: Parent): Abs
    requires j < |a.ps|
  {
    if t == ChildOf(j) && a.ps[j].role == Sleepy(false) then Become(a, j, Quiet) else a
  }

  predicate Enabled(a: Abs, act: Action) {
    var n := |a.ps|;
    match act
    case Fork(p, np, _) => p < n && np < n && a.ps[p].role.Quiet? && a.ps[p].life.Live? && a.ps[np].life.Empty? && a.ps[np].role.Quiet?
    case Link(p) => p < n && a.ps[p].role.Linking? && a.ps[p].role.np < n && a.wl.Open?
    case Ready(p) => p < n && a.ps[p].role.Readying? && a.ps[p].role.np < n
    case ExitStart(p) => p < n && p != a.init && a.ps[p].role.Quiet? && a.ps[p].life.Live? && a.wl.Open?
    case Give(p) => p < n && a.ps[p].role.Giving?
    case WakeInit(p) => p < n && a.ps[p].role.WakingInit?
    case WakeParent(p) => p < n && a.ps[p].role.WakingParent?
    case Die(p) => p < n && a.ps[p].role.Dying?
    case Leave(p) => p < n && a.ps[p].role.Leaving?
    case WaitStart(p) => p < n && a.ps[p].role.Quiet? && a.ps[p].life.Live? && a.wl.Open?
    case Scan(p, _) => p < n && a.ps[p].role.Scanning?
    case GiveUp(p) => p < n && a.ps[p].role.Scanned?
    case GoSleep(p) => p < n && a.ps[p].role == Scanned(true)
    case Release(p) => p < n && a.ps[p].role == Sleepy(true)
    case Wake(p) => p < n && a.ps[p].role == Sleepy(false)
    case Nothing => true
  }

  function Step(a: Abs, act: Action): Abs
    requires Enabled(a, act)
  {
    match act
    case Fork(p, np, ok) =>
      if ok then Become(With(a, np, a.ps[np].(life := Embryo, pid := a.nextpid)), p, Linking(np)).(nextpid := a.nextpid + 1)
      else a.(nextpid := a.nextpid + 1)
    case Link(p) =>
      var np := a.ps[p].role.np;
      Become(With(a, np, a.ps[np].(parent := ChildOf(p))), p, Readying(np))
    case Ready(p) =>
      var np := a.ps[p].role.np;
      Become(With(a, np, a.ps[np].(life := Live)), p, Quiet)
    case ExitStart(p) => Become(a, p, Giving(0)).(wl := HeldBy(p))
    case Give(p) =>
      var k := a.ps[p].role.k;
      if k >= |a.ps| then Become(a, p, WakingParent(0))
      else if a.ps[k].parent == ChildOf(p) then Become(With(a, k, a.ps[k].(parent := ChildOf(a.init))), p, WakingInit(k, 0))
      else Become(a, p, Giving(k + 1))
    case WakeInit(p) =>
      var k, j := a.ps[p].role.k, a.ps[p].role.j;
      if j >= |a.ps| then Become(a, p, Giving(k + 1))
      else Become(Woken(a, j, ChildOf(a.init)), p, WakingInit(k, j + 1))
    case WakeParent(p) =>
      var j := a.ps[p].role.j;
      if j >= |a.ps| then Become(a, p, Dying)
      else Become(Woken(a, j, a.ps[p].parent), p, WakingParent(j + 1))
    case Die(p) => With(a, p, a.ps[p].(life := Dead, role := Leaving))
    case Leave(p) => Become(a, p, Quiet).(wl := Open)
    case WaitStart(p) => Become(a, p, Scanning(0, false)).(wl := HeldBy(p))
    case Scan(p, copied) =>
      var k, have := a.ps[p].role.k, a.ps[p].role.have;
      if k >= |a.ps| then Become(a, p, Scanned(have))
      else if a.ps[k].parent != ChildOf(p) then Become(a, p, Scanning(k + 1, have))
      else if !a.ps[k].life.Dead? then Become(a, p, Scanning(k + 1, true))
      else if !copied then Become(a, p, Quiet).(wl := Open)
      else Become(With(a, k, a.ps[k].(life := Empty, parent := NoParent, pid := 0)), p, Quiet)
           .(wl := Open, reaped := a.reaped + [a.ps[k].pid])
    case GiveUp(p) => Become(a, p, Quiet).(wl := Open)
    case GoSleep(p) => Become(a, p, Sleepy(true))
    case Release(p) => Become(a, p, Sleepy(false)).(wl := Open)
    case Wake(p) => Become(a, p, Quiet)
    case Nothing => a
  }

  // ---- The invariant --------------------------------------------------------------------------

  predicate Exiting(role: Role) {
    role.Giving? || role.WakingInit? || role.WakingParent? || role.Dying? || role.Leaving?
  }

  predicate HoldsWait(role: Role) {
    Exiting(role) || role.Scanning? || role.Scanned? || role == Sleepy(true)
  }

  // wait_lock is held by exactly the thread whose role says so.
  ghost predicate WaitLocked(a: Abs) {
    && (a.wl.HeldBy? ==> a.wl.p < |a.ps|)
    && forall i :: 0 <= i < |a.ps| ==> (HoldsWait(a.ps[i].role) <==> a.wl == HeldBy(i))
  }

  predicate RoleFits(v: View) {
    match v.role
    case Quiet => true
    case Leaving => v.life.Dead?
    case _ => v.life.Live?
  }

  ghost predicate Roles(a: Abs) {
    forall i :: 0 <= i < |a.ps| ==> RoleFits(a.ps[i])
  }

  predicate Forking(role: Role) {
    role.Linking? || role.Readying?
  }

  // A child being made belongs to one forking parent and is not alive yet.
  ghost predicate Forks(a: Abs) {
    && (forall p :: 0 <= p < |a.ps| && Forking(a.ps[p].role) ==>
          a.ps[p].role.np < |a.ps| && a.ps[a.ps[p].role.np].life == Embryo
          && (a.ps[p].role.Linking? ==> a.ps[a.ps[p].role.np].parent == NoParent))
    && (forall p, q :: 0 <= p < |a.ps| && 0 <= q < |a.ps| && Forking(a.ps[p].role) && Forking(a.ps[q].role) && p != q ==>
          a.ps[p].role.np != a.ps[q].role.np)
  }

  // Every recorded parent is alive; init is alive and does not exit.
  ghost predicate Parents(a: Abs) {
    && a.init < |a.ps| && a.ps[a.init].life.Live? && !Exiting(a.ps[a.init].role) && a.ps[a.init].parent == NoParent
    && (forall k :: 0 <= k < |a.ps| && a.ps[k].parent.ChildOf? ==>
          a.ps[k].parent.p < |a.ps| && a.ps[k].parent.p != k && !a.ps[k].life.Empty? && a.ps[a.ps[k].parent.p].life.Live?)
  }

  // How many slots exit has taken its children out of.
  function Given(role: Role, n: nat): nat {
    match role
    case Giving(k) => k
    case WakingInit(k, _) => k + 1
    case WakingParent(_) => n
    case Dying => n
    case _ => 0
  }

  ghost predicate Orphaned(a: Abs) {
    forall q, k :: 0 <= q < |a.ps| && 0 <= k < |a.ps| && k < Given(a.ps[q].role, |a.ps|) ==> a.ps[k].parent != ChildOf(q)
  }

  predicate Settled(v: View) {
    v.role.Sleepy? || v.role.Scanned?
  }

  // exit holds wait_lock and reparent's wakeup has yet to reach init.
  predicate InitPending(a: Abs) {
    a.wl.HeldBy? && a.wl.p < |a.ps| && a.ps[a.wl.p].role.WakingInit? && a.ps[a.wl.p].role.j <= a.init
  }

  // A parent bound for sleep has no dead child, except init while it is about to be woken.
  ghost predicate NoLost(a: Abs) {
    forall p, k :: 0 <= p < |a.ps| && 0 <= k < |a.ps| && Settled(a.ps[p]) && a.ps[k].parent == ChildOf(p) && a.ps[k].life.Dead? ==>
      p == a.init && InitPending(a)
  }

  // What wait's scan has seen.
  ghost predicate Seen(a: Abs) {
    forall p, k :: 0 <= p < |a.ps| && 0 <= k < |a.ps| && a.ps[k].parent == ChildOf(p) ==>
      && (a.ps[p].role.Scanning? && k < a.ps[p].role.k ==> !a.ps[k].life.Dead? && a.ps[p].role.have)
      && (a.ps[p].role.Scanned? ==> a.ps[p].role.have)
  }

  // exit's wakeup has passed the parent.
  predicate PastParent(v: View) {
    v.parent.ChildOf? && (v.role.Dying? || (v.role.WakingParent? && v.parent.p < v.role.j))
  }

  // Then the parent is not bound for sleep.
  ghost predicate ParentWoken(a: Abs) {
    forall q :: 0 <= q < |a.ps| && PastParent(a.ps[q]) && a.ps[q].parent.p < |a.ps| ==> !a.ps[a.ps[q].parent.p].role.Sleepy?
  }

  ghost predicate Pids(a: Abs) {
    && (forall i :: 0 <= i < |a.ps| && !a.ps[i].life.Empty? ==> a.ps[i].pid < a.nextpid && a.ps[i].pid !in a.reaped)
    && (forall i, j :: 0 <= i < j < |a.ps| && !a.ps[i].life.Empty? && !a.ps[j].life.Empty? ==> a.ps[i].pid != a.ps[j].pid)
    && (forall i :: 0 <= i < |a.reaped| ==> a.reaped[i] < a.nextpid)
    && (forall i, j :: 0 <= i < j < |a.reaped| ==> a.reaped[i] != a.reaped[j])
  }

  ghost predicate Inv(a: Abs) {
    && WaitLocked(a) && Roles(a) && Forks(a) && Parents(a)
    && Orphaned(a) && NoLost(a) && Seen(a) && ParentWoken(a) && Pids(a)
  }

  // After userinit: init alone, doing nothing yet.
  ghost predicate Start(a: Abs) {
    && a.wl == Open && a.reaped == [] && a.init < |a.ps| && a.ps[a.init].pid < a.nextpid
    && forall i :: 0 <= i < |a.ps| ==>
         a.ps[i].life == (if i == a.init then Live else Empty) && a.ps[i].parent == NoParent && a.ps[i].role == Quiet
  }

  lemma StartInv(a: Abs)
    requires Start(a)
    ensures Inv(a)
  {
  }

  // ---- What keeps each part when one slot changes ------------------------------------------------

  ghost predicate Changed(a: Abs, b: Abs, i: nat) {
    i < |a.ps| && |b.ps| == |a.ps| && b.init == a.init && b.ps == a.ps[i := b.ps[i]]
  }

  lemma WaitLockedKept(a: Abs, b: Abs, i: nat)
    requires Changed(a, b, i) && WaitLocked(a)
    requires HoldsWait(b.ps[i].role) <==> b.wl == HeldBy(i)
    requires b.wl == a.wl || ((a.wl == Open || a.wl == HeldBy(i)) && (b.wl == Open || b.wl == HeldBy(i)))
    ensures WaitLocked(b)
  {
  }

  lemma RolesKept(a: Abs, b: Abs, i: nat)
    requires Changed(a, b, i) && Roles(a) && RoleFits(b.ps[i])
    ensures Roles(b)
  {
  }

  lemma ForksKept(a: Abs, b: Abs, i: nat)
    requires Changed(a, b, i) && Forks(a)
    requires Forking(b.ps[i].role) ==>
               && b.ps[i].role.np < |b.ps| && b.ps[b.ps[i].role.np].life == Embryo
               && (b.ps[i].role.Linking? ==> b.ps[b.ps[i].role.np].parent == NoParent)
               && forall q :: 0 <= q < |a.ps| && q != i && Forking(a.ps[q].role) ==> a.ps[q].role.np != b.ps[i].role.np
    requires forall q :: 0 <= q < |a.ps| && q != i && Forking(a.ps[q].role) && a.ps[q].role.np == i ==>
               b.ps[i].life == Embryo && (a.ps[q].role.Linking? ==> b.ps[i].parent == NoParent)
    ensures Forks(b)
  {
  }

  lemma ParentsKept(a: Abs, b: Abs, i: nat)
    requires Changed(a, b, i) && Parents(a)
    requires i == a.init ==> b.ps[i].life.Live? && !Exiting(b.ps[i].role) && b.ps[i].parent == NoParent
    requires b.ps[i].parent.ChildOf? ==>
               b.ps[i].parent.p < |b.ps| && b.ps[i].parent.p != i && !b.ps[i].life.Empty? && b.ps[b.ps[i].parent.p].life.Live?
    requires a.ps[i].life.Live? && !b.ps[i].life.Live? ==> forall k :: 0 <= k < |a.ps| ==> a.ps[k].parent != ChildOf(i)
    ensures Parents(b)
  {
  }

  lemma OrphanedKept(a: Abs, b: Abs, i: nat)
    requires Changed(a, b, i) && Orphaned(a)
    requires forall k :: 0 <= k < |b.ps| && k < Given(b.ps[i].role, |b.ps|) ==> b.ps[k].parent != ChildOf(i)
    requires b.ps[i].parent == a.ps[i].parent || b.ps[i].parent == NoParent
             || (b.ps[i].parent.p < |b.ps| && i >= Given(b.ps[b.ps[i].parent.p].role, |b.ps|))
    ensures Orphaned(b)
  {
  }

  lemma NoLostKept(a: Abs, b: Abs, i: nat)
    requires Changed(a, b, i) && NoLost(a)
    requires Settled(b.ps[i]) ==> Settled(a.ps[i]) || forall k :: 0 <= k < |b.ps| && b.ps[k].parent == ChildOf(i) ==> !b.ps[k].life.Dead?
    requires b.ps[i].life.Dead? && b.ps[i].parent.ChildOf? && b.ps[i].parent.p < |b.ps| ==>
               || (a.ps[i].life.Dead? && a.ps[i].parent == b.ps[i].parent)
               || !Settled(b.ps[b.ps[i].parent.p]) || (b.ps[i].parent.p == b.init && InitPending(b))
    requires b.init < |b.ps| && (InitPending(a) ==> InitPending(b) || !Settled(b.ps[b.init]))
    ensures NoLost(b)
  {
  }

  lemma SeenKept(a: Abs, b: Abs, i: nat)
    requires Changed(a, b, i) && Seen(a)
    requires forall k :: 0 <= k < |b.ps| && b.ps[k].parent == ChildOf(i) ==>
               && (b.ps[i].role.Scanning? && k < b.ps[i].role.k ==> !b.ps[k].life.Dead? && b.ps[i].role.have)
               && (b.ps[i].role.Scanned? ==> b.ps[i].role.have)
    requires b.ps[i].parent.ChildOf? && b.ps[i].parent.p < |b.ps| && b.ps[i].parent.p != i ==>
               || (a.ps[i].parent == b.ps[i].parent && (b.ps[i].life.Dead? ==> a.ps[i].life.Dead?))
               || !(b.ps[b.ps[i].parent.p].role.Scanning? || b.ps[b.ps[i].parent.p].role.Scanned?)
    ensures Seen(b)
  {
  }

  lemma ParentWokenKept(a: Abs, b: Abs, i: nat)
    requires Changed(a, b, i) && ParentWoken(a)
    requires PastParent(b.ps[i]) && b.ps[i].parent.p < |b.ps| ==> !b.ps[b.ps[i].parent.p].role.Sleepy?
    requires b.ps[i].role.Sleepy? ==> a.ps[i].role.Sleepy? || forall q :: 0 <= q < |a.ps| ==> !PastParent(a.ps[q])
    ensures ParentWoken(b)
  {
  }

  lemma PidsKept(a: Abs, b: Abs, i: nat)
    requires Changed(a, b, i) && Pids(a) && b.nextpid >= a.nextpid
    requires (b.ps[i].pid == a.ps[i].pid && !a.ps[i].life.Empty?) || b.ps[i].life.Empty? || (b.ps[i].pid == a.nextpid < b.nextpid)
    requires b.reaped == a.reaped || (b.reaped == a.reaped + [a.ps[i].pid] && !a.ps[i].life.Empty? && b.ps[i].life.Empty?)
    ensures Pids(b)
  {
  }

  // ---- Every step keeps the invariant ---------------------------------------------------------------

  /** A thread moves on: its role changes, perhaps wait_lock changes hands, and nothing
      else.  These conditions are what the protocol owes at such a step. */
  lemma RoleStep(a: Abs, b: Abs, p: nat)
    requires Inv(a) && Changed(a, b, p) && b.nextpid == a.nextpid && b.reaped == a.reaped && b.ps[p] == a.ps[p].(role := b.ps[p].role)
    requires HoldsWait(b.ps[p].role) <==> b.wl == HeldBy(p)
    requires b.wl == a.wl || ((a.wl == Open || a.wl == HeldBy(p)) && (b.wl == Open || b.wl == HeldBy(p)))
    requires RoleFits(b.ps[p]) && Forks(b) && (p == a.init ==> !Exiting(b.ps[p].role))
    requires forall k :: 0 <= k < |a.ps| && k < Given(b.ps[p].role, |a.ps|) ==> a.ps[k].parent != ChildOf(p)
    requires Settled(b.ps[p]) ==> Settled(a.ps[p]) || forall k :: 0 <= k < |a.ps| && a.ps[k].parent == ChildOf(p) ==> !a.ps[k].life.Dead?
    requires InitPending(a) ==> InitPending(b) || !Settled(b.ps[b.init])
    requires forall k :: 0 <= k < |a.ps| && a.ps[k].parent == ChildOf(p) ==>
               && (b.ps[p].role.Scanning? && k < b.ps[p].role.k ==> !a.ps[k].life.Dead? && b.ps[p].role.have)
               && (b.ps[p].role.Scanned? ==> b.ps[p].role.have)
    requires PastParent(b.ps[p]) ==> !a.ps[a.ps[p].parent.p].role.Sleepy?
    requires b.ps[p].role.Sleepy? ==> a.ps[p].role.Sleepy? || forall q :: 0 <= q < |a.ps| ==> !PastParent(a.ps[q])
    ensures Inv(b)
  {
    WaitLockedKept(a, b, p);
    RolesKept(a, b, p);
    ParentsKept(a, b, p);
    OrphanedKept(a, b, p);
    NoLostKept(a, b, p);
    SeenKept(a, b, p);
    ParentWokenKept(a, b, p);
    PidsSame(a, b);
  }

  lemma PidsSame(a: Abs, b: Abs)
    requires Pids(a) && |b.ps| == |a.ps| && b.nextpid == a.nextpid && b.reaped == a.reaped
    requires forall i :: 0 <= i < |a.ps| ==> b.ps[i].life == a.ps[i].life && b.ps[i].pid == a.ps[i].pid
    ensures Pids(b)
  {
  }

  // Whoever holds wait_lock, nobody else is in exit or scanning.
  lemma Alone(a: Abs, p: nat, q: nat)
    requires Inv(a) && p < |a.ps| && q < |a.ps| && p != q && HoldsWait(a.ps[p].role)
    ensures a.wl == HeldBy(p) && !HoldsWait(a.ps[q].role) && !PastParent(a.ps[q])
  {
  }

  // No child of p is dead, but for init's about to be announced, or has passed its wakeup.
  ghost predicate NoNews(a: Abs, p: nat) {
    forall k :: 0 <= k < |a.ps| && a.ps[k].parent == ChildOf(p) ==>
      (a.ps[k].life.Dead? ==> p == a.init && InitPending(a)) && !PastParent(a.ps[k])
  }

  /** Somebody who is doing nothing may fall asleep in wait exactly when no child has news. */
  lemma SleepAgainIff(a: Abs, p: nat)
    requires Inv(a) && p < |a.ps| && a.ps[p].role == Quiet && a.ps[p].life == Live
    ensures Inv(Become(a, p, Sleepy(false))) <==> NoNews(a, p)
  {
    var b := Become(a, p, Sleepy(false));
    SleepAgainRest(a, b, p);
    SleepAgainLost(a, b, p);
    SleepAgainWoken(a, b, p);
  }

  lemma SleepAgainRest(a: Abs, b: Abs, p: nat)
    requires Inv(a) && p < |a.ps| && a.ps[p].role == Quiet && a.ps[p].life == Live && b == Become(a, p, Sleepy(false))
    ensures WaitLocked(b) && Roles(b) && Forks(b) && Parents(b) && Orphaned(b) && Seen(b) && Pids(b)
  {
    WaitLockedKept(a, b, p);
    RolesKept(a, b, p);
    ForksKept(a, b, p);
    ParentsKept(a, b, p);
    OrphanedKept(a, b, p);
    SeenKept(a, b, p);
    PidsKept(a, b, p);
  }

  lemma SleepAgainLost(a: Abs, b: Abs, p: nat)
    requires NoLost(a) && p < |a.ps| && a.ps[p].role == Quiet && b == Become(a, p, Sleepy(false))
    ensures NoLost(b) <==> forall k :: 0 <= k < |a.ps| && a.ps[k].parent == ChildOf(p) && a.ps[k].life.Dead? ==> p == a.init && InitPending(a)
  {
    assert InitPending(a) <==> InitPending(b);
    assert Settled(b.ps[p]);
    forall k | 0 <= k < |a.ps| ensures b.ps[k].parent == a.ps[k].parent && b.ps[k].life == a.ps[k].life && (k != p ==> b.ps[k] == a.ps[k]) {
    }
  }

  lemma SleepAgainWoken(a: Abs, b: Abs, p: nat)
    requires ParentWoken(a) && p < |a.ps| && a.ps[p].role == Quiet && b == Become(a, p, Sleepy(false))
    ensures ParentWoken(b) <==> forall k :: 0 <= k < |a.ps| && a.ps[k].parent == ChildOf(p) ==> !PastParent(a.ps[k])
  {
    assert !PastParent(a.ps[p]) && !PastParent(b.ps[p]);
    forall k | 0 <= k < |a.ps| && k != p ensures b.ps[k] == a.ps[k] {
    }
  }

  lemma WakeKeeps(a: Abs, p: nat)
    requires Inv(a) && Enabled(a, Wake(p))
    ensures Inv(Step(a, Wake(p)))
  {
    ForksKept(a, Step(a, Wake(p)), p);
    RoleStep(a, Step(a, Wake(p)), p);
  }

  lemma ExitStartKeeps(a: Abs, p: nat)
    requires Inv(a) && Enabled(a, ExitStart(p))
    ensures Inv(Step(a, ExitStart(p)))
  {
    ForksKept(a, Step(a, ExitStart(p)), p);
    RoleStep(a, Step(a, ExitStart(p)), p);
  }

  lemma LeaveKeeps(a: Abs, p: nat)
    requires Inv(a) && Enabled(a, Leave(p))
    ensures Inv(Step(a, Leave(p)))
  {
    ForksKept(a, Step(a, Leave(p)), p);
    RoleStep(a, Step(a, Leave(p)), p);
  }

  lemma WaitStartKeeps(a: Abs, p: nat)
    requires Inv(a) && Enabled(a, WaitStart(p))
    ensures Inv(Step(a, WaitStart(p)))
  {
    ForksKept(a, Step(a, WaitStart(p)), p);
    RoleStep(a, Step(a, WaitStart(p)), p);
  }

  lemma GiveUpKeeps(a: Abs, p: nat)
    requires Inv(a) && Enabled(a, GiveUp(p))
    ensures Inv(Step(a, GiveUp(p)))
  {
    ForksKept(a, Step(a, GiveUp(p)), p);
    RoleStep(a, Step(a, GiveUp(p)), p);
  }

  lemma GoSleepKeeps(a: Abs, p: nat)
    requires Inv(a) && Enabled(a, GoSleep(p))
    ensures Inv(Step(a, GoSleep(p)))
  {
    forall q | 0 <= q < |a.ps| ensures !PastParent(a.ps[q]) {
      if q != p {
        Alone(a, p, q);
      }
    }
    ForksKept(a, Step(a, GoSleep(p)), p);
    RoleStep(a, Step(a, GoSleep(p)), p);
  }

  lemma ReleaseKeeps(a: Abs, p: nat)
    requires Inv(a) && Enabled(a, Release(p))
    ensures Inv(Step(a, Release(p)))
  {
    ForksKept(a, Step(a, Release(p)), p);
    RoleStep(a, Step(a, Release(p)), p);
  }

  // ---- exit ----

  lemma WokenKeeps(a: Abs, j: nat, t: Parent)
    requires Inv(a) && j < |a.ps|
    ensures Inv(Woken(a, j, t)) && (t == ChildOf(j) ==> Woken(a, j, t).ps[j].role != Sleepy(false))
  {
    if t == ChildOf(j) && a.ps[j].role == Sleepy(false) {
      WakeKeeps(a, j);
    }
  }

  lemma WakeInitKeeps(a: Abs, p: nat)
    requires Inv(a) && Enabled(a, WakeInit(p))
    ensures Inv(Step(a, WakeInit(p)))
  {
    var k, j := a.ps[p].role.k, a.ps[p].role.j;
    if j >= |a.ps| {
      WakeInitEnds(a, p, k, j);
    } else {
      WokenKeeps(a, j, ChildOf(a.init));
      WakeInitIs(a, p, k, j);
      WakeInitMoves(Woken(a, j, ChildOf(a.init)), Step(a, WakeInit(p)), p, k, j);
    }
  }

  lemma WakeInitIs(a: Abs, p: nat, k: nat, j: nat)
    requires p < |a.ps| && a.ps[p].role == WakingInit(k, j) && j < |a.ps|
    ensures var w := Woken(a, j, ChildOf(a.init));
            w.ps[p] == a.ps[p] && Step(a, WakeInit(p)) == Become(w, p, WakingInit(k, j + 1))
  {
  }

  lemma WakeInitEnds(a: Abs, p: nat, k: nat, j: nat)
    requires Inv(a) && p < |a.ps| && a.ps[p].role == WakingInit(k, j) && j >= |a.ps|
    ensures Inv(Step(a, WakeInit(p)))
  {
    ForksKept(a, Step(a, WakeInit(p)), p);
    RoleStep(a, Step(a, WakeInit(p)), p);
  }

  // The loop goes on once there is nobody to wake at j.
  lemma WakeInitMoves(a: Abs, b: Abs, p: nat, k: nat, j: nat)
    requires Inv(a) && p < |a.ps| && a.ps[p].role == WakingInit(k, j) && b == Become(a, p, WakingInit(k, j + 1))
    requires j == a.init ==> a.ps[a.init].role != Sleepy(false)
    ensures Inv(b)
  {
    Alone(a, p, a.init);
    ForksKept(a, b, p);
    RoleStep(a, b, p);
  }

  lemma WakeParentKeeps(a: Abs, p: nat)
    requires Inv(a) && Enabled(a, WakeParent(p))
    ensures Inv(Step(a, WakeParent(p)))
  {
    var j := a.ps[p].role.j;
    if j >= |a.ps| {
      WakeParentEnds(a, p, j);
    } else {
      WokenKeeps(a, j, a.ps[p].parent);
      WakeParentIs(a, p, j);
      WakeParentMoves(Woken(a, j, a.ps[p].parent), Step(a, WakeParent(p)), p, j);
    }
  }

  lemma WakeParentIs(a: Abs, p: nat, j: nat)
    requires p < |a.ps| && a.ps[p].role == WakingParent(j) && j < |a.ps|
    ensures var w := Woken(a, j, a.ps[p].parent);
            w.ps[p] == a.ps[p] && Step(a, WakeParent(p)) == Become(w, p, WakingParent(j + 1))
  {
  }

  lemma WakeParentEnds(a: Abs, p: nat, j: nat)
    requires Inv(a) && p < |a.ps| && a.ps[p].role == WakingParent(j) && j >= |a.ps|
    ensures Inv(Step(a, WakeParent(p)))
  {
    ForksKept(a, Step(a, WakeParent(p)), p);
    RoleStep(a, Step(a, WakeParent(p)), p);
  }

  lemma WakeParentMoves(a: Abs, b: Abs, p: nat, j: nat)
    requires Inv(a) && p < |a.ps| && a.ps[p].role == WakingParent(j) && j < |a.ps| && b == Become(a, p, WakingParent(j + 1))
    requires a.ps[p].parent == ChildOf(j) ==> a.ps[j].role != Sleepy(false)
    ensures Inv(b)
  {
    if a.ps[p].parent.ChildOf? {
      Alone(a, p, a.ps[p].parent.p);
    }
    ForksKept(a, b, p);
    RoleStep(a, b, p);
  }

  lemma GiveKeeps(a: Abs, p: nat)
    requires Inv(a) && Enabled(a, Give(p))
    ensures Inv(Step(a, Give(p)))
  {
    var k := a.ps[p].role.k;
    if k < |a.ps| && a.ps[k].parent == ChildOf(p) {
      GiveChild(a, p, k);
    } else {
      GiveMoves(a, Step(a, Give(p)), p, k);
    }
  }

  lemma GiveMoves(a: Abs, b: Abs, p: nat, k: nat)
    requires Inv(a) && p < |a.ps| && a.ps[p].role == Giving(k) && !(k < |a.ps| && a.ps[k].parent == ChildOf(p))
    requires b == if k >= |a.ps| then Become(a, p, WakingParent(0)) else Become(a, p, Giving(k + 1))
    ensures Inv(b)
  {
    ForksKept(a, b, p);
    RoleStep(a, b, p);
  }

  // A child goes to init: each part sees the two changes in the order that suits it.
  lemma GiveChild(a: Abs, p: nat, k: nat)
    requires Inv(a) && Enabled(a, Give(p)) && k == a.ps[p].role.k < |a.ps| && a.ps[k].parent == ChildOf(p)
    ensures Inv(Step(a, Give(p)))
  {
    var b := Step(a, Give(p));
    GiveChildMoves(a, p, k);
    GivenTree(a, b, p, k);
    GivenOrphans(a, b, p, k);
    GivenWait(a, b, p, k);
    PidsSame(a, b);
  }

  ghost predicate Given?(a: Abs, b: Abs, p: nat, k: nat) {
    && p < |a.ps| && k < |a.ps| && k != p && k != a.init && p != a.init && a.ps[p].role == Giving(k) && a.ps[k].parent == ChildOf(p)
    && a.init < |a.ps| && b == Become(With(a, k, a.ps[k].(parent := ChildOf(a.init))), p, WakingInit(k, 0))
  }

  lemma GivenTree(a: Abs, b: Abs, p: nat, k: nat)
    requires Given?(a, b, p, k)
    requires var moved := Become(a, p, WakingInit(k, 0)); WaitLocked(moved) && Roles(moved) && Forks(moved) && Parents(moved)
    requires !a.ps[k].life.Empty? && Forks(a)
    ensures WaitLocked(b) && Roles(b) && Forks(b) && Parents(b)
  {
    var moved := Become(a, p, WakingInit(k, 0));
    WaitLockedKept(moved, b, k);
    RolesKept(moved, b, k);
    ForksKept(moved, b, k);
    ParentsKept(moved, b, k);
  }

  // reparent has then taken its children out of one slot more.
  lemma GivenOrphans(a: Abs, b: Abs, p: nat, k: nat)
    requires Given?(a, b, p, k) && Orphaned(a) && !HoldsWait(a.ps[a.init].role)
    requires Orphaned(With(a, k, a.ps[k].(parent := ChildOf(a.init))))
    ensures Orphaned(b)
  {
    OrphanedKept(With(a, k, a.ps[k].(parent := ChildOf(a.init))), b, p);
  }

  lemma GivenWait(a: Abs, b: Abs, p: nat, k: nat)
    requires Given?(a, b, p, k) && WaitLocked(a)
    requires var moved := Become(a, p, WakingInit(k, 0));
             WaitLocked(moved) && NoLost(moved) && Seen(moved) && ParentWoken(moved)
    requires !HoldsWait(a.ps[a.init].role)
    ensures NoLost(b) && Seen(b) && ParentWoken(b)
  {
    var moved := Become(a, p, WakingInit(k, 0));
    NoLostKept(moved, b, k);
    SeenKept(moved, b, k);
    ParentWokenKept(moved, b, k);
  }

  lemma GiveChildMoves(a: Abs, p: nat, k: nat)
    requires Inv(a) && Enabled(a, Give(p)) && k == a.ps[p].role.k < |a.ps| && a.ps[k].parent == ChildOf(p)
    ensures k != p && k != a.init && p != a.init && !HoldsWait(a.ps[a.init].role)
    ensures var b := Become(a, p, WakingInit(k, 0));
            WaitLocked(b) && Roles(b) && Forks(b) && Parents(b) && NoLost(b) && Seen(b) && ParentWoken(b)
    ensures Orphaned(With(a, k, a.ps[k].(parent := ChildOf(a.init))))
  {
    Alone(a, p, a.init);
    OrphanedKept(a, With(a, k, a.ps[k].(parent := ChildOf(a.init))), k);
    StartsWaking(a, Become(a, p, WakingInit(k, 0)), p, k);
  }

  lemma StartsWaking(a: Abs, b: Abs, p: nat, k: nat)
    requires WaitLocked(a) && Roles(a) && Forks(a) && Parents(a) && NoLost(a) && Seen(a) && ParentWoken(a)
    requires p < |a.ps| && k < |a.ps| && p != a.init && a.ps[p].role == Giving(k) && b == Become(a, p, WakingInit(k, 0))
    ensures WaitLocked(b) && Roles(b) && Forks(b) && Parents(b) && NoLost(b) && Seen(b) && ParentWoken(b)
  {
    WaitLockedKept(a, b, p);
    RolesKept(a, b, p);
    ForksKept(a, b, p);
    ParentsKept(a, b, p);
    NoLostKept(a, b, p);
    SeenKept(a, b, p);
    ParentWokenKept(a, b, p);
  }

  lemma DieKeeps(a: Abs, p: nat)
    requires Inv(a) && Enabled(a, Die(p))
    ensures Inv(Step(a, Die(p)))
  {
    var b := Step(a, Die(p));
    if a.ps[p].parent.ChildOf? {
      Alone(a, p, a.ps[p].parent.p);
    }
    WaitLockedKept(a, b, p);
    RolesKept(a, b, p);
    ForksKept(a, b, p);
    ParentsKept(a, b, p);
    OrphanedKept(a, b, p);
    NoLostKept(a, b, p);
    SeenKept(a, b, p);
    ParentWokenKept(a, b, p);
    PidsKept(a, b, p);
  }

  // ---- wait ----

  lemma ScanKeeps(a: Abs, p: nat, copied: bool)
    requires Inv(a) && Enabled(a, Scan(p, copied))
    ensures Inv(Step(a, Scan(p, copied)))
  {
    var k := a.ps[p].role.k;
    if k < |a.ps| && a.ps[k].parent == ChildOf(p) && a.ps[k].life.Dead? {
      if copied {
        Alone(a, p, k);
        BuryKeeps(a, k);
        ScanEnds(Buried(a, k), p);
      } else {
        ScanEnds(a, p);
      }
    } else {
      ScanMoves(a, p, copied);
    }
  }

  lemma ScanEnds(a: Abs, p: nat)
    requires Inv(a) && p < |a.ps| && a.ps[p].role.Scanning?
    ensures Inv(Become(a, p, Quiet).(wl := Open))
  {
    ForksKept(a, Become(a, p, Quiet).(wl := Open), p);
    RoleStep(a, Become(a, p, Quiet).(wl := Open), p);
  }

  lemma ScanMoves(a: Abs, p: nat, copied: bool)
    requires Inv(a) && Enabled(a, Scan(p, copied))
    requires var k := a.ps[p].role.k; !(k < |a.ps| && a.ps[k].parent == ChildOf(p) && a.ps[k].life.Dead?)
    ensures Inv(Step(a, Scan(p, copied)))
  {
    ForksKept(a, Step(a, Scan(p, copied)), p);
    RoleStep(a, Step(a, Scan(p, copied)), p);
  }

  // freeproc of a dead child.
  function Buried(a: Abs, k: nat): Abs
    requires k < |a.ps|
  {
    With(a, k, a.ps[k].(life := Empty, parent := NoParent, pid := 0)).(reaped := a.reaped + [a.ps[k].pid])
  }

  lemma BuryKeeps(a: Abs, k: nat)
    requires Inv(a) && k < |a.ps| && a.ps[k].life.Dead? && a.ps[k].role.Quiet?
    ensures Inv(Buried(a, k))
  {
    var b := Buried(a, k);
    WaitLockedKept(a, b, k);
    RolesKept(a, b, k);
    ForksKept(a, b, k);
    ParentsKept(a, b, k);
    OrphanedKept(a, b, k);
    NoLostKept(a, b, k);
    SeenKept(a, b, k);
    ParentWokenKept(a, b, k);
    PidsKept(a, b, k);
  }

  // ---- fork ----

  lemma ForkKeeps(a: Abs, p: nat, np: nat, ok: bool)
    requires Inv(a) && Enabled(a, Fork(p, np, ok))
    ensures Inv(Step(a, Fork(p, np, ok)))
  {
    if ok {
      BirthKeeps(a, np);
      ForkIs(a, p, np);
      LinkingKeeps(Born(a, np), Step(a, Fork(p, np, ok)), p, np);
    } else {
      PidsMore(a, Step(a, Fork(p, np, ok)));
    }
  }

  lemma ForkIs(a: Abs, p: nat, np: nat)
    requires Enabled(a, Fork(p, np, true))
    ensures p != np && Born(a, np).ps[p] == a.ps[p] && Step(a, Fork(p, np, true)) == Become(Born(a, np), p, Linking(np))
  {
  }

  lemma PidsMore(a: Abs, b: Abs)
    requires Inv(a) && b == a.(nextpid := a.nextpid + 1)
    ensures Inv(b)
  {
    var i := a.init;
    WaitLockedKept(a, b, i);
    RolesKept(a, b, i);
    ForksKept(a, b, i);
    ParentsKept(a, b, i);
    OrphanedKept(a, b, i);
    NoLostKept(a, b, i);
    SeenKept(a, b, i);
    ParentWokenKept(a, b, i);
    PidsKept(a, b, i);
  }

  // allocproc.
  function Born(a: Abs, np: nat): Abs
    requires np < |a.ps|
  {
    With(a, np, a.ps[np].(life := Embryo, pid := a.nextpid)).(nextpid := a.nextpid + 1)
  }

  lemma BirthKeeps(a: Abs, np: nat)
    requires Inv(a) && np < |a.ps| && a.ps[np].life.Empty? && a.ps[np].role.Quiet?
    ensures Inv(Born(a, np)) && a.ps[np].parent == NoParent
    ensures forall q :: 0 <= q < |a.ps| && Forking(a.ps[q].role) ==> a.ps[q].role.np != np
  {
    var b := Born(a, np);
    WaitLockedKept(a, b, np);
    RolesKept(a, b, np);
    ForksKept(a, b, np);
    ParentsKept(a, b, np);
    OrphanedKept(a, b, np);
    NoLostKept(a, b, np);
    SeenKept(a, b, np);
    ParentWokenKept(a, b, np);
    PidsKept(a, b, np);
  }

  lemma LinkingKeeps(a: Abs, b: Abs, p: nat, np: nat)
    requires Inv(a) && p < |a.ps| && np < |a.ps| && p != np && a.ps[p].role.Quiet? && a.ps[p].life.Live?
    requires a.ps[np].life == Embryo && a.ps[np].parent == NoParent && b == Become(a, p, Linking(np))
    requires forall q :: 0 <= q < |a.ps| && Forking(a.ps[q].role) ==> a.ps[q].role.np != np
    ensures Inv(b)
  {
    ForksKept(a, b, p);
    RoleStep(a, b, p);
  }

  lemma ReadyingKeeps(a: Abs, p: nat, np: nat)
    requires Inv(a) && p < |a.ps| && a.ps[p].role == Linking(np)
    ensures Inv(Become(a, p, Readying(np)))
  {
    ForksKept(a, Become(a, p, Readying(np)), p);
    RoleStep(a, Become(a, p, Readying(np)), p);
  }

  lemma ForkDone(a: Abs, p: nat, np: nat)
    requires Inv(a) && p < |a.ps| && a.ps[p].role == Readying(np)
    ensures Inv(Become(a, p, Quiet))
    ensures forall q :: 0 <= q < |a.ps| && q != p && Forking(a.ps[q].role) ==> a.ps[q].role.np != np
  {
    ForksKept(a, Become(a, p, Quiet), p);
    RoleStep(a, Become(a, p, Quiet), p);
  }

  lemma LinkKeeps(a: Abs, p: nat)
    requires Inv(a) && Enabled(a, Link(p))
    ensures Inv(Step(a, Link(p)))
  {
    var np := a.ps[p].role.np;
    ReadyingKeeps(a, p, np);
    var b := Become(a, p, Readying(np));
    AdoptKeeps(b, p, np);
    assert Step(a, Link(p)).ps == b.ps[np := b.ps[np].(parent := ChildOf(p))];
  }

  lemma AdoptKeeps(a: Abs, p: nat, np: nat)
    requires Inv(a) && a.wl.Open? && p < |a.ps| && a.ps[p].role == Readying(np) && a.ps[np].parent == NoParent
    ensures Inv(With(a, np, a.ps[np].(parent := ChildOf(p))))
  {
    var b := With(a, np, a.ps[np].(parent := ChildOf(p)));
    WaitLockedKept(a, b, np);
    RolesKept(a, b, np);
    ForksKept(a, b, np);
    ParentsKept(a, b, np);
    OrphanedKept(a, b, np);
    NoLostKept(a, b, np);
    SeenKept(a, b, np);
    ParentWokenKept(a, b, np);
    PidsSame(a, b);
  }

  lemma ReadyKeeps(a: Abs, p: nat)
    requires Inv(a) && Enabled(a, Ready(p))
    ensures Inv(Step(a, Ready(p)))
  {
    var np := a.ps[p].role.np;
    ForkDone(a, p, np);
    ReadyIs(a, p, np);
    LiveKeeps(Become(a, p, Quiet), np);
  }

  lemma ReadyIs(a: Abs, p: nat, np: nat)
    requires Enabled(a, Ready(p)) && np == a.ps[p].role.np && np != p
    ensures var b := Become(a, p, Quiet); Step(a, Ready(p)) == With(b, np, b.ps[np].(life := Live))
  {
    var b := Become(a, p, Quiet);
    assert Step(a, Ready(p)).ps == b.ps[np := b.ps[np].(life := Live)];
  }

  lemma LiveKeeps(a: Abs, np: nat)
    requires Inv(a) && np < |a.ps| && a.ps[np].life == Embryo
    requires forall q :: 0 <= q < |a.ps| && Forking(a.ps[q].role) ==> a.ps[q].role.np != np
    ensures Inv(With(a, np, a.ps[np].(life := Live)))
  {
    var b := With(a, np, a.ps[np].(life := Live));
    WaitLockedKept(a, b, np);
    RolesKept(a, b, np);
    ForksKept(a, b, np);
    ParentsKept(a, b, np);
    OrphanedKept(a, b, np);
    NoLostKept(a, b, np);
    SeenKept(a, b, np);
    ParentWokenKept(a, b, np);
    PidsKept(a, b, np);
  }

  /** Every step of the protocol keeps the invariant. */
  lemma StepKeepsInv(a: Abs, act: Action)
    requires Inv(a) && Enabled(a, act)
    ensures Inv(Step(a, act))
  {
    match act
    case Fork(p, np, ok) => ForkKeeps(a, p, np, ok);
    case Link(p) => LinkKeeps(a, p);
    case Ready(p) => ReadyKeeps(a, p);
    case ExitStart(p) => ExitStartKeeps(a, p);
    case Give(p) => GiveKeeps(a, p);
    case WakeInit(p) => WakeInitKeeps(a, p);
    case WakeParent(p) => WakeParentKeeps(a, p);
    case Die(p) => DieKeeps(a, p);
    case Leave(p) => LeaveKeeps(a, p);
    case WaitStart(p) => WaitStartKeeps(a, p);
    case Scan(p, copied) => ScanKeeps(a, p, copied);
    case GiveUp(p) => GiveUpKeeps(a, p);
    case GoSleep(p) => GoSleepKeeps(a, p);
    case Release(p) => ReleaseKeeps(a, p);
    case Wake(p) => WakeKeeps(a, p);
    case Nothing =>
  }
}
