/** begin_op, log_write, end_op and commit as steps of any number of processes,
    each atomic under log.lock: who may enter a transaction, and who wakes whom. */
module LogAdmission {
  import opened Basics

  /** Where a process stands: outside any operation; asleep in begin_op; woken and
      about to test again; inside an operation that has logged these blocks; in
      commit, before or after the log has been emptied. */
  datatype Phase =
    | Outside
    | Asleep
    | Woken
    | Active(logged: set<nat>)
    | Committing(emptied: bool)

  datatype State = State(size: nat, outstanding: nat, committing: bool, blocks: seq<nat>, procs: seq<Phase>)

  datatype Step =
    | TryBegin(p: nat)
    | LogWrite(p: nat, b: nat)
    | End(p: nat)
    | Empty(p: nat)
    | Finish(p: nat)

  // ---- The steps -------------------------------------------------------------

  predicate MustWait(s: State) {
    s.committing || |s.blocks| + (s.outstanding + 1) * MAXOPBLOCKS > LOGSIZE
  }

  predicate Panics(s: State) {
    |s.blocks| >= LOGSIZE || |s.blocks| >= s.size - 1
  }

  function Wake(procs: seq<Phase>): (r: seq<Phase>)
    ensures |r| == |procs|
    ensures forall i :: 0 <= i < |procs| ==> r[i] == if procs[i].Asleep? then Woken else procs[i]
  {
    seq(|procs|, i requires 0 <= i < |procs| => if procs[i].Asleep? then Woken else procs[i])
  }

  // A step the processes can take.  An operation's contract is to log at most
  // MAXOPBLOCKS distinct blocks; a panic stops the machine, so it is no step.
  predicate Enabled(s: State, step: Step) {
    && step.p < |s.procs|
    && var ph := s.procs[step.p];
       match step
       case TryBegin(_) => ph.Outside? || ph.Woken?
       case LogWrite(_, b) => ph.Active? && |ph.logged + {b}| <= MAXOPBLOCKS && !Panics(s)
       case End(_) => ph.Active?
       case Empty(_) => ph == Committing(false)
       case Finish(_) => ph == Committing(true)
  }

  function Do(s: State, step: Step): (r: State)
    requires Enabled(s, step)
  {
    var p := step.p;
    match step
    case TryBegin(_) =>
      if MustWait(s) then s.(procs := s.procs[p := Asleep])
      else s.(outstanding := s.outstanding + 1, procs := s.procs[p := Active({})])
    case LogWrite(_, b) =>
      s.(blocks := if b in s.blocks then s.blocks else s.blocks + [b],
         procs := s.procs[p := Active(s.procs[p].logged + {b})])
    case End(_) =>
      var left := if s.outstanding > 0 then s.outstanding - 1 else 0;
      if left == 0 then s.(outstanding := left, committing := true, procs := s.procs[p := Committing(false)])
      else s.(outstanding := left, procs := Wake(s.procs[p := Outside]))
    case Empty(_) =>
      s.(blocks := [], procs := s.procs[p := Committing(true)])
    case Finish(_) =>
      s.(committing := false, procs := Wake(s.procs[p := Outside]))
  }

  function Init(size: nat, n: nat): State {
    State(size, 0, false, [], seq(n, _ => Outside))
  }

  // ---- Counting --------------------------------------------------------------

  function ActiveCount(procs: seq<Phase>): nat {
    if procs == [] then 0 else ActiveCount(procs[1..]) + (if procs[0].Active? then 1 else 0)
  }

  // What one process may still add to the log.
  function Unused(ph: Phase): nat {
    if ph.Active? && |ph.logged| <= MAXOPBLOCKS then MAXOPBLOCKS - |ph.logged| else 0
  }

  // Log space reserved by running operations and not used yet.
  function Reserved(procs: seq<Phase>): (r: nat)
    ensures r <= MAXOPBLOCKS * ActiveCount(procs)
  {
    if procs == [] then 0 else Reserved(procs[1..]) + Unused(procs[0])
  }

  lemma {:induction false} Update(procs: seq<Phase>, p: nat, ph: Phase)
    requires p < |procs|
    ensures ActiveCount(procs[p := ph]) - (if ph.Active? then 1 else 0) == ActiveCount(procs) - (if procs[p].Active? then 1 else 0)
    ensures Reserved(procs[p := ph]) - Unused(ph) == Reserved(procs) - Unused(procs[p])
  {
    if p == 0 {
      assert procs[p := ph][1..] == procs[1..];
    } else {
      assert procs[p := ph][1..] == procs[1..][p - 1 := ph];
      Update(procs[1..], p - 1, ph);
    }
  }

  lemma {:induction false} WakeCounts(procs: seq<Phase>)
    ensures ActiveCount(Wake(procs)) == ActiveCount(procs) && Reserved(Wake(procs)) == Reserved(procs)
  {
    if procs != [] {
      WakeCounts(procs[1..]);
      assert Wake(procs)[1..] == Wake(procs[1..]);
    }
  }

  lemma {:induction false} SomeActive(procs: seq<Phase>)
    ensures ActiveCount(procs) > 0 <==> exists i :: 0 <= i < |procs| && procs[i].Active?
  {
    if procs != [] {
      SomeActive(procs[1..]);
      assert procs[0].Active? || forall i :: 0 <= i < |procs| && procs[i].Active? ==> procs[1..][i - 1].Active?;
      assert forall i :: 0 <= i < |procs| - 1 ==> procs[1..][i] == procs[i + 1];
    }
  }

  lemma {:induction false} InitCounts(n: nat)
    ensures ActiveCount(seq(n, _ => Outside)) == 0 && Reserved(seq(n, _ => Outside)) == 0
  {
    if n > 0 {
      var s: seq<Phase> := seq(n, _ => Outside);
      assert s[1..] == seq(n - 1, _ => Outside);
      InitCounts(n - 1);
    }
  }

  // ---- The invariant -----------------------------------------------------------

  ghost predicate ProcOk(s: State, i: nat)
    requires i < |s.procs|
  {
    match s.procs[i]
    case Active(logged) => |logged| <= MAXOPBLOCKS && forall b :: b in logged ==> b in s.blocks
    case Asleep => MustWait(s)
    case Committing(emptied) => s.committing && (emptied ==> s.blocks == [])
    case _ => true
  }

  ghost predicate OneCommitter(s: State) {
    && (forall i, j :: 0 <= i < j < |s.procs| ==> !(s.procs[i].Committing? && s.procs[j].Committing?))
    && (s.committing ==> exists i :: 0 <= i < |s.procs| && s.procs[i].Committing?)
  }

  ghost predicate Inv(s: State) {
    && s.outstanding == ActiveCount(s.procs)
    && |s.blocks| + Reserved(s.procs) <= LOGSIZE
    && (s.committing ==> s.outstanding == 0)
    && (s.outstanding == 0 && !s.committing ==> s.blocks == [])
    && OneCommitter(s)
    && forall i :: 0 <= i < |s.procs| ==> ProcOk(s, i)
  }

  lemma StepKeepsInv(s: State, step: Step)
    requires Inv(s) && Enabled(s, step)
    ensures Inv(Do(s, step))
  {
    var p := step.p;
    assert ProcOk(s, p);
    SomeActive(s.procs);
    match step
    case TryBegin(_) => BeginKeepsInv(s, p);
    case LogWrite(_, b) => LogWriteKeepsInv(s, p, b);
    case End(_) => EndKeepsInv(s, p);
    case Empty(_) => EmptyKeepsInv(s, p);
    case Finish(_) => FinishKeepsInv(s, p);
  }

  lemma BeginKeepsInv(s: State, p: nat)
    requires Inv(s) && Enabled(s, TryBegin(p))
    ensures Inv(Do(s, TryBegin(p)))
  {
    var t := Do(s, TryBegin(p));
    Update(s.procs, p, t.procs[p]);
    forall i | 0 <= i < |t.procs| ensures ProcOk(t, i) {
      assert ProcOk(s, i);
    }
    CommitterKept(s, t, p);
  }

  lemma CommitterKept(s: State, t: State, p: nat)
    requires OneCommitter(s) && p < |s.procs| == |t.procs| && t.procs == s.procs[p := t.procs[p]]
    requires s.procs[p].Committing? == t.procs[p].Committing? && t.committing == s.committing
    ensures OneCommitter(t)
  {
    if s.committing {
      var i :| 0 <= i < |s.procs| && s.procs[i].Committing?;
      assert t.procs[i].Committing?;
    }
  }

  lemma LogWriteKeepsInv(s: State, p: nat, b: nat)
    requires Inv(s) && Enabled(s, LogWrite(p, b))
    ensures Inv(Do(s, LogWrite(p, b)))
  {
    var t := Do(s, LogWrite(p, b));
    Update(s.procs, p, t.procs[p]);
    assert ProcOk(s, p);
    var logged := s.procs[p].logged;
    assert b in logged ==> logged + {b} == logged;
    assert b !in logged ==> |logged + {b}| == |logged| + 1;
    forall i | 0 <= i < |t.procs| ensures ProcOk(t, i) {
      assert ProcOk(s, i);
    }
    SomeActive(s.procs);
    CommitterKept(s, t, p);
  }

  lemma EndKeepsInv(s: State, p: nat)
    requires Inv(s) && Enabled(s, End(p))
    ensures Inv(Do(s, End(p)))
  {
    var t := Do(s, End(p));
    SomeActive(s.procs);
    var ph := if t.committing then Committing(false) else Outside;
    Update(s.procs, p, ph);
    WakeCounts(s.procs[p := ph]);
    SomeActive(s.procs[p := ph]);
    forall i | 0 <= i < |t.procs| ensures ProcOk(t, i) {
      assert ProcOk(s, i);
    }
    if t.committing {
      assert t.procs[p].Committing?;
    }
    assert forall i :: 0 <= i < |s.procs| && s.procs[i].Committing? ==> ProcOk(s, i);
  }

  lemma EmptyKeepsInv(s: State, p: nat)
    requires Inv(s) && Enabled(s, Empty(p))
    ensures Inv(Do(s, Empty(p)))
  {
    var t := Do(s, Empty(p));
    Update(s.procs, p, t.procs[p]);
    assert ProcOk(s, p);
    SomeActive(s.procs);
    forall i | 0 <= i < |t.procs| ensures ProcOk(t, i) {
      assert ProcOk(s, i);
    }
    CommitterKept(s, t, p);
  }

  lemma FinishKeepsInv(s: State, p: nat)
    requires Inv(s) && Enabled(s, Finish(p))
    ensures Inv(Do(s, Finish(p)))
  {
    var t := Do(s, Finish(p));
    Update(s.procs, p, Outside);
    WakeCounts(s.procs[p := Outside]);
    assert ProcOk(s, p);
    SomeActive(s.procs);
    forall i | 0 <= i < |t.procs| ensures ProcOk(t, i) {
      assert ProcOk(s, i);
    }
  }

  // ---- Whole runs --------------------------------------------------------------

  predicate CanRun(s: State, steps: seq<Step>)
    decreases |steps|
  {
    steps == [] || (Enabled(s, steps[0]) && CanRun(Do(s, steps[0]), steps[1..]))
  }

  function Run(s: State, steps: seq<Step>): (r: State)
    requires CanRun(s, steps)
    decreases |steps|
  {
    if steps == [] then s else Run(Do(s, steps[0]), steps[1..])
  }

  lemma {:induction false} RunKeepsInv(s: State, steps: seq<Step>)
    requires Inv(s) && CanRun(s, steps)
    ensures Inv(Run(s, steps))
    decreases |steps|
  {
    if steps != [] {
      StepKeepsInv(s, steps[0]);
      RunKeepsInv(Do(s, steps[0]), steps[1..]);
    }
  }

  ghost predicate Reachable(s: State) {
    exists n: nat, steps: seq<Step> :: CanRun(Init(s.size, n), steps) && Run(Init(s.size, n), steps) == s
  }

  lemma ReachableInv(s: State)
    requires Reachable(s)
    ensures Inv(s)
  {
    var n: nat, steps: seq<Step> :| CanRun(Init(s.size, n), steps) && Run(Init(s.size, n), steps) == s;
    InitCounts(n);
    RunKeepsInv(Init(s.size, n), steps);
  }

  /** The log never fills up: the logged blocks and everything running operations may
      still add fit in LOGSIZE, and the log is empty whenever nobody is inside. */
  lemma LogSpaceHolds(s: State)
    requires Reachable(s)
    ensures |s.blocks| + Reserved(s.procs) <= LOGSIZE
    ensures s.outstanding == ActiveCount(s.procs)
    ensures s.outstanding == 0 && !s.committing ==> s.blocks == []
  {
    ReachableInv(s);
  }

  /** No wakeup is lost: whoever is asleep in begin_op would still have to wait, and
      some process is inside an operation or a commit whose end wakes all sleepers. */
  lemma SleepersHaveAWaker(s: State, p: nat)
    requires Reachable(s) && p < |s.procs| && s.procs[p].Asleep?
    ensures MustWait(s)
    ensures exists q :: 0 <= q < |s.procs| && (s.procs[q].Active? || s.procs[q].Committing?)
  {
    ReachableInv(s);
    assert ProcOk(s, p);
    SomeActive(s.procs);
  }

  // An operation's end that is not the last, and a finished commit, leave nobody asleep.
  lemma EndsWakeEveryone(s: State, step: Step)
    requires Reachable(s) && Enabled(s, step)
    requires step.Finish? || (step.End? && s.outstanding > 1)
    ensures forall i :: 0 <= i < |s.procs| ==> !Do(s, step).procs[i].Asleep?
  {
  }

  // end_op never finds a commit running, and log_write never runs outside.
  lemma InsideMeansNoCommit(s: State, p: nat)
    requires Reachable(s) && p < |s.procs| && s.procs[p].Active?
    ensures !s.committing && s.outstanding >= 1
  {
    ReachableInv(s);
    SomeActive(s.procs);
  }

  // ---- When log_write panics -----------------------------------------------------

  // An operation within its budget is about to log a block that is not logged yet.
  predicate FreshWrite(s: State, p: nat, b: nat) {
    p < |s.procs| && s.procs[p].Active? && |s.procs[p].logged| < MAXOPBLOCKS && b !in s.blocks
  }

  lemma {:induction false} RunThen(s: State, steps: seq<Step>, step: Step)
    requires CanRun(s, steps) && Enabled(Run(s, steps), step)
    ensures CanRun(s, steps + [step]) && Run(s, steps + [step]) == Do(Run(s, steps), step)
    decreases |steps|
  {
    if steps == [] {
      assert steps + [step] == [step];
    } else {
      assert (steps + [step])[1..] == steps[1..] + [step];
      RunThen(Do(s, steps[0]), steps[1..], step);
    }
  }

  lemma ReachThen(s: State, step: Step)
    requires Reachable(s) && Enabled(s, step)
    ensures Reachable(Do(s, step))
  {
    var n: nat, steps: seq<Step> :| CanRun(Init(s.size, n), steps) && Run(Init(s.size, n), steps) == s;
    RunThen(Init(s.size, n), steps, step);
  }

  // Three operations; blocks 0..k-1 logged, ten by each in turn.
  ghost predicate Filled(s: State, k: nat) {
    && Reachable(s) && |s.procs| == 3 && |s.blocks| == k
    && (forall b :: b in s.blocks ==> b < k)
    && forall i :: 0 <= i < 3 ==> s.procs[i].Active? && s.procs[i].logged <= (set b | b in s.blocks) && |s.procs[i].logged| == Share(i, k)
  }

  function Share(i: nat, k: nat): nat {
    if k <= 10 * i then 0 else if k <= 10 * i + 10 then k - 10 * i else 10
  }

  lemma ThreeBegin(size: nat) returns (s: State)
    ensures s.size == size && Filled(s, 0)
  {
    var s0 := Init(size, 3);
    assert CanRun(s0, []) && Run(s0, []) == s0;
    var s1 := Do(s0, TryBegin(0));
    ReachThen(s0, TryBegin(0));
    var s2 := Do(s1, TryBegin(1));
    ReachThen(s1, TryBegin(1));
    s := Do(s2, TryBegin(2));
    ReachThen(s2, TryBegin(2));
  }

  lemma FillStep(s: State, k: nat, p: nat)
    requires Filled(s, k) && k < s.size - 1 && p < 3 && 10 * p <= k < 10 * p + 10
    ensures Enabled(s, LogWrite(p, k)) && Filled(Do(s, LogWrite(p, k)), k + 1)
  {
    assert k !in s.blocks;
    assert |s.procs[p].logged + {k}| == |s.procs[p].logged| + 1;
    ReachThen(s, LogWrite(p, k));
  }

  lemma {:induction false} FillTo(size: nat, k: nat) returns (s: State)
    requires k <= 30 && (k == 0 || k <= size - 1)
    ensures s.size == size && Filled(s, k)
  {
    if k == 0 {
      s := ThreeBegin(size);
    } else {
      s := FillTo(size, k - 1);
      var p := (k - 1) / 10;
      FillStep(s, k - 1, p);
      s := Do(s, LogWrite(p, k - 1));
    }
  }

  /** A log of `size` blocks never stops an operation that stays within its budget and
      logs a new block, exactly when size > LOGSIZE.  mkfs makes it LOGSIZE, so the
      30th block of a full transaction panics. */
  lemma FreshWritesSafeIff(size: nat)
    ensures size > LOGSIZE <==>
              forall s: State, p: nat, b: nat :: Reachable(s) && s.size == size && FreshWrite(s, p, b) ==> !Panics(s)
  {
    if size > LOGSIZE {
      forall s: State, p: nat, b: nat | Reachable(s) && s.size == size && FreshWrite(s, p, b) ensures !Panics(s) {
        FreshWriteFits(s, p, b);
      }
    } else {
      var k := if size == 0 then 0 else size - 1;
      var s := FillTo(size, k);
      assert FreshWrite(s, k / 10, k) && Panics(s);
    }
  }

  lemma FreshWriteFits(s: State, p: nat, b: nat)
    requires Reachable(s) && s.size > LOGSIZE && FreshWrite(s, p, b)
    ensures !Panics(s)
  {
    ReachableInv(s);
    Update(s.procs, p, Outside);
  }

  // log_write leaves the log below its size.
  lemma {:induction false} RunWithinSize(s: State, steps: seq<Step>)
    requires CanRun(s, steps) && (s.blocks == [] || |s.blocks| < s.size)
    ensures Run(s, steps).size == s.size && (Run(s, steps).blocks == [] || |Run(s, steps).blocks| < s.size)
    decreases |steps|
  {
    if steps != [] {
      RunWithinSize(Do(s, steps[0]), steps[1..]);
    }
  }

  lemma WithinSize(s: State)
    requires Reachable(s)
    ensures s.blocks == [] || |s.blocks| < s.size
  {
    var n: nat, steps: seq<Step> :| CanRun(Init(s.size, n), steps) && Run(Init(s.size, n), steps) == s;
    RunWithinSize(Init(s.size, n), steps);
  }

  // An operation is about to log again a block that it has logged.
  predicate Rewrite(s: State, p: nat, b: nat) {
    p < |s.procs| && s.procs[p].Active? && b in s.procs[p].logged
  }

  /** The full-log test comes before the test for a block already logged: writing one of
      its own blocks again can stop an operation, unless the log is so small that nothing
      can ever be logged. */
  lemma RewritesSafeIff(size: nat)
    ensures size <= 1 <==>
              forall s: State, p: nat, b: nat :: Reachable(s) && s.size == size && Rewrite(s, p, b) ==> !Panics(s)
  {
    if size <= 1 {
      forall s: State, p: nat, b: nat | Reachable(s) && s.size == size ensures !Rewrite(s, p, b) {
        WithinSize(s);
        ReachableInv(s);
        assert p < |s.procs| ==> ProcOk(s, p);
      }
    } else {
      var k := if size <= LOGSIZE then size - 1 else LOGSIZE;
      var s := FillTo(size, k);
      assert |s.procs[0].logged| == Share(0, k) > 0;
      var b :| b in s.procs[0].logged;
      assert Rewrite(s, 0, b) && Panics(s);
    }
  }

  /** A log in which new blocks always fit is also one that can name as many blocks as
      there are buffers, all pinned: by TransactionLog.CommitStartsIff its commit then
      finds no buffer.  So no log size keeps both log_write and bget from a panic. */
  lemma AllBuffersPinnedIff(size: nat)
    ensures size > LOGSIZE <==> exists s: State :: Reachable(s) && s.size == size && |s.blocks| == NBUF
  {
    if size > LOGSIZE {
      var s := FillTo(size, LOGSIZE);
      assert Reachable(s) && |s.blocks| == NBUF;
    } else {
      forall s: State | Reachable(s) && s.size == size ensures |s.blocks| < NBUF {
        WithinSize(s);
      }
    }
  }
}
