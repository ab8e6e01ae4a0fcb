/** Readers and writers of a pipe (pipe.c) going to sleep and being woken, as a state
    machine: a step is what one thread does with pi->lock held between two points at which
    it may look at the pipe, sleep or return. */
module PipeSleep {
  import opened Basics
  import opened PipeRing

  datatype Thread =
    | Out
    | Writing(src: seq<Byte>, i: nat, unsaid: nat)   // holds the lock; bytes put in since it last took it
    | WAsleep(src: seq<Byte>, i: nat)
    | WAwake(src: seq<Byte>, i: nat)
    | Reading(n: nat)                                // holds the lock
    | RAsleep(n: nat)
    | RAwake(n: nat)

  datatype Lock = Open | HeldBy(t: nat)

  datatype State = State(ts: seq<Thread>, lock: Lock, q: seq<Byte>, inserted: seq<Byte>, removed: seq<Byte>, ropen: bool, wopen: bool)

  datatype Action =
    | StartWrite(t: nat, src: seq<Byte>) | Put(t: nat) | FullSleep(t: nat) | DoneWrite(t: nat) | ReaderGone(t: nat) | KilledWrite(t: nat)
    | StartRead(t: nat, n: nat) | EmptySleep(t: nat) | KilledRead(t: nat) | Take(t: nat, k: nat)
    | Relock(t: nat) | KillWake(t: nat) | CloseWrite | CloseRead

  // ---- Steps ----------------------------------------------------------------------------------

  // wakeup(&pi->nread) and wakeup(&pi->nwrite).
  function WakeReader(t: Thread): Thread {
    if t.RAsleep? then RAwake(t.n) else t
  }

  function WakeWriter(t: Thread): Thread {
    if t.WAsleep? then WAwake(t.src, t.i) else t
  }

  function WakeReaders(ts: seq<Thread>): (r: seq<Thread>)
    ensures |r| == |ts| && forall i :: 0 <= i < |ts| ==> r[i] == WakeReader(ts[i])
  {
    seq(|ts|, i requires 0 <= i < |ts| => WakeReader(ts[i]))
  }

  function WakeWriters(ts: seq<Thread>): (r: seq<Thread>)
    ensures |r| == |ts| && forall i :: 0 <= i < |ts| ==> r[i] == WakeWriter(ts[i])
  {
    seq(|ts|, i requires 0 <= i < |ts| => WakeWriter(ts[i]))
  }

  predicate Writer(t: Thread) {
    t.Writing? || t.WAsleep? || t.WAwake?
  }

  predicate Reader(t: Thread) {
    t.Reading? || t.RAsleep? || t.RAwake?
  }

  // An end is closed only when nobody is still using it.
  predicate NoWriters(s: State) {
    forall t :: 0 <= t < |s.ts| ==> !Writer(s.ts[t])
  }

  predicate NoReaders(s: State) {
    forall t :: 0 <= t < |s.ts| ==> !Reader(s.ts[t])
  }

  // At the head of pipewrite's loop, with bytes left to write.
  predicate AtWriteLoop(s: State, t: nat) {
    t < |s.ts| && s.ts[t].Writing? && s.ts[t].i < |s.ts[t].src|
  }

  predicate Enabled(s: State, a: Action) {
    var n := |s.ts|;
    match a
    case StartWrite(t, _) => t < n && s.ts[t].Out? && s.lock.Open? && s.wopen
    case Put(t) => AtWriteLoop(s, t) && s.ropen && |s.q| < PIPESIZE
    case FullSleep(t) => AtWriteLoop(s, t) && s.ropen && |s.q| == PIPESIZE
    case DoneWrite(t) => t < n && s.ts[t].Writing? && (s.ts[t].i >= |s.ts[t].src| || (s.ropen && |s.q| < PIPESIZE))
    case ReaderGone(t) => AtWriteLoop(s, t) && !s.ropen
    case KilledWrite(t) => AtWriteLoop(s, t) && s.ropen
    case StartRead(t, _) => t < n && s.ts[t].Out? && s.lock.Open? && s.ropen
    case EmptySleep(t) => t < n && s.ts[t].Reading? && s.q == [] && s.wopen
    case KilledRead(t) => t < n && s.ts[t].Reading? && s.q == [] && s.wopen
    case Take(t, k) => t < n && s.ts[t].Reading? && !(s.q == [] && s.wopen) && k <= |s.q|
    case Relock(t) => t < n && (s.ts[t].WAwake? || s.ts[t].RAwake?) && s.lock.Open?
    case KillWake(t) => t < n && (s.ts[t].WAsleep? || s.ts[t].RAsleep?)
    case CloseWrite => s.lock.Open? && s.wopen && NoWriters(s)
    case CloseRead => s.lock.Open? && s.ropen && NoReaders(s)
  }

  function Step(s: State, a: Action): State
    requires Enabled(s, a)
  {
    match a
    case StartWrite(t, src) => s.(ts := s.ts[t := Writing(src, 0, 0)], lock := HeldBy(t))
    case Put(t) =>
      var w := s.ts[t];
      s.(ts := s.ts[t := Writing(w.src, w.i + 1, w.unsaid + 1)], q := s.q + [w.src[w.i]], inserted := s.inserted + [w.src[w.i]])
    case FullSleep(t) => s.(ts := WakeReaders(s.ts)[t := WAsleep(s.ts[t].src, s.ts[t].i)], lock := Open)
    case DoneWrite(t) => s.(ts := WakeReaders(s.ts)[t := Out], lock := Open)
    case ReaderGone(t) => s.(ts := s.ts[t := Out], lock := Open)
    case KilledWrite(t) => s.(ts := s.ts[t := Out], lock := Open)
    case StartRead(t, n) => s.(ts := s.ts[t := Reading(n)], lock := HeldBy(t))
    case EmptySleep(t) => s.(ts := s.ts[t := RAsleep(s.ts[t].n)], lock := Open)
    case KilledRead(t) => s.(ts := s.ts[t := Out], lock := Open)
    case Take(t, k) =>
      s.(ts := WakeWriters(s.ts)[t := Out], lock := Open, q := s.q[k..], removed := s.removed + s.q[..k])
    case Relock(t) =>
      var r := s.ts[t];
      s.(ts := s.ts[t := if r.WAwake? then Writing(r.src, r.i, 0) else Reading(r.n)], lock := HeldBy(t))
    case KillWake(t) => s.(ts := s.ts[t := if s.ts[t].WAsleep? then WakeWriter(s.ts[t]) else WakeReader(s.ts[t])])
    case CloseWrite => s.(ts := WakeReaders(s.ts), wopen := false)
    case CloseRead => s.(ts := WakeWriters(s.ts), ropen := false)
  }

  // ---- Invariant --------------------------------------------------------------------------------

  /** What has come out is a prefix of what has gone in, and the rest is in the ring. */
  ghost predicate InOrder(s: State) {
    s.removed + s.q == s.inserted && |s.q| <= PIPESIZE
  }

  ghost predicate Locked(s: State) {
    && (s.lock.HeldBy? ==> s.lock.t < |s.ts|)
    && forall t :: 0 <= t < |s.ts| ==> (s.ts[t].Writing? || s.ts[t].Reading? <==> s.lock == HeldBy(t))
  }

  ghost predicate Ends(s: State) {
    (!s.ropen ==> NoReaders(s)) && (!s.wopen ==> NoWriters(s))
  }

  // Bytes in the ring that sleeping readers have not been told of.
  function Unsaid(s: State): nat {
    if s.lock.HeldBy? && s.lock.t < |s.ts| && s.ts[s.lock.t].Writing? then s.ts[s.lock.t].unsaid else 0
  }

  ghost predicate ReadersOk(s: State) {
    forall t :: 0 <= t < |s.ts| && s.ts[t].RAsleep? ==> |s.q| == Unsaid(s) && s.wopen
  }

  ghost predicate WritersOk(s: State) {
    forall t :: 0 <= t < |s.ts| && s.ts[t].WAsleep? ==> |s.q| == PIPESIZE && s.ropen
  }

  // Kept by every step.
  ghost predicate Core(s: State) {
    InOrder(s) && Locked(s) && Ends(s) && WritersOk(s)
  }

  predicate SomeReaderAsleep(s: State) {
    exists t :: 0 <= t < |s.ts| && s.ts[t].RAsleep?
  }

  // A killed writer returns with bytes that a sleeping reader has not been told of.
  predicate Silent(s: State, a: Action) {
    a.KilledWrite? && a.t < |s.ts| && s.ts[a.t].Writing? && s.ts[a.t].unsaid > 0 && SomeReaderAsleep(s)
  }

  lemma StepKeepsOrder(s: State, a: Action)
    requires InOrder(s) && Locked(s) && Enabled(s, a)
    ensures InOrder(Step(s, a)) && Locked(Step(s, a))
  {
  }

  lemma StepKeepsWriters(s: State, a: Action)
    requires Core(s) && Enabled(s, a)
    ensures Ends(Step(s, a)) && WritersOk(Step(s, a))
  {
  }

  /** A step keeps sleeping readers right exactly when it is not such a silent return. */
  lemma ReadersKeptIff(s: State, a: Action)
    requires Core(s) && ReadersOk(s) && Enabled(s, a)
    ensures ReadersOk(Step(s, a)) <==> !Silent(s, a)
  {
    var s' := Step(s, a);
    if Silent(s, a) {
      var t :| 0 <= t < |s.ts| && s.ts[t].RAsleep?;
      assert s'.ts[t].RAsleep? && |s'.q| > 0;
    } else {
      forall t | 0 <= t < |s'.ts| && s'.ts[t].RAsleep? ensures |s'.q| == Unsaid(s') && s'.wopen {
        assert s.ts[t].RAsleep? || a == EmptySleep(t);
      }
    }
  }

  // ---- Whole runs -------------------------------------------------------------------------------

  ghost predicate Initial(s: State) {
    s.lock == Open && s.q == s.inserted == s.removed == [] && forall t :: 0 <= t < |s.ts| ==> s.ts[t].Out?
  }

  // s' is reached by these steps, none of them silent when `heard`.
  ghost predicate Run(s: State, acts: seq<Action>, s': State, heard: bool)
    decreases |acts|
  {
    if acts == [] then s' == s
    else Enabled(s, acts[0]) && (heard ==> !Silent(s, acts[0])) && Run(Step(s, acts[0]), acts[1..], s', heard)
  }

  lemma {:induction false} RunKeepsCore(s: State, acts: seq<Action>, s': State, heard: bool)
    requires Core(s) && Run(s, acts, s', heard)
    ensures Core(s') && (heard && ReadersOk(s) ==> ReadersOk(s'))
    decreases |acts|
  {
    if acts != [] {
      StepKeepsOrder(s, acts[0]);
      StepKeepsWriters(s, acts[0]);
      if ReadersOk(s) {
        ReadersKeptIff(s, acts[0]);
      }
      RunKeepsCore(Step(s, acts[0]), acts[1..], s', heard);
    }
  }

  /** In every run, with any number of readers and writers: bytes come out in the order in
      which they went in, at most 512 are in the ring, and whenever the lock is free a
      sleeping writer means a full ring with its reading end open. */
  lemma EveryRun(s: State, acts: seq<Action>, s': State)
    requires Initial(s) && Run(s, acts, s', false)
    ensures s'.removed + s'.q == s'.inserted && |s'.q| <= PIPESIZE
    ensures forall t :: 0 <= t < |s'.ts| && s'.ts[t].WAsleep? ==> |s'.q| == PIPESIZE && s'.ropen
  {
    RunKeepsCore(s, acts, s', false);
  }

  /** And in every run without a silent return, whenever the lock is free a sleeping reader
      means an empty ring with its writing end open. */
  lemma NoReaderMissesData(s: State, acts: seq<Action>, s': State)
    requires Initial(s) && Run(s, acts, s', true) && s'.lock == Open
    ensures forall t :: 0 <= t < |s'.ts| && s'.ts[t].RAsleep? ==> s'.q == [] && s'.wopen
  {
    RunKeepsCore(s, acts, s', true);
  }

  /** With one, it need not: a writer killed after its first byte leaves a reader asleep on
      a ring that is not empty. */
  lemma SilentReturn() returns (s: State, acts: seq<Action>, s': State)
    ensures Initial(s) && Run(s, acts, s', false) && s'.lock == Open && s'.q != [] && SomeReaderAsleep(s')
  {
    s := State([Out, Out], Open, [], [], [], true, true);
    acts := [StartRead(0, 1), EmptySleep(0), StartWrite(1, [7, 7]), Put(1), KilledWrite(1)];
    var s1 := Step(s, acts[0]);
    var s2 := Step(s1, acts[1]);
    var s3 := Step(s2, acts[2]);
    var s4 := Step(s3, acts[3]);
    s' := Step(s4, acts[4]);
    assert Run(s', acts[5..], s', false);
    assert acts[4..][1..] == acts[5..] && Run(s4, acts[4..], s', false);
    assert acts[3..][1..] == acts[4..] && Run(s3, acts[3..], s', false);
    assert acts[2..][1..] == acts[3..] && Run(s2, acts[2..], s', false);
    assert acts[1..][1..] == acts[2..] && Run(s1, acts[1..], s', false);
    assert s'.ts[0].RAsleep?;
  }
}
