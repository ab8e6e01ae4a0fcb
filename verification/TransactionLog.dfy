/** The in-memory side of the redo log: log_write, commit and boot-time recovery,
    run through the buffer cache.

    `logical` is the plain array of blocks that clients believe they read and write.
    Cache, log and disk together implement it: bread hands out its contents whatever
    has been evicted meanwhile, also between any two block writes of a commit, and
    commit moves it to the disk by exactly the writes of RedoLog.CommitTrace. */
module TransactionLog {
  import opened Basics
  import opened RedoLog
  import opened BufferCache

  // What a valid buffer contains: the logged value of a pinned block, otherwise what
  // is on the disk.  Without `held` this is only said of buffers that nobody has locked.
  ghost predicate Coherent(bufs: seq<Buf>, pinned: set<nat>, logical: Image, disk: Image, held: bool) {
    && |logical| == |disk|
    && forall i :: 0 <= i < |bufs| && bufs[i].valid && (held || !bufs[i].locked) && bufs[i].blockno < |disk| ==>
         bufs[i].data == (if bufs[i].blockno in pinned then logical else disk)[bufs[i].blockno]
  }

  // Exactly the blocks in `pinned` are pinned, once each, and their buffers are valid.
  ghost predicate PinsMatch(bufs: seq<Buf>, pins: seq<nat>, dev: nat, pinned: set<nat>) {
    && |bufs| == |pins|
    && (forall i :: 0 <= i < |bufs| ==> pins[i] == B2N(bufs[i].dev == dev && bufs[i].blockno in pinned))
    && (forall x {:trigger Held(bufs, dev, x)} :: x in pinned ==> Held(bufs, dev, x))
  }

  ghost predicate Held(bufs: seq<Buf>, dev: nat, blockno: nat) {
    exists i :: 0 <= i < |bufs| && Holds(bufs[i], dev, blockno) && bufs[i].valid
  }

  // Replacing a buffer that is not pinned, or keeping its identity and validity,
  // keeps the pins.
  lemma PinsKept(bufs: seq<Buf>, pins: seq<nat>, dev: nat, pinned: set<nat>, b: nat, nb: Buf)
    requires PinsMatch(bufs, pins, dev, pinned) && b < |bufs|
    requires || (nb.dev == bufs[b].dev && nb.blockno == bufs[b].blockno && (bufs[b].valid ==> nb.valid))
             || (pins[b] == 0 && (nb.dev != dev || nb.blockno !in pinned))
    ensures PinsMatch(bufs[b := nb], pins, dev, pinned)
  {
    var bufs' := bufs[b := nb];
    forall x | x in pinned ensures Held(bufs', dev, x) {
      assert Held(bufs, dev, x);
      var i :| 0 <= i < |bufs| && Holds(bufs[i], dev, x) && bufs[i].valid;
      assert i == b ==> pins[b] == 1;
      assert Holds(bufs'[i], dev, x) && bufs'[i].valid;
    }
  }

  lemma CoherentKept(bufs: seq<Buf>, pinned: set<nat>, logical: Image, disk: Image, held: bool, b: nat, nb: Buf)
    requires Coherent(bufs, pinned, logical, disk, held) && b < |bufs|
    requires nb.valid && (held || !nb.locked) && nb.blockno < |disk| ==>
               nb.data == (if nb.blockno in pinned then logical else disk)[nb.blockno]
    ensures Coherent(bufs[b := nb], pinned, logical, disk, held)
  {
  }

  // Pinning the buffer of one more block.
  lemma PinAdded(bufs: seq<Buf>, pins: seq<nat>, dev: nat, pinned: set<nat>, b: nat)
    requires PinsMatch(bufs, pins, dev, pinned) && Unique(bufs) && dev != 0
    requires b < |bufs| && bufs[b].dev == dev && bufs[b].valid && bufs[b].blockno !in pinned
    ensures PinsMatch(bufs[b := bufs[b].(refcnt := bufs[b].refcnt + 1)], pins[b := pins[b] + 1], dev, pinned + {bufs[b].blockno})
  {
    var bufs' := bufs[b := bufs[b].(refcnt := bufs[b].refcnt + 1)];
    var pinned' := pinned + {bufs[b].blockno};
    forall i | 0 <= i < |bufs| && i != b && bufs[i].dev == dev ensures bufs[i].blockno != bufs[b].blockno {
      assert !Twins(bufs, if i < b then i else b, if i < b then b else i);
    }
    forall x | x in pinned' ensures Held(bufs', dev, x) {
      if x == bufs[b].blockno {
        assert Holds(bufs'[b], dev, x) && bufs'[b].valid;
      } else {
        assert x in pinned;
        assert Held(bufs, dev, x);
        var i :| 0 <= i < |bufs| && Holds(bufs[i], dev, x) && bufs[i].valid;
        assert Holds(bufs'[i], dev, x) && bufs'[i].valid;
      }
    }
  }

  // Unpinning a pinned block.
  lemma PinDropped(bufs: seq<Buf>, pins: seq<nat>, dev: nat, pinned: set<nat>, b: nat, nb: Buf)
    requires PinsMatch(bufs, pins, dev, pinned) && nb.blockno in pinned
    requires b < |bufs| && nb.dev == dev && nb.valid
    requires Holds(bufs[b], dev, nb.blockno) && Unique(bufs[b := nb]) && dev != 0
    ensures PinsMatch(bufs[b := nb], pins[b := 0], dev, pinned - {nb.blockno})
  {
    var bufs' := bufs[b := nb];
    forall x | x in pinned - {nb.blockno} ensures Held(bufs', dev, x) {
      assert Held(bufs, dev, x);
      var i :| 0 <= i < |bufs| && Holds(bufs[i], dev, x) && bufs[i].valid;
      assert Holds(bufs'[i], dev, x) && bufs'[i].valid;
    }
    forall i | 0 <= i < |bufs| && i != b && bufs[i].dev == dev ensures bufs[i].blockno != nb.blockno {
      assert !Twins(bufs', if i < b then i else b, if i < b then b else i);
    }
  }

  // One round of install_trans replaces the buffer of a log block and, when the
  // home block was pinned, drops its pin.
  lemma InstallPins(bufs: seq<Buf>, pins: seq<nat>, dev: nat, pinned: set<nat>, lb: nat, hb: nat, nl: Buf, nh: Buf)
    requires PinsMatch(bufs, pins, dev, pinned) && dev != 0
    requires lb < |bufs| && hb < |bufs| && lb != hb && pins[lb] == 0 && nl.blockno !in pinned
    requires nh.dev == dev && nh.valid && Unique(bufs[lb := nl][hb := nh])
    requires if nh.blockno in pinned then Holds(bufs[hb], dev, nh.blockno) else pins[hb] == 0
    ensures PinsMatch(bufs[lb := nl][hb := nh], pins[hb := 0], dev, pinned - {nh.blockno})
  {
    PinsKept(bufs, pins, dev, pinned, lb, nl);
    var bufs' := bufs[lb := nl];
    if nh.blockno in pinned {
      PinDropped(bufs', pins, dev, pinned, hb, nh);
    } else {
      PinsKept(bufs', pins, dev, pinned, hb, nh);
      assert pins[hb := 0] == pins && pinned - {nh.blockno} == pinned;
    }
  }

  lemma UpdatedAgain(s: seq<Buf>, i: nat, j: nat, a: Buf, b: Buf, c: Buf, d: Buf)
    requires i < |s| && j < |s| && i != j
    ensures s[i := a][j := b][i := c][j := d] == s[i := c][j := d]
  {
  }

  lemma UpdatedBack(s: seq<Buf>, i: nat, j: nat, a: Buf, b: Buf, c: Buf)
    requires i < |s| && j < |s| && i != j
    ensures s[i := a][j := b][i := c][j := s[j]] == s[i := c]
  {
  }

  // Buffers with contents are of this device, one per block.
  ghost predicate OneEach(bufs: seq<Buf>, dev: nat) {
    && dev != 0 && Unique(bufs)
    && forall i :: 0 <= i < |bufs| && bufs[i].valid ==> bufs[i].dev == dev
  }

  // A block that is not pinned is written to the disk from its buffer.
  lemma Stored(bufs: seq<Buf>, pins: seq<nat>, dev: nat, pinned: set<nat>, logical: Image, disk: Image, held: bool, b: nat, nb: Buf)
    requires PinsMatch(bufs, pins, dev, pinned) && Coherent(bufs, pinned, logical, disk, held)
    requires b < |bufs| && pins[b] == 0 && OneEach(bufs[b := nb], dev)
    requires nb.valid && nb.blockno !in pinned && nb.blockno < |disk|
    ensures PinsMatch(bufs[b := nb], pins, dev, pinned)
    ensures Coherent(bufs[b := nb], pinned, logical, disk[nb.blockno := nb.data], held)
  {
    PinsKept(bufs, pins, dev, pinned, b, nb);
    var bufs' := bufs[b := nb];
    forall i | 0 <= i < |bufs| && bufs'[i].valid && i != b ensures bufs'[i].blockno != nb.blockno {
      assert !Twins(bufs', if i < b then i else b, if i < b then b else i);
    }
  }

  // A log block has been copied home from buffer lb to buffer hb, which is unpinned
  // when it was pinned.
  lemma CopiedHome(bufs: seq<Buf>, pinned: set<nat>, dev: nat, logical: Image, disk: Image, lb: nat, hb: nat, nl: Buf, nh: Buf)
    requires Coherent(bufs, pinned, logical, disk, true) && lb < |bufs| && hb < |bufs| && lb != hb
    requires OneEach(bufs[lb := nl][hb := nh], dev)
    requires nl.valid && nl.blockno !in pinned && nl.blockno < |disk| && nl.data == disk[nl.blockno]
    requires nh.valid && nh.blockno < |disk| && nh.blockno != nl.blockno
    ensures Coherent(bufs[lb := nl][hb := nh], pinned - {nh.blockno}, logical, disk[nh.blockno := nh.data], true)
  {
    var bufs' := bufs[lb := nl][hb := nh];
    forall i | 0 <= i < |bufs| && bufs'[i].valid && i != hb ensures bufs'[i].blockno != nh.blockno {
      assert !Twins(bufs', if i < hb then i else hb, if i < hb then hb else i);
    }
  }

  /** A machine that goes down after any of the writes of a commit comes up, through the
      constructor below, with the contents from before the transaction or with all of it:
      the latter exactly from the header write on. */
  lemma RebootSeesAllOrNothing(g: Geometry, d: Image, lh: seq<nat>, logical: Image, k: nat)
    requires WellFormed(g, d) && HeaderCount(g, d) == 0 && Loggable(g, lh) && lh != [] && |logical| == g.total
    requires HomesBut(g, d, logical, Elements(lh))
    requires k < 2 * |lh| + 2
    ensures |CommitTrace(g, d, lh, ContentsOf(lh, logical))| == 2 * |lh| + 2
    ensures var image := CommitTrace(g, d, lh, ContentsOf(lh, logical))[k];
            WellFormed(g, image) && HomesAre(g, Meaning(g, image), if k < |lh| then d else logical)
  {
    CommitImageMeaning(g, d, lh, ContentsOf(lh, logical), k);
    OverlayIsLogical(g, d, lh, logical);
  }

  lemma OverlayIsLogical(g: Geometry, d: Image, lh: seq<nat>, logical: Image)
    requires WellFormed(g, d) && HeaderCount(g, d) == 0 && Loggable(g, lh) && HomesBut(g, d, logical, Elements(lh))
    ensures HomesAre(g, Meaning(g, d), d)
    ensures HomesAre(g, Overlay(Meaning(g, d), lh, ContentsOf(lh, logical)), logical)
  {
    var o := Overlay(Meaning(g, d), lh, ContentsOf(lh, logical));
    forall b | 0 <= b < g.total && g.Home(b) ensures o[b] == logical[b] {
      assert b in lh ==> lh[Find(lh, b)] == b;
    }
  }

  // Nothing a commit of the blocks lh needs is held, and a buffer is free.
  ghost predicate QuietBufs(g: Geometry, lh: seq<nat>, bufs: seq<Buf>) {
    && HasFree(bufs)
    && forall i :: 0 <= i < |bufs| && (!g.Home(bufs[i].blockno) || bufs[i].blockno in lh) ==> !bufs[i].locked
  }

  // Buffers that are given back with no more references than before.
  lemma QuietKept(g: Geometry, lh: seq<nat>, bufs: seq<Buf>, b: nat, nb: Buf)
    requires QuietBufs(g, lh, bufs) && b < |bufs| && !nb.locked && nb.refcnt <= bufs[b].refcnt
    ensures QuietBufs(g, lh, bufs[b := nb])
  {
    var i :| 0 <= i < |bufs| && bufs[i].refcnt == 0;
    assert bufs[b := nb][i].refcnt == 0;
  }

  // Disk and trace after write_log, begun on disk d, has done its first `tail` rounds.
  ghost predicate LogDone(g: Geometry, lh: seq<nat>, logical: Image, d: Image, trace0: seq<Image>, tail: nat, disk: Image, trace: seq<Image>) {
    && tail <= |lh| && Loggable(g, lh) && g.Valid() && |d| == g.total == |logical|
    && disk == Logged(g, d, ContentsOf(lh, logical), tail)
    && trace == trace0 + LogTrace(g, d, ContentsOf(lh, logical))[..tail]
  }

  lemma LogDoneMore(g: Geometry, lh: seq<nat>, logical: Image, d: Image, trace0: seq<Image>, tail: nat, next: nat, disk: Image, trace: seq<Image>)
    requires LogDone(g, lh, logical, d, trace0, tail, disk, trace) && tail < |lh| && next == tail + 1
    ensures lh[tail] < |logical| && g.start + 1 + tail < |disk|
    ensures var disk1 := disk[g.start + 1 + tail := logical[lh[tail]]];
            LogDone(g, lh, logical, d, trace0, next, disk1, trace + [disk1])
  {
    var contents := ContentsOf(lh, logical);
    LoggedStep(g, d, contents, tail, next);
    Regroup(trace0, LogTrace(g, d, contents)[..tail], [Logged(g, d, contents, next)]);
    assert contents[tail] == logical[lh[tail]];
  }

  // The writes of a commit up to its header's, and k more.
  lemma CommitGoesOn(g: Geometry, d: Image, lh: seq<nat>, contents: seq<Block>, c: Image, from: nat, k: nat, n: nat, trace: seq<Image>)
    requires WellFormed(g, d) && Loggable(g, lh) && |contents| == |lh| > 0
    requires c == WithHeader(g, Logged(g, d, contents, |lh|), lh) && k <= |lh| + 1 && from == |lh| + 1 && n == from + k
    ensures WellFormed(g, c) && n <= |CommitTrace(g, d, lh, contents)| == 2 * |lh| + 2
    ensures (trace + CommitTrace(g, d, lh, contents)[..from]) + RecoverTrace(g, c)[..k] == trace + CommitTrace(g, d, lh, contents)[..n]
  {
    HeaderWriteContents(g, d, lh, contents);
    CommitSuffix(g, d, lh, contents, c, k);
    Regroup(trace, CommitTrace(g, d, lh, contents)[..from], RecoverTrace(g, c)[..k]);
  }

  // And after install_trans has.
  ghost predicate HomesDone(g: Geometry, lh: seq<nat>, logical: Image, d: Image, trace0: seq<Image>, tail: nat, disk: Image, trace: seq<Image>) {
    && tail <= |lh| && Loggable(g, lh) && |logical| == g.total
    && WellFormed(g, d) && LoggedBlocks(g, d) == lh && AllInLog(g, d, logical)
    && disk == Installed(g, d, tail) && trace == trace0 + InstallTrace(g, d)[..tail]
  }

  lemma HomesDoneMore(g: Geometry, lh: seq<nat>, logical: Image, d: Image, trace0: seq<Image>, tail: nat, next: nat, disk: Image, trace: seq<Image>)
    requires HomesDone(g, lh, logical, d, trace0, tail, disk, trace) && tail < |lh| && next == tail + 1
    ensures lh[tail] < |disk| && g.start + 1 + tail < |disk| && disk[g.start + 1 + tail] == logical[lh[tail]]
    ensures var disk1 := disk[lh[tail] := logical[lh[tail]]];
            HomesDone(g, lh, logical, d, trace0, next, disk1, trace + [disk1])
  {
    InstalledStep(g, d, tail, next);
    Regroup(trace0, InstallTrace(g, d)[..tail], [Installed(g, d, next)]);
    assert InLog(g, d, logical, tail);
  }

  // A step of somebody who reads blocks outside any transaction: ask bget for a block,
  // get the lock of a buffer asked for, or release one.
  datatype ReaderStep = Ask(blockno: nat) | Take(b: nat) | Done(b: nat)

  // What readers do before the k-th block write of a commit.
  type Schedule = nat -> seq<ReaderStep>

  ghost predicate Silent(others: Schedule) {
    forall k :: others(k) == []
  }

  // The block writes of a commit of m blocks.
  function Writes(m: nat): nat {
    if m == 0 then 0 else 2 * m + 2
  }

  class Log {
    const g: Geometry
    const cache: Cache
    var outstanding: nat
    var committing: bool
    var lh: seq<nat>
    ghost var logical: Image
    // The logged blocks that have not been installed yet.
    ghost var pinned: set<nat>

    ghost predicate Consistent(held: bool)
      reads this`lh, this`logical, this`pinned, cache
    {
      && cache.Valid()
      && g.Valid() && |cache.disk| == g.total
      && Coherent(cache.bufs, pinned, logical, cache.disk, held)
      && PinsMatch(cache.bufs, cache.pins, cache.dev, pinned)
      && Loggable(g, lh)
      && forall x :: x in pinned ==> x in lh
    }

    /** What clients rely on at any moment, also between two block writes of a commit: the
        disk differs from the logical contents only in pinned blocks.  With `held`, locked
        buffers are unchanged too: only readers have any. */
    ghost predicate Serves(held: bool)
      reads this`lh, this`logical, this`pinned, cache
    {
      Consistent(held) && HomesBut(g, cache.disk, logical, pinned)
    }

    // Between commits: the log on disk is empty.
    ghost predicate Inv()
      reads this`lh, this`logical, this`pinned, cache
    {
      Serves(false) && pinned == Elements(lh) && HeaderCount(g, cache.disk) == 0
    }

    /** initlog and recover_from_log.  fsinit has read the superblock before, so buffers
        may hold blocks, as they are on the disk, but nobody uses one.  Whatever image a
        crash left, clients then see the contents that image means. */
    constructor (g: Geometry, cache: Cache)
      requires cache.Valid() && WellFormed(g, cache.disk)
      requires forall i :: 0 <= i < NBUF ==> cache.bufs[i].refcnt == 0
      requires forall i :: 0 <= i < NBUF && cache.bufs[i].valid ==> cache.bufs[i].data == cache.disk[cache.bufs[i].blockno]
      modifies cache
      ensures Inv() && lh == [] && outstanding == 0 && !committing && this.g == g && this.cache == cache
      ensures logical == Meaning(g, old(cache.disk))
      ensures cache.disk == Recovered(g, old(cache.disk))
      ensures cache.trace == old(cache.trace) + RecoverTrace(g, old(cache.disk))
    {
      this.g := g;
      this.cache := cache;
      outstanding, committing := 0, false;
      lh, pinned := [], {};
      logical := Meaning(g, cache.disk);
      new;
      RecoverFromLog();
    }

    method RecoverFromLog()
      requires Consistent(true) && lh == [] && pinned == {} && Idle()
      requires WellFormed(g, cache.disk) && logical == Meaning(g, cache.disk)
      modifies `lh, `pinned, cache
      ensures Inv() && lh == []
      ensures cache.disk == Recovered(g, old(cache.disk))
      ensures cache.trace == old(cache.trace) + RecoverTrace(g, old(cache.disk))
    {
      ReadHead();
      var tail := InstallTrans(true, _ => [], 0);
      InstallFinished(old(cache.disk), old(cache.trace));
      var cleared := ClearLog(true, _ => [], 0);
    }

    // ---- Readers and clients -------------------------------------------------

    /** bread returns the value last logically written, whatever was evicted since and
        however far a commit has come. */
    method Read(blockno: nat, ghost held: bool) returns (b: nat)
      requires Serves(held) && cache.CanRead(blockno) && g.Home(blockno)
      modifies cache`bufs, cache`waiting
      ensures Serves(held)
      ensures b < NBUF && cache.bufs[b].locked && cache.bufs[b].valid && Holds(cache.bufs[b], cache.dev, blockno)
      ensures cache.bufs[b].data == logical[blockno]
      ensures forall i :: 0 <= i < NBUF && i != b ==> cache.bufs[i] == old(cache.bufs[i])
    {
      ghost var nb := cache.ReadBuf(blockno);
      ReadIsLogical(blockno, held);
      b := cache.Bread(blockno);
      PinsKept(old(cache.bufs), cache.pins, cache.dev, pinned, b, nb);
      CoherentKept(old(cache.bufs), pinned, logical, cache.disk, held, b, nb);
    }

    lemma ReadIsLogical(blockno: nat, held: bool)
      requires Serves(held) && cache.CanRead(blockno) && g.Home(blockno)
      ensures cache.ReadBuf(blockno).data == logical[blockno]
      ensures Lookup(cache.bufs, cache.dev, blockno) == NBUF ==> blockno !in pinned
    {
      if blockno in pinned {
        var i := PinnedBuffer(blockno, held);
      }
    }

    // The buffer of a pinned block is there and valid.
    lemma PinnedBuffer(h: nat, held: bool) returns (i: nat)
      requires Consistent(held) && h in pinned
      ensures i < NBUF && i == Lookup(cache.bufs, cache.dev, h) && Holds(cache.bufs[i], cache.dev, h)
      ensures cache.bufs[i].valid && cache.pins[i] == 1 && cache.bufs[i].refcnt > 0
      ensures held || !cache.bufs[i].locked ==> cache.bufs[i].data == logical[h]
    {
      assert Held(cache.bufs, cache.dev, h);
      i :| 0 <= i < NBUF && Holds(cache.bufs[i], cache.dev, h) && cache.bufs[i].valid;
      LookupUnique(cache.bufs, cache.dev, h, i);
    }

    // The holder of a locked buffer changes its contents.
    method Modify(b: nat, data: Block)
      requires Inv() && b < NBUF && cache.bufs[b].locked && cache.bufs[b].valid
      modifies cache`bufs
      ensures Inv()
      ensures cache.bufs == old(cache.bufs)[b := old(cache.bufs)[b].(data := data)]
    {
      PinsKept(cache.bufs, cache.pins, cache.dev, pinned, b, cache.bufs[b].(data := data));
      UniqueKept(cache.bufs, b, cache.bufs[b].(data := data));
      cache.bufs := cache.bufs[b := cache.bufs[b].(data := data)];
    }

    method Release(b: nat, ghost held: bool)
      requires Serves(held) && b < NBUF && cache.bufs[b].locked && cache.bufs[b].valid
      requires g.Home(cache.bufs[b].blockno)
      requires cache.bufs[b].data == logical[cache.bufs[b].blockno]  // every change was logged
      modifies cache`bufs, cache`next, cache`prev, cache`order
      ensures Serves(held)
      ensures cache.bufs == old(cache.bufs)[b := old(cache.bufs)[b].(locked := false, refcnt := old(cache.bufs)[b].refcnt - 1)]
    {
      ghost var nb := cache.bufs[b].(locked := false, refcnt := cache.bufs[b].refcnt - 1);
      PinsKept(cache.bufs, cache.pins, cache.dev, pinned, b, nb);
      CoherentKept(cache.bufs, pinned, logical, cache.disk, held, b, nb);
      GiveBack(b);
    }

    // bget up to the lock, for somebody who will wait for it.
    method AskFor(blockno: nat, ghost held: bool)
      requires Serves(held) && g.Home(blockno)
      modifies cache`bufs, cache`waiting
      ensures Serves(held)
    {
      if blockno in pinned {
        ghost var i := PinnedBuffer(blockno, held);
      }
      var b := cache.Ref(blockno);
      if b < NBUF {
        PinsKept(old(cache.bufs), cache.pins, cache.dev, pinned, b, cache.bufs[b]);
        CoherentKept(old(cache.bufs), pinned, logical, cache.disk, held, b, cache.bufs[b]);
      }
    }

    /** A reader gets the lock: what it finds are the logical contents. */
    method TakeLock(b: nat, ghost held: bool)
      requires Serves(held) && b < NBUF && cache.waiting[b] > 0 && !cache.bufs[b].locked && g.Home(cache.bufs[b].blockno)
      modifies cache`bufs, cache`waiting
      ensures Serves(held)
      ensures cache.bufs[b].locked && cache.bufs[b].valid && cache.bufs[b].data == logical[cache.bufs[b].blockno]
    {
      ghost var h := cache.bufs[b].blockno;
      if h in pinned {
        ghost var i := PinnedBuffer(h, held);
        LookupUnique(cache.bufs, cache.dev, h, b);
      }
      cache.LockAndFill(b);
      PinsKept(old(cache.bufs), cache.pins, cache.dev, pinned, b, cache.bufs[b]);
      CoherentKept(old(cache.bufs), pinned, logical, cache.disk, held, b, cache.bufs[b]);
    }

    // During a commit nobody holds a buffer with contents of its own.
    lemma HeldIsLogical(b: nat)
      requires Serves(true) && b < NBUF && cache.bufs[b].valid && g.Home(cache.bufs[b].blockno)
      ensures cache.bufs[b].data == logical[cache.bufs[b].blockno]
    {
    }

    // One step of a reader; a step that is not possible does nothing.
    method ReaderTurn(step: ReaderStep)
      requires Serves(true)
      modifies cache`bufs, cache`waiting, cache`next, cache`prev, cache`order
      ensures Serves(true)
    {
      match step
      case Ask(blockno) =>
        if g.Home(blockno) {
          AskFor(blockno, true);
        }
      case Take(b) =>
        if b < NBUF && cache.waiting[b] > 0 && !cache.bufs[b].locked && g.Home(cache.bufs[b].blockno) {
          TakeLock(b, true);
        }
      case Done(b) =>
        if b < NBUF && cache.bufs[b].locked && cache.bufs[b].valid && g.Home(cache.bufs[b].blockno) {
          HeldIsLogical(b);
          Release(b, true);
        }
    }

    method Meanwhile(steps: seq<ReaderStep>)
      requires Serves(true)
      modifies cache`bufs, cache`waiting, cache`next, cache`prev, cache`order
      ensures Serves(true)
      ensures steps == [] ==> cache.bufs == old(cache.bufs)
    {
      var k := 0;
      while k < |steps|
        invariant k <= |steps| && Serves(true)
        invariant steps == [] ==> cache.bufs == old(cache.bufs)
      {
        ReaderTurn(steps[k]);
        k := k + 1;
      }
    }

    /** begin_op up to its sleep, which false stands for.  Nobody gets in while a commit is
        going on; whoever does finds room in the log for MAXOPBLOCKS blocks of its own and
        of every other operation inside. */
    method BeginOp() returns (admitted: bool)
      modifies `outstanding
      ensures admitted ==> !committing && |lh| + outstanding * MAXOPBLOCKS <= LOGSIZE && outstanding == old(outstanding) + 1
      ensures !admitted ==> (committing || |lh| + (outstanding + 1) * MAXOPBLOCKS > LOGSIZE) && outstanding == old(outstanding)
    {
      if committing {
        admitted := false;
      } else if |lh| + (outstanding + 1) * MAXOPBLOCKS > LOGSIZE {
        admitted := false;
      } else {
        outstanding := outstanding + 1;
        admitted := true;
      }
    }

    /** log_write.  False stands for the source's panics: the log is full, which is
        checked before looking whether the block is already logged, or nobody is in a
        transaction. */
    method LogWrite(b: nat) returns (ok: bool)
      requires Inv() && b < NBUF && cache.bufs[b].locked && cache.bufs[b].valid && g.Home(cache.bufs[b].blockno)
      modifies `lh, `logical, `pinned, cache`bufs, cache`pins
      ensures Inv()
      ensures ok <==> |old(lh)| < LOGSIZE && |old(lh)| < g.size - 1 && outstanding >= 1
      ensures !ok ==> lh == old(lh) && logical == old(logical) && cache.bufs == old(cache.bufs)
      ensures ok ==>
                var x := old(cache.bufs[b].blockno);
                && logical == old(logical)[x := old(cache.bufs[b].data)]
                && lh == (if x in old(lh) then old(lh) else old(lh) + [x])
                && cache.bufs == old(cache.bufs)[b := old(cache.bufs)[b].(refcnt := cache.bufs[b].refcnt)]
    {
      if |lh| >= LOGSIZE || |lh| >= g.size - 1 || outstanding < 1 {
        return false;
      }
      var x := cache.bufs[b].blockno;
      var i := 0;
      while i < |lh| && lh[i] != x
        invariant i <= |lh|
        invariant x !in lh[..i]
      {
        i := i + 1;
      }
      if i == |lh| {
        assert lh[..i] == lh;
        Append(b);
      }
      ok := true;
      NewContents(b);
      logical := logical[x := cache.bufs[b].data];
    }

    // Nobody but its holder has a logged block's new contents.
    lemma NewContents(b: nat)
      requires Inv() && b < NBUF && cache.bufs[b].locked && cache.bufs[b].valid && cache.bufs[b].blockno in lh
      ensures Coherent(cache.bufs, pinned, logical[cache.bufs[b].blockno := cache.bufs[b].data], cache.disk, false)
    {
      NobodyElse(b);
    }

    // Add the block of a locked buffer to the log header and pin the buffer.
    method Append(b: nat)
      requires Inv() && b < NBUF && cache.bufs[b].locked && cache.bufs[b].valid
      requires g.Home(cache.bufs[b].blockno) && cache.bufs[b].blockno !in lh
      requires |lh| < LOGSIZE && |lh| < g.size - 1
      modifies `lh, `pinned, cache`bufs, cache`pins
      ensures Inv()
      ensures lh == old(lh) + [cache.bufs[b].blockno]
      ensures cache.bufs == old(cache.bufs)[b := old(cache.bufs)[b].(refcnt := old(cache.bufs)[b].refcnt + 1)]
    {
      PinAdded(cache.bufs, cache.pins, cache.dev, pinned, b);
      NobodyElse(b);
      DistinctWith(lh, cache.bufs[b].blockno);
      var x := cache.bufs[b].blockno;
      cache.Bpin(b);
      lh, pinned := lh + [x], pinned + {x};
      assert pinned == Elements(lh);
    }

    lemma NobodyElse(b: nat)
      requires cache.Valid() && b < NBUF && cache.bufs[b].valid
      ensures forall i :: 0 <= i < NBUF && cache.bufs[i].valid && i != b ==> cache.bufs[i].blockno != cache.bufs[b].blockno
    {
      forall i | 0 <= i < NBUF && cache.bufs[i].valid && i != b ensures cache.bufs[i].blockno != cache.bufs[b].blockno {
        assert !Twins(cache.bufs, if i < b then i else b, if i < b then b else i);
      }
    }

    // ---- Commit --------------------------------------------------------------

    ghost predicate Quiet()
      reads this`lh, cache`bufs
    {
      QuietBufs(g, lh, cache.bufs)
    }

    // The boot-time situation in which recovery runs: nothing in use or pinned.
    ghost predicate Idle()
      requires cache.Valid()
      reads cache
    {
      forall i :: 0 <= i < NBUF ==> cache.bufs[i].refcnt == 0
    }

    // Read a log block and then a home block, as each round of write_log and
    // install_trans does.  The home block is in use unless recovering.
    method ReadPair(l: nat, h: nat) returns (lb: nat, hb: nat)
      requires cache.Valid() && cache.CanRead(l) && cache.CanRead(h) && l != h
      requires Idle() || (Lookup(cache.bufs, cache.dev, h) < NBUF && cache.bufs[Lookup(cache.bufs, cache.dev, h)].refcnt > 0)
      modifies cache`bufs, cache`waiting
      ensures cache.Valid() && cache.waiting == old(cache.waiting)
      ensures lb < NBUF && hb < NBUF && lb != hb
      ensures old(cache.bufs)[lb].refcnt == 0 || Holds(old(cache.bufs)[lb], cache.dev, l)
      ensures if old(Idle()) then old(cache.bufs)[hb].refcnt == 0
              else hb == old(Lookup(cache.bufs, cache.dev, h))
      ensures cache.bufs == old(cache.bufs)[lb := Buf(true, cache.dev, l, old(cache.bufs)[lb].refcnt + 1, true, old(cache.ReadBuf(l)).data)]
                              [hb := Buf(true, cache.dev, h, old(cache.bufs)[hb].refcnt + 1, true, cache.bufs[hb].data)]
      ensures !old(Idle()) && old(cache.bufs)[hb].valid ==> cache.bufs[hb].data == old(cache.bufs)[hb].data
    {
      lb := FetchFirst(l, h);
      hb := Fetch(h);
    }

    // After which the other can be read.
    method FetchFirst(l: nat, h: nat) returns (lb: nat)
      requires cache.Valid() && cache.CanRead(l) && cache.CanRead(h) && l != h
      requires Idle() || (Lookup(cache.bufs, cache.dev, h) < NBUF && cache.bufs[Lookup(cache.bufs, cache.dev, h)].refcnt > 0)
      modifies cache`bufs, cache`waiting
      ensures cache.Valid() && cache.waiting == old(cache.waiting) && lb < NBUF && cache.CanRead(h)
      ensures old(cache.bufs)[lb].refcnt == 0 || Holds(old(cache.bufs)[lb], cache.dev, l)
      ensures !old(Idle()) ==> Lookup(cache.bufs, cache.dev, h) == old(Lookup(cache.bufs, cache.dev, h)) < NBUF
      ensures cache.bufs == old(cache.bufs)[lb := Buf(true, cache.dev, l, old(cache.bufs)[lb].refcnt + 1, true, old(cache.ReadBuf(l)).data)]
    {
      ghost var i := Lookup(cache.bufs, cache.dev, h);
      lb := Fetch(l);
      if old(Idle()) {
        assert cache.bufs[if lb == 0 then 1 else 0].refcnt == 0;
      } else {
        LookupUnique(cache.bufs, cache.dev, h, i);
      }
    }

    // bread, with the buffer it leaves.
    method Fetch(blockno: nat) returns (b: nat)
      requires cache.Valid() && cache.CanRead(blockno)
      modifies cache`bufs, cache`waiting
      ensures cache.Valid() && cache.waiting == old(cache.waiting) && b < NBUF
      ensures old(cache.bufs)[b].refcnt == 0 || Holds(old(cache.bufs)[b], cache.dev, blockno)
      ensures var i := old(Lookup(cache.bufs, cache.dev, blockno)); i < NBUF ==> b == i
      ensures cache.bufs == old(cache.bufs)[b := Buf(true, cache.dev, blockno, old(cache.bufs)[b].refcnt + 1, true, old(cache.ReadBuf(blockno)).data)]
    {
      b := cache.Bread(blockno);
    }

    // brelse; where the buffer goes in the list does not matter here.
    method GiveBack(b: nat)
      requires cache.Valid() && b < NBUF && cache.bufs[b].locked
      modifies cache`bufs, cache`next, cache`prev, cache`order
      ensures cache.Valid()
      ensures cache.bufs == old(cache.bufs)[b := old(cache.bufs)[b].(locked := false, refcnt := old(cache.bufs)[b].refcnt - 1)]
    {
      cache.Brelse(b);
    }

    method ReleasePair(b: nat, c: nat)
      requires cache.Valid() && b < NBUF && c < NBUF && b != c && cache.bufs[b].locked && cache.bufs[c].locked
      modifies cache`bufs, cache`next, cache`prev, cache`order
      ensures cache.Valid()
      ensures cache.bufs == old(cache.bufs)[b := old(cache.bufs)[b].(locked := false, refcnt := old(cache.bufs)[b].refcnt - 1)]
                                           [c := old(cache.bufs)[c].(locked := false, refcnt := old(cache.bufs)[c].refcnt - 1)]
    {
      GiveBack(b);
      GiveBack(c);
    }

    // memmove from one locked buffer to another, and bwrite.
    method CopyAndWrite(to: nat, from: nat)
      requires cache.Valid() && to < NBUF && from < NBUF && cache.bufs[to].locked
      modifies cache`bufs, cache`disk, cache`trace
      ensures cache.Valid()
      ensures cache.bufs == old(cache.bufs)[to := old(cache.bufs)[to].(data := old(cache.bufs)[from].data)]
      ensures cache.disk == old(cache.disk)[old(cache.bufs)[to].blockno := old(cache.bufs)[from].data]
      ensures cache.trace == old(cache.trace) + [cache.disk]
    {
      UniqueKept(cache.bufs, to, cache.bufs[to].(data := cache.bufs[from].data));
      cache.bufs := cache.bufs[to := cache.bufs[to].(data := cache.bufs[from].data)];
      cache.Bwrite(to);
    }

    // One round of write_log: copy a logged block from the cache to the log.
    method LogRound(l: nat, h: nat)
      requires Serves(true) && !g.Home(l) && l < g.total && h in pinned && !Blocked(l, h)
      modifies cache
      ensures Serves(true) && (old(Quiet()) ==> Quiet())
      ensures cache.disk == old(cache.disk)[l := logical[h]]
      ensures cache.trace == old(cache.trace) + [cache.disk]
    {
      var lb := CopyToLog(l, h);
      LogBlockStored(old(cache.bufs), old(cache.disk), lb, l);
      if old(Quiet()) {
        QuietKept(g, lh, old(cache.bufs), lb, cache.bufs[lb]);
      }
    }

    method CopyToLog(l: nat, h: nat) returns (lb: nat)
      requires Consistent(true) && !g.Home(l) && l < g.total && h in pinned && !Blocked(l, h)
      modifies cache
      ensures cache.Valid() && lb < NBUF && cache.pins == old(cache.pins) && cache.pins[lb] == 0
      ensures cache.bufs == old(cache.bufs)[lb := Buf(true, cache.dev, l, old(cache.bufs)[lb].refcnt, false, logical[h])]
      ensures cache.disk == old(cache.disk)[l := logical[h]]
      ensures cache.trace == old(cache.trace) + [cache.disk]
    {
      ghost var i := PinnedBuffer(h, true);
      var hb;
      lb, hb := ReadPair(l, h);
      ghost var x, y := cache.bufs[lb], cache.bufs[hb];
      assert y.(locked := false, refcnt := y.refcnt - 1) == old(cache.bufs)[hb] && y.data == logical[h];
      WriteToLog(lb, hb);
      UpdatedBack(old(cache.bufs), lb, hb, x, y, cache.bufs[lb]);
    }

    method WriteToLog(lb: nat, hb: nat)
      requires cache.Valid() && lb < NBUF && hb < NBUF && lb != hb && cache.bufs[lb].locked && cache.bufs[hb].locked
      modifies cache`bufs, cache`disk, cache`trace, cache`next, cache`prev, cache`order
      ensures cache.Valid()
      ensures var data := old(cache.bufs)[hb].data;
              && cache.disk == old(cache.disk)[old(cache.bufs)[lb].blockno := data]
              && cache.trace == old(cache.trace) + [cache.disk]
              && cache.bufs == old(cache.bufs)[lb := old(cache.bufs)[lb].(locked := false, data := data, refcnt := old(cache.bufs)[lb].refcnt - 1)]
                   [hb := old(cache.bufs)[hb].(locked := false, refcnt := old(cache.bufs)[hb].refcnt - 1)]
    {
      CopyAndWrite(lb, hb);
      ReleasePair(hb, lb);
    }

    // The log area's buffer lb now holds what was written to log block l.
    lemma LogBlockStored(bufs: seq<Buf>, disk: Image, lb: nat, l: nat)
      requires cache.Valid() && g.Valid() && |disk| == g.total && Loggable(g, lh)
      requires |bufs| == NBUF && Coherent(bufs, pinned, logical, disk, true) && PinsMatch(bufs, cache.pins, cache.dev, pinned)
      requires forall x :: x in pinned ==> x in lh
      requires lb < NBUF && cache.pins[lb] == 0 && l < g.total && !g.Home(l)
      requires cache.disk == disk[l := cache.bufs[lb].data]
      requires cache.bufs == bufs[lb := Buf(true, cache.dev, l, bufs[lb].refcnt, false, cache.bufs[lb].data)]
      ensures Consistent(true)
    {
      assert l !in pinned;
      Stored(bufs, cache.pins, cache.dev, pinned, logical, disk, true, lb, cache.bufs[lb]);
    }

    // One round of install_trans: copy a log block home, and unpin it unless recovering.
    method InstallRound(tail: nat, recovering: bool)
      requires tail < |lh| && Consistent(true) && !Blocked(g.start + 1 + tail, lh[tail])
      requires if recovering then Idle() && pinned == {} else lh[tail] in pinned
      requires cache.disk[g.start + 1 + tail] == logical[lh[tail]]
      modifies cache, `pinned
      ensures Consistent(true) && (old(Quiet()) ==> Quiet()) && (recovering ==> Idle())
      ensures pinned == old(pinned) - {lh[tail]}
      ensures cache.disk == old(cache.disk)[lh[tail] := logical[lh[tail]]]
      ensures cache.trace == old(cache.trace) + [cache.disk]
    {
      var lb, hb := CopyHome(g.start + 1 + tail, lh[tail], recovering);
      pinned := pinned - {lh[tail]};
      HomeInstalled(old(cache.bufs), old(cache.pins), old(cache.disk), old(pinned), lb, hb, tail);
      if old(Quiet()) {
        QuietKept(g, lh, old(cache.bufs), lb, cache.bufs[lb]);
        QuietKept(g, lh, old(cache.bufs)[lb := cache.bufs[lb]], hb, cache.bufs[hb]);
      }
    }

    method CopyHome(l: nat, h: nat, recovering: bool) returns (lb: nat, hb: nat)
      requires Consistent(true) && !g.Home(l) && l < g.total && h in lh && !Blocked(l, h)
      requires if recovering then Idle() && pinned == {} else h in pinned
      modifies cache
      ensures cache.Valid() && lb < NBUF && hb < NBUF && lb != hb && old(cache.pins)[lb] == 0
      ensures if recovering then old(cache.pins)[hb] == 0 else Holds(old(cache.bufs)[hb], cache.dev, h)
      ensures cache.pins == old(cache.pins)[hb := 0]
      ensures cache.bufs[lb].refcnt == old(cache.bufs)[lb].refcnt && cache.bufs[hb].refcnt <= old(cache.bufs)[hb].refcnt
      ensures var data := old(cache.disk)[l];
              && cache.disk == old(cache.disk)[h := data]
              && cache.trace == old(cache.trace) + [cache.disk]
              && cache.bufs[lb] == Buf(true, cache.dev, l, cache.bufs[lb].refcnt, false, data)
              && cache.bufs[hb] == Buf(true, cache.dev, h, cache.bufs[hb].refcnt, false, data)
      ensures cache.bufs == old(cache.bufs)[lb := cache.bufs[lb]][hb := cache.bufs[hb]]
    {
      assert l !in lh;
      if !recovering {
        ghost var i := PinnedBuffer(h, true);
      }
      lb, hb := ReadPair(l, h);
      assert cache.bufs[lb].data == cache.disk[l];
      ghost var x, y := cache.bufs[lb], cache.bufs[hb];
      WriteHome(lb, hb, recovering);
      UpdatedAgain(old(cache.bufs), lb, hb, x, y, cache.bufs[lb], cache.bufs[hb]);
    }

    method WriteHome(lb: nat, hb: nat, recovering: bool)
      requires cache.Valid() && lb < NBUF && hb < NBUF && lb != hb && cache.bufs[lb].locked && cache.bufs[hb].locked
      requires cache.pins[hb] == B2N(!recovering)
      modifies cache`bufs, cache`disk, cache`trace, cache`pins, cache`next, cache`prev, cache`order
      ensures cache.Valid()
      ensures cache.pins == old(cache.pins)[hb := 0]
      ensures var data := old(cache.bufs)[lb].data;
              && cache.disk == old(cache.disk)[old(cache.bufs)[hb].blockno := data]
              && cache.trace == old(cache.trace) + [cache.disk]
              && cache.bufs == old(cache.bufs)[lb := old(cache.bufs)[lb].(locked := false, refcnt := old(cache.bufs)[lb].refcnt - 1)]
                   [hb := old(cache.bufs)[hb].(locked := false, data := data, refcnt := old(cache.bufs)[hb].refcnt - 1 - B2N(!recovering))]
    {
      CopyAndWrite(hb, lb);
      UnpinAndRelease(lb, hb, recovering);
    }

    lemma HomeInstalled(bufs: seq<Buf>, pins: seq<nat>, disk: Image, before: set<nat>, lb: nat, hb: nat, tail: nat)
      requires tail < |lh| && pinned == before - {lh[tail]} && forall x :: x in before ==> x in lh
      requires cache.Valid() && g.Valid() && |disk| == g.total && Loggable(g, lh)
      requires |bufs| == NBUF && Coherent(bufs, before, logical, disk, true) && PinsMatch(bufs, pins, cache.dev, before)
      requires lb < NBUF && hb < NBUF && lb != hb && pins[lb] == 0
      requires if lh[tail] in before then Holds(bufs[hb], cache.dev, lh[tail]) else pins[hb] == 0
      requires cache.pins == pins[hb := 0]
      requires disk[g.start + 1 + tail] == logical[lh[tail]]
      requires cache.disk == disk[lh[tail] := logical[lh[tail]]]
      requires cache.bufs == bufs[lb := cache.bufs[lb]][hb := cache.bufs[hb]]
      requires cache.bufs[lb] == Buf(true, cache.dev, g.start + 1 + tail, cache.bufs[lb].refcnt, false, logical[lh[tail]])
      requires cache.bufs[hb] == Buf(true, cache.dev, lh[tail], cache.bufs[hb].refcnt, false, logical[lh[tail]])
      ensures Consistent(true)
    {
      assert g.start + 1 + tail !in lh;
      InstallPins(bufs, pins, cache.dev, before, lb, hb, cache.bufs[lb], cache.bufs[hb]);
      CopiedHome(bufs, before, cache.dev, logical, disk, lb, hb, cache.bufs[lb], cache.bufs[hb]);
    }

    method UnpinAndRelease(lb: nat, hb: nat, recovering: bool)
      requires cache.Valid() && lb < NBUF && hb < NBUF && lb != hb && cache.bufs[lb].locked && cache.bufs[hb].locked
      requires !recovering ==> cache.pins[hb] > 0
      modifies cache`bufs, cache`pins, cache`next, cache`prev, cache`order
      ensures cache.Valid()
      ensures cache.pins == if recovering then old(cache.pins) else old(cache.pins)[hb := old(cache.pins)[hb] - 1]
      ensures var drop := if recovering then 1 else 2;
              cache.bufs == old(cache.bufs)[lb := old(cache.bufs)[lb].(locked := false, refcnt := old(cache.bufs)[lb].refcnt - 1)]
                                           [hb := old(cache.bufs)[hb].(locked := false, refcnt := old(cache.bufs)[hb].refcnt - drop)]
    {
      if !recovering {
        cache.Bunpin(hb);
      }
      ReleasePair(lb, hb);
    }

    // write_log, started on disk d, has done its first `tail` rounds.
    ghost predicate LoggedUpTo(d: Image, trace: seq<Image>, tail: nat)
      reads this`lh, this`logical, cache`disk, cache`trace
    {
      LogDone(g, lh, logical, d, trace, tail, cache.disk, cache.trace)
    }

    /** write_log, with whatever readers do before each of its writes.  It comes to its end
        or stops at a round that finds a buffer locked or none free; no reader, and no
        buffer held, means the end. */
    method WriteLog(others: Schedule) returns (tail: nat)
      requires Serves(true) && pinned == Elements(lh)
      modifies cache
      ensures Serves(true) && LoggedUpTo(old(cache.disk), old(cache.trace), tail)
      ensures tail < |lh| ==> HalfStuck(lh, tail)
      ensures Silent(others) && old(Quiet()) ==> tail == |lh| && Quiet()
    {
      ghost var d, trace, calm := cache.disk, cache.trace, Silent(others) && Quiet();
      tail := 0;
      assert Logged(g, d, ContentsOf(lh, logical), 0) == d;
      while tail < |lh|
        invariant Serves(true) && LoggedUpTo(d, trace, tail) && (calm ==> Quiet())
      {
        var next := tail + 1;
        var ready := LogTurn(others(tail), tail, next, d, trace, calm);
        if !ready {
          return;
        }
        tail := next;
      }
    }

    method LogTurn(steps: seq<ReaderStep>, tail: nat, next: nat, ghost d: Image, ghost trace: seq<Image>, ghost calm: bool) returns (ready: bool)
      requires Serves(true) && LoggedUpTo(d, trace, tail) && tail < |lh| && next == tail + 1 && lh[tail] in pinned
      requires calm ==> Quiet() && steps == []
      modifies cache
      ensures Serves(true) && LoggedUpTo(d, trace, if ready then next else tail) && (calm ==> ready && Quiet())
      ensures !ready ==> HalfStuck(lh, tail)
    {
      ready := Await(steps, tail, calm);
      if ready {
        LogNext(tail, next, d, trace);
      }
    }

    method LogNext(tail: nat, next: nat, ghost d: Image, ghost trace: seq<Image>)
      requires Serves(true) && LoggedUpTo(d, trace, tail) && tail < |lh| && next == tail + 1 && lh[tail] in pinned
      requires !HalfStuck(lh, tail)
      modifies cache
      ensures Serves(true) && LoggedUpTo(d, trace, next) && (old(Quiet()) ==> Quiet())
    {
      LogDoneMore(g, lh, logical, d, trace, tail, next, cache.disk, cache.trace);
      LogRound(g.start + 1 + tail, lh[tail]);
    }

    // A buffer that the round for a log block and a home block needs is locked, or none
    // is free for it.
    ghost predicate Blocked(l: nat, h: nat)
      reads cache
    {
      !cache.CanRead(l) || !cache.CanRead(h)
    }

    // Each half of a commit goes through the blocks and then writes the header: a buffer
    // it needs after k writes cannot be had.
    ghost predicate HalfStuck(blocks: seq<nat>, k: nat)
      reads cache
    {
      if k < |blocks| then Blocked(g.start + 1 + k, blocks[k]) else !cache.CanRead(g.start)
    }

    // Whether both buffers of a round can be taken.
    method Ready(tail: nat) returns (ready: bool)
      requires Consistent(true) && tail < |lh|
      ensures ready <==> !HalfStuck(lh, tail)
      ensures Quiet() ==> ready
    {
      ready := cache.Readable(g.start + 1 + tail);
      if ready {
        ready := cache.Readable(lh[tail]);
      }
    }

    // Readers go on; then the round may be possible.
    method Await(steps: seq<ReaderStep>, tail: nat, ghost calm: bool) returns (ready: bool)
      requires Serves(true) && tail < |lh| && (calm ==> Quiet() && steps == [])
      modifies cache`bufs, cache`waiting, cache`next, cache`prev, cache`order
      ensures Serves(true) && (ready <==> !HalfStuck(lh, tail)) && (calm ==> ready && Quiet())
    {
      Meanwhile(steps);
      ready := Ready(tail);
    }

    // hb->n and hb->block[0..n) are set; the rest of the block stays.
    static method FormatHeader(blk: Block, lh: seq<nat>) returns (r: Block)
      requires |lh| <= LOGSIZE && forall i :: 0 <= i < |lh| ==> lh[i] < 0x1_0000_0000
      ensures r == HeaderBlock(blk, lh)
    {
      r := blk[0 := |lh|];
      var i := 0;
      while i < |lh|
        invariant i <= |lh|
        invariant r[0] == |lh|
        invariant forall j :: 0 <= j < i ==> r[1 + j] == lh[j]
        invariant forall j :: i < j < WORDS ==> r[j] == blk[j]
      {
        r := r[1 + i := lh[i]];
        i := i + 1;
      }
    }

    method WriteHead()
      requires Consistent(true) && cache.CanRead(g.start)
      modifies cache
      ensures Consistent(true) && (old(Quiet()) ==> Quiet())
      ensures old(Serves(true)) ==> Serves(true)
      ensures cache.disk == WithHeader(g, old(cache.disk), lh)
      ensures cache.trace == old(cache.trace) + [cache.disk]
    {
      assert g.start !in lh;
      var lb := Fetch(g.start);
      var data := FormatHeader(cache.bufs[lb].data, lh);
      StoreAndRelease(lb, data);
      LogBlockStored(old(cache.bufs), old(cache.disk), lb, g.start);
    }

    method StoreAndRelease(b: nat, data: Block)
      requires cache.Valid() && b < NBUF && cache.bufs[b].locked
      modifies cache`bufs, cache`disk, cache`trace, cache`next, cache`prev, cache`order
      ensures cache.Valid()
      ensures cache.disk == old(cache.disk)[old(cache.bufs)[b].blockno := data]
      ensures cache.trace == old(cache.trace) + [cache.disk]
      ensures cache.bufs == old(cache.bufs)[b := old(cache.bufs)[b].(locked := false, data := data, refcnt := old(cache.bufs)[b].refcnt - 1)]
    {
      UniqueKept(cache.bufs, b, cache.bufs[b].(data := data));
      cache.bufs := cache.bufs[b := cache.bufs[b].(data := data)];
      cache.Bwrite(b);
      GiveBack(b);
    }

    // install_trans, started on disk d, has done its first `tail` rounds.
    ghost predicate InstalledUpTo(d: Image, trace: seq<Image>, tail: nat)
      reads this`lh, this`logical, cache`disk, cache`trace
    {
      HomesDone(g, lh, logical, d, trace, tail, cache.disk, cache.trace)
    }

    // The first `tail` blocks are no longer pinned.  While recovering none is, and nobody
    // is there to be served.
    ghost predicate Installing(tail: nat, recovering: bool)
      reads this`lh, this`logical, this`pinned, cache
    {
      if recovering then Consistent(true) && Idle() && pinned == {}
      else Serves(true) && forall i :: 0 <= i < |lh| ==> (lh[i] in pinned <==> tail <= i)
    }

    method InstallNext(tail: nat, next: nat, recovering: bool, ghost d: Image, ghost trace: seq<Image>)
      requires InstalledUpTo(d, trace, tail) && tail < |lh| && next == tail + 1 && Installing(tail, recovering)
      requires !HalfStuck(lh, tail)
      modifies cache, `pinned
      ensures InstalledUpTo(d, trace, next) && Installing(next, recovering) && (old(Quiet()) ==> Quiet())
    {
      HomesDoneMore(g, lh, logical, d, trace, tail, next, cache.disk, cache.trace);
      InstallMoves(tail, next, recovering);
    }

    method InstallMoves(tail: nat, next: nat, recovering: bool)
      requires tail < |lh| && next == tail + 1 && Installing(tail, recovering) && !Blocked(g.start + 1 + tail, lh[tail])
      requires cache.disk[g.start + 1 + tail] == logical[lh[tail]]
      modifies cache, `pinned
      ensures Installing(next, recovering) && (old(Quiet()) ==> Quiet())
      ensures cache.disk == old(cache.disk)[lh[tail] := logical[lh[tail]]] && cache.trace == old(cache.trace) + [cache.disk]
    {
      InstallRound(tail, recovering);
      OthersDiffer(lh, tail);
    }

    method InstallTurn(steps: seq<ReaderStep>, tail: nat, next: nat, recovering: bool, ghost d: Image, ghost trace: seq<Image>, ghost calm: bool)
      returns (ready: bool)
      requires InstalledUpTo(d, trace, tail) && tail < |lh| && next == tail + 1 && Installing(tail, recovering)
      requires (recovering ==> calm) && (calm ==> Quiet() && steps == [])
      modifies cache, `pinned
      ensures var k := if ready then next else tail; InstalledUpTo(d, trace, k) && Installing(k, recovering)
      ensures calm ==> ready && Quiet()
      ensures !ready ==> HalfStuck(lh, tail)
    {
      ready := AwaitInstall(steps, tail, recovering, calm);
      if ready {
        InstallNext(tail, next, recovering, d, trace);
      }
    }

    // As Await; while recovering there is nobody to wait for.
    method AwaitInstall(steps: seq<ReaderStep>, tail: nat, recovering: bool, ghost calm: bool) returns (ready: bool)
      requires tail < |lh| && Installing(tail, recovering) && (recovering ==> calm) && (calm ==> Quiet() && steps == [])
      modifies cache`bufs, cache`waiting, cache`next, cache`prev, cache`order
      ensures Installing(tail, recovering) && (calm ==> ready && Quiet())
      ensures ready <==> !HalfStuck(lh, tail)
    {
      if recovering {
        ready := Ready(tail);
      } else {
        ready := Await(steps, tail, calm);
      }
    }

    /** install_trans, with whatever readers do before each of its writes. */
    method InstallTrans(recovering: bool, others: Schedule, from: nat) returns (tail: nat)
      requires Installing(0, recovering) && (recovering ==> Silent(others) && Quiet())
      requires InstalledUpTo(cache.disk, cache.trace, 0)
      modifies cache, `pinned
      ensures InstalledUpTo(old(cache.disk), old(cache.trace), tail) && Installing(tail, recovering)
      ensures tail < |lh| ==> HalfStuck(lh, tail)
      ensures Silent(others) && old(Quiet()) ==> tail == |lh| && Quiet()
    {
      ghost var d, trace, calm := cache.disk, cache.trace, Silent(others) && Quiet();
      tail := 0;
      while tail < |lh|
        invariant InstalledUpTo(d, trace, tail) && Installing(tail, recovering) && (calm ==> Quiet())
      {
        var next := tail + 1;
        var ready := InstallTurn(others(from + tail), tail, next, recovering, d, trace, calm);
        if !ready {
          return;
        }
        tail := next;
      }
    }

    lemma StartInstall()
      requires Loggable(g, lh) && |logical| == g.total
      requires WellFormed(g, cache.disk) && LoggedBlocks(g, cache.disk) == lh && AllInLog(g, cache.disk, logical)
      ensures InstalledUpTo(cache.disk, cache.trace, 0)
    {
      assert Installed(g, cache.disk, 0) == cache.disk;
      assert InstallTrace(g, cache.disk)[..0] == [];
    }

    // read_head: copy the header of the log on disk into memory.
    method ReadHead()
      requires Consistent(true) && lh == [] && pinned == {} && Idle()
      requires WellFormed(g, cache.disk) && logical == Meaning(g, cache.disk)
      modifies `lh, cache`bufs, cache`waiting, cache`next, cache`prev, cache`order
      ensures Installing(0, true) && InstalledUpTo(cache.disk, cache.trace, 0) && Quiet()
      ensures HomesBut(g, cache.disk, logical, Elements(lh))
    {
      var b := ReadHeaderBlock();
      var blocks := ParseHeader(cache.bufs[b].data);
      assert blocks == LoggedBlocks(g, cache.disk);
      assert cache.bufs[0].refcnt == 0;
      lh := blocks;
      MeaningOfLogged(g, cache.disk);
      StartInstall();
    }

    method ReadHeaderBlock() returns (b: nat)
      requires Consistent(true) && lh == [] && pinned == {} && Idle()
      modifies cache`bufs, cache`waiting, cache`next, cache`prev, cache`order
      ensures Consistent(true) && Idle()
      ensures b < NBUF && cache.bufs[b].data == cache.disk[g.start]
    {
      assert cache.bufs[0].refcnt == 0;
      b := cache.Bread(g.start);
      GiveBack(b);
      assert cache.disk == cache.disk[g.start := cache.bufs[b].data];
      LogBlockStored(old(cache.bufs), old(cache.disk), b, g.start);
    }

    static method ParseHeader(blk: Block) returns (lh: seq<nat>)
      requires blk[0] <= LOGSIZE
      ensures lh == blk[1 .. 1 + blk[0]]
    {
      lh := [];
      var i := 0;
      while i < blk[0]
        invariant i <= blk[0]
        invariant lh == blk[1 .. 1 + i]
      {
        lh := lh + [blk[1 + i]];
        i := i + 1;
      }
    }

    lemma InstallFinished(d: Image, trace: seq<Image>)
      requires InstalledUpTo(d, trace, |lh|)
      requires HomesBut(g, d, logical, Elements(lh))
      ensures HomesBut(g, cache.disk, logical, {})
      ensures WithHeader(g, cache.disk, []) == Recovered(g, d)
      ensures cache.trace + [Recovered(g, d)] == trace + RecoverTrace(g, d)
    {
      InstalledHomes(g, d, logical);
      RecoverPrefix(g, d, |lh|);
      Regroup(trace, InstallTrace(g, d)[..|lh|], [Recovered(g, d)]);
    }

    /** The end of commit and of recovery: forget the transaction, then clear the
        header on disk, unless its buffer cannot be had. */
    method ClearLog(recovering: bool, others: Schedule, at: nat) returns (cleared: bool)
      requires Serves(true) && pinned == {} && (recovering ==> Silent(others) && Quiet())
      modifies `lh, cache
      ensures Serves(true) && lh == []
      ensures if cleared then Inv() else !cache.CanRead(g.start)
      ensures cache.disk == if cleared then WithHeader(g, old(cache.disk), []) else old(cache.disk)
      ensures cache.trace == old(cache.trace) + if cleared then [cache.disk] else []
      ensures Silent(others) && old(Quiet()) ==> cleared
    {
      lh := [];
      if !recovering {
        Meanwhile(others(at));
      }
      cleared := cache.Readable(g.start);
      if cleared {
        WriteHead();
      }
    }

    // Nor can one that the whole commit needs after n.
    ghost predicate Stuck(blocks: seq<nat>, n: nat)
      reads cache
    {
      HalfStuck(blocks, if n <= |blocks| then n else n - |blocks| - 1)
    }

    /** The first half of commit, up to and including the header write. */
    method LogAndMark(others: Schedule) returns (n: nat)
      requires Serves(true) && pinned == Elements(lh)
      modifies cache
      ensures Serves(true) && n <= |lh| + 1 && (n <= |lh| ==> HalfStuck(lh, n))
      ensures Silent(others) && old(Quiet()) ==> n == |lh| + 1 && Quiet()
      ensures cache.disk == Marked(old(cache.disk), n)
      ensures cache.trace == old(cache.trace) + (LogTrace(g, old(cache.disk), ContentsOf(lh, logical)) + [Marked(old(cache.disk), |lh| + 1)])[..n]
    {
      n := WriteLog(others);
      ghost var trace := LogTrace(g, old(cache.disk), ContentsOf(lh, logical));
      assert cache.trace == old(cache.trace) + (trace + [Marked(old(cache.disk), |lh| + 1)])[..n];
      if n == |lh| {
        var written := Mark(others(n));
        if written {
          assert trace[..n] == trace;
          Regroup(old(cache.trace), trace, [cache.disk]);
          n := n + 1;
        }
      }
    }

    // The header write, once readers have gone on and if its buffer can be had.
    method Mark(steps: seq<ReaderStep>) returns (written: bool)
      requires Serves(true)
      modifies cache
      ensures Serves(true) && (steps == [] && old(Quiet()) ==> written && Quiet())
      ensures !written ==> !cache.CanRead(g.start)
      ensures cache.disk == if written then WithHeader(g, old(cache.disk), lh) else old(cache.disk)
      ensures cache.trace == old(cache.trace) + if written then [cache.disk] else []
    {
      Meanwhile(steps);
      written := cache.Readable(g.start);
      if written {
        WriteHead();
      }
    }

    // The disk after n of the writes of LogAndMark.
    ghost function Marked(d: Image, n: nat): (r: Image)
      requires g.Valid() && |d| == g.total == |logical| && Loggable(g, lh) && n <= |lh| + 1
      reads this`lh, this`logical
    {
      var contents := ContentsOf(lh, logical);
      if n <= |lh| then Logged(g, d, contents, n) else WithHeader(g, Logged(g, d, contents, |lh|), lh)
    }

    /** commit, with whatever readers do before each of its block writes; n of them are
        done when it ends or has to stop for a buffer.  The disk goes through exactly the
        images of CommitTrace, so by RedoLog.CrashAtomicity a crash at any point loses all
        or nothing of the transaction; at its end the home blocks hold the logical
        contents.  Readers are served throughout. */
    method Commit(others: Schedule) returns (n: nat)
      requires Inv() && Serves(true)
      modifies `lh, `pinned, cache
      ensures Serves(true)
      ensures n <= |CommitTrace(g, old(cache.disk), old(lh), ContentsOf(old(lh), logical))|
      ensures cache.trace == old(cache.trace) + CommitTrace(g, old(cache.disk), old(lh), ContentsOf(old(lh), logical))[..n]
      ensures n == |CommitTrace(g, old(cache.disk), old(lh), ContentsOf(old(lh), logical))| ==>
                Inv() && lh == [] && HomesAre(g, cache.disk, logical)
      ensures |CommitTrace(g, old(cache.disk), old(lh), ContentsOf(old(lh), logical))| == Writes(|old(lh)|)
      ensures n < Writes(|old(lh)|) ==> Stuck(old(lh), n)
      ensures Silent(others) && old(Quiet()) ==> n == Writes(|old(lh)|)
    {
      n := 0;
      if |lh| > 0 {
        n := CommitLogged(others);
      }
    }

    method CommitLogged(others: Schedule) returns (n: nat)
      requires Inv() && Serves(true) && lh != []
      modifies `lh, `pinned, cache
      ensures Serves(true)
      ensures |CommitTrace(g, old(cache.disk), old(lh), ContentsOf(old(lh), logical))| == 2 * |old(lh)| + 2 >= n
      ensures cache.trace == old(cache.trace) + CommitTrace(g, old(cache.disk), old(lh), ContentsOf(old(lh), logical))[..n]
      ensures if n == 2 * |old(lh)| + 2 then Inv() && lh == [] && HomesAre(g, cache.disk, logical) else Stuck(old(lh), n)
      ensures Silent(others) && old(Quiet()) ==> n == 2 * |old(lh)| + 2
    {
      ghost var d, contents := cache.disk, ContentsOf(lh, logical);
      n := LogAndMark(others);
      CommitPrefix(g, d, lh, contents, n);
      if n == |lh| + 1 {
        n := CommitMarked(others, n, d, old(cache.trace));
      }
    }

    // commit from the header write on; it began on disk d with that trace.
    method CommitMarked(others: Schedule, from: nat, ghost d: Image, ghost trace: seq<Image>) returns (n: nat)
      requires Serves(true) && pinned == Elements(lh) && lh != [] && from == |lh| + 1
      requires WellFormed(g, d) && |logical| == g.total && cache.disk == Marked(d, from)
      requires |CommitTrace(g, d, lh, ContentsOf(lh, logical))| == 2 * |lh| + 2
      requires cache.trace == trace + CommitTrace(g, d, lh, ContentsOf(lh, logical))[..from]
      modifies `lh, `pinned, cache
      ensures Serves(true) && n <= 2 * |old(lh)| + 2
      ensures cache.trace == trace + CommitTrace(g, d, old(lh), ContentsOf(old(lh), logical))[..n]
      ensures if n == 2 * |old(lh)| + 2 then Inv() && lh == [] && HomesAre(g, cache.disk, logical) else Stuck(old(lh), n)
      ensures Silent(others) && old(Quiet()) ==> n == 2 * |old(lh)| + 2
    {
      ghost var c, contents := cache.disk, ContentsOf(lh, logical);
      MarkedInLog(d, c);
      var k := InstallAndClear(others, from);
      n := from + k;
      CommitGoesOn(g, d, old(lh), contents, c, from, k, n, trace);
    }

    lemma MarkedInLog(d: Image, c: Image)
      requires g.Valid() && |d| == g.total == |logical| && Loggable(g, lh) && c == Marked(d, |lh| + 1)
      ensures WellFormed(g, c) && LoggedBlocks(g, c) == lh && AllInLog(g, c, logical)
    {
      var contents := ContentsOf(lh, logical);
      HeaderWriteContents(g, d, lh, contents);
      forall i | 0 <= i < |lh| ensures InLog(g, c, logical, i) {
        assert c[g.start + 1 + i] == contents[i];
      }
    }

    // The second half of commit: k block writes after the header's.
    method InstallAndClear(others: Schedule, from: nat) returns (k: nat)
      requires Serves(true) && pinned == Elements(lh)
      requires WellFormed(g, cache.disk) && LoggedBlocks(g, cache.disk) == lh && AllInLog(g, cache.disk, logical)
      modifies `lh, `pinned, cache
      ensures Serves(true)
      ensures k <= |old(lh)| + 1
      ensures cache.trace == old(cache.trace) + RecoverTrace(g, old(cache.disk))[..k]
      ensures if k == |old(lh)| + 1 then Inv() && lh == [] && HomesAre(g, cache.disk, logical) else HalfStuck(old(lh), k)
      ensures Silent(others) && old(Quiet()) ==> k == |old(lh)| + 1
    {
      ghost var d, trace := cache.disk, cache.trace;
      StartInstall();
      k := InstallTrans(false, others, from);
      RecoverPrefix(g, d, k);
      if k == |lh| {
        InstallFinished(d, trace);
        assert pinned == {};
        var cleared := ClearLog(false, others, from + k);
        if cleared {
          k := k + 1;
        }
      }
    }

    /** end_op: the last operation out commits.  By then operations have released what
        they changed, so only readers hold buffers.  A commit still going on at the end is
        one that waits for a buffer. */
    method EndOp(others: Schedule) returns (n: nat)
      requires Inv() && outstanding >= 1 && !committing && (outstanding == 1 ==> Serves(true))
      modifies `lh, `pinned, `outstanding, `committing, cache
      ensures outstanding == old(outstanding) - 1 && (!committing ==> Inv())
      ensures outstanding > 0 ==> n == 0 && !committing && lh == old(lh) && cache.disk == old(cache.disk)
      ensures outstanding == 0 ==>
                var writes := CommitTrace(g, old(cache.disk), old(lh), ContentsOf(old(lh), logical));
                && n <= |writes| == Writes(|old(lh)|) && cache.trace == old(cache.trace) + writes[..n]
                && (committing <==> n < |writes|)
                && (if committing then Serves(true) && Stuck(old(lh), n) else lh == [] && HomesAre(g, cache.disk, logical))
                && (Silent(others) && old(Quiet()) ==> !committing)
    {
      outstanding := outstanding - 1;
      n := 0;
      if outstanding == 0 {
        var writes := Writes(|lh|);
        committing := true;
        n := Commit(others);
        if n == writes {
          committing := false;
        }
      }
    }

    // ---- Buffers enough for a commit -----------------------------------------

    // Nobody holds or waits for a buffer.
    ghost predicate Unused()
      requires cache.Valid()
      reads cache
    {
      forall i :: 0 <= i < NBUF ==> !cache.bufs[i].locked && cache.waiting[i] == 0
    }

    /** With nobody else at it, commit gets its first buffer exactly when the transaction
        has fewer blocks than there are buffers; otherwise bget panics.  As NBUF is
        LOGSIZE, a transaction that fills the log cannot be committed. */
    lemma CommitStartsIff()
      requires Inv() && Unused() && lh != []
      ensures |lh| < NBUF <==> HasFree(cache.bufs)
      ensures |lh| < NBUF <==> Quiet()
      ensures |lh| < NBUF <==> !Blocked(g.start + 1, lh[0])
    {
      FreeIff(cache.bufs, cache.pins, cache.dev, lh);
      forall i | 0 <= i < NBUF ensures cache.bufs[i].refcnt == cache.pins[i] {
      }
      ghost var i := PinnedBuffer(lh[0], false);
      if !HasFree(cache.bufs) {
        forall j | 0 <= j < NBUF ensures !Holds(cache.bufs[j], cache.dev, g.start + 1) {
          assert cache.pins[j] == 1;
        }
      }
    }
  }

  // The buffers of the pinned blocks, one for each.
  ghost function PinnedBuffers(bufs: seq<Buf>, dev: nat, lh: seq<nat>): (r: seq<nat>)
    ensures |r| == |lh|
  {
    seq(|lh|, k requires 0 <= k < |lh| => Lookup(bufs, dev, lh[k]))
  }

  lemma FreeIff(bufs: seq<Buf>, pins: seq<nat>, dev: nat, lh: seq<nat>)
    requires PinsMatch(bufs, pins, dev, Elements(lh)) && Unique(bufs) && dev != 0 && Distinct(lh)
    ensures |lh| < |bufs| <==> exists i :: 0 <= i < |pins| && pins[i] == 0
  {
    var js := PinnedBuffers(bufs, dev, lh);
    forall k | 0 <= k < |js| ensures js[k] < |bufs| && Holds(bufs[js[k]], dev, lh[k]) {
      assert lh[k] in Elements(lh) && Held(bufs, dev, lh[k]);
    }
    forall j, k | 0 <= j < k < |js| ensures !Same(js, j, k) {
      assert !Same(lh, j, k);
    }
    Pigeonhole(js, |bufs|);
    forall i | 0 <= i < |bufs| ensures i in js <==> pins[i] != 0 {
      if pins[i] != 0 {
        var k := Find(lh, bufs[i].blockno);
        LookupUnique(bufs, dev, lh[k], i);
        assert js[k] == i;
      }
    }
  }
}
