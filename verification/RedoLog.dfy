/** The on-disk side of the redo log: what each block write of a commit or of a
    recovery leaves on the disk, and what a crash between any two writes means.

    A disk image is a sequence of blocks of 256 32-bit words.  The log area is
    `size` blocks from `start`: a header block (word 0 is the number of logged
    blocks, words 1.. their home block numbers) followed by the logged contents. */
module RedoLog {
  import opened Basics

  const WORDS := 256

  type Word = x: int | 0 <= x < 0x1_0000_0000
  type Block = b: seq<Word> | |b| == WORDS witness seq(WORDS, _ => 0)
  type Image = seq<Block>

  const ZERO_BLOCK: Block := seq(WORDS, _ => 0)

  datatype Geometry = Geometry(start: nat, size: nat, total: nat) {
    predicate Valid() {
      1 <= size && start + size <= total <= 0x1_0000_0000
    }

    // A block outside the log area.
    predicate Home(b: nat) {
      b < total && !(start <= b < start + size)
    }
  }

  // Block numbers that one transaction may carry.
  ghost predicate Loggable(g: Geometry, lh: seq<nat>) {
    && |lh| <= LOGSIZE
    && |lh| < g.size
    && Distinct(lh)
    && forall i :: 0 <= i < |lh| ==> g.Home(lh[i])
  }

  // ---- The header block ----------------------------------------------------

  function HeaderCount(g: Geometry, d: Image): nat
    requires g.Valid() && |d| == g.total
  {
    d[g.start][0]
  }

  function LoggedBlocks(g: Geometry, d: Image): (lh: seq<nat>)
    requires g.Valid() && |d| == g.total
    requires HeaderCount(g, d) <= LOGSIZE
  {
    d[g.start][1 .. 1 + HeaderCount(g, d)]
  }

  // write_head overwrites the count and the first |lh| slots; the rest of the
  // header block keeps whatever it held.
  function HeaderBlock(old_: Block, lh: seq<nat>): Block
    requires |lh| <= LOGSIZE
    requires forall i :: 0 <= i < |lh| ==> lh[i] < 0x1_0000_0000
  {
    [|lh|] + seq(|lh|, i requires 0 <= i < |lh| => lh[i] as Word) + old_[1 + |lh| ..]
  }

  ghost predicate WellFormed(g: Geometry, d: Image) {
    && g.Valid()
    && |d| == g.total
    && HeaderCount(g, d) <= LOGSIZE
    && Loggable(g, LoggedBlocks(g, d))
  }

  function WithHeader(g: Geometry, d: Image, lh: seq<nat>): (r: Image)
    requires g.Valid() && |d| == g.total
    requires |lh| <= LOGSIZE
    requires forall i :: 0 <= i < |lh| ==> lh[i] < 0x1_0000_0000
    ensures |r| == g.total && HeaderCount(g, r) == |lh| && LoggedBlocks(g, r) == lh
  {
    d[g.start := HeaderBlock(d[g.start], lh)]
  }

  // The contents commit writes for the blocks lh.
  ghost function ContentsOf(lh: seq<nat>, logical: Image): (r: seq<Block>)
    requires forall i :: 0 <= i < |lh| ==> lh[i] < |logical|
    ensures |r| == |lh|
  {
    seq(|lh|, i requires 0 <= i < |lh| => logical[lh[i]])
  }

  // ---- Disk contents after each write --------------------------------------

  // After write_log has written its first k log blocks.
  ghost function Logged(g: Geometry, d: Image, contents: seq<Block>, k: nat): (r: Image)
    requires g.Valid() && |d| == g.total
    requires k <= |contents| < g.size
    ensures |r| == g.total
  {
    seq(|d|, b requires 0 <= b < |d| =>
      if g.start < b <= g.start + k then contents[b - g.start - 1] else d[b])
  }

  // After install_trans has copied its first k log blocks home.
  ghost function Installed(g: Geometry, d: Image, k: nat): (r: Image)
    requires WellFormed(g, d)
    requires k <= HeaderCount(g, d)
    ensures |r| == g.total
  {
    var lh := LoggedBlocks(g, d);
    seq(|d|, b requires 0 <= b < |d| =>
      if Find(lh, b) < k then d[g.start + 1 + Find(lh, b)] else d[b])
  }

  lemma LoggedStep(g: Geometry, d: Image, contents: seq<Block>, k: nat, next: nat)
    requires g.Valid() && |d| == g.total
    requires k < |contents| < g.size && next == k + 1
    ensures Logged(g, d, contents, next) == Logged(g, d, contents, k)[g.start + 1 + k := contents[k]]
    ensures LogTrace(g, d, contents)[..next] == LogTrace(g, d, contents)[..k] + [Logged(g, d, contents, next)]
  {
  }

  lemma InstalledStep(g: Geometry, d: Image, k: nat, next: nat)
    requires WellFormed(g, d)
    requires k < HeaderCount(g, d) && next == k + 1
    ensures Installed(g, d, next) == Installed(g, d, k)[LoggedBlocks(g, d)[k] := d[g.start + 1 + k]]
    ensures Installed(g, d, k)[g.start + 1 + k] == d[g.start + 1 + k]
    ensures InstallTrace(g, d)[..next] == InstallTrace(g, d)[..k] + [Installed(g, d, next)]
  {
    var lh := LoggedBlocks(g, d);
    FindUnique(lh, k);
    assert forall b :: 0 <= b < |d| && Find(lh, b) == k ==> b == lh[k];
    assert !g.Home(g.start + 1 + k);
    assert g.start + 1 + k !in lh;
  }

  // The image after the k-th write of a commit of blocks lh with these contents.
  ghost function CommitState(g: Geometry, d: Image, lh: seq<nat>, contents: seq<Block>, k: nat): (r: Image)
    requires WellFormed(g, d) && Loggable(g, lh) && |contents| == |lh|
    requires k <= 2 * |lh| + 2
    ensures |r| == g.total
  {
    if k <= |lh| then Logged(g, d, contents, k)
    else RecoverState(g, WithHeader(g, Logged(g, d, contents, |lh|), lh), k - |lh| - 1)
  }

  // The image after the k-th write of recover_from_log started on d.
  ghost function RecoverState(g: Geometry, d: Image, k: nat): (r: Image)
    requires WellFormed(g, d)
    requires k <= HeaderCount(g, d) + 1
    ensures |r| == g.total
  {
    if k <= HeaderCount(g, d) then Installed(g, d, k)
    else WithHeader(g, Installed(g, d, HeaderCount(g, d)), [])
  }

  ghost function RecoverTrace(g: Geometry, d: Image): seq<Image>
    requires WellFormed(g, d)
  {
    var n := HeaderCount(g, d);
    seq(n + 1, k requires 0 <= k < n + 1 => RecoverState(g, d, k + 1))
  }

  ghost function LogTrace(g: Geometry, d: Image, contents: seq<Block>): seq<Image>
    requires g.Valid() && |d| == g.total && |contents| < g.size
  {
    seq(|contents|, k requires 0 <= k < |contents| => Logged(g, d, contents, k + 1))
  }

  ghost function InstallTrace(g: Geometry, d: Image): seq<Image>
    requires WellFormed(g, d)
  {
    var n := HeaderCount(g, d);
    seq(n, k requires 0 <= k < n => Installed(g, d, k + 1))
  }

  // The first k images of a recovery.
  lemma RecoverPrefix(g: Geometry, d: Image, k: nat)
    requires WellFormed(g, d) && k <= HeaderCount(g, d)
    ensures |RecoverTrace(g, d)| == HeaderCount(g, d) + 1
    ensures RecoverTrace(g, d)[..k] == InstallTrace(g, d)[..k]
    ensures RecoverTrace(g, d)[..HeaderCount(g, d) + 1] == RecoverTrace(g, d)
    ensures RecoverTrace(g, d) == InstallTrace(g, d)[..HeaderCount(g, d)] + [Recovered(g, d)]
  {
  }

  lemma CommitStates(g: Geometry, d: Image, lh: seq<nat>, contents: seq<Block>, c: Image, k: nat)
    requires WellFormed(g, d) && Loggable(g, lh) && |contents| == |lh|
    requires c == WithHeader(g, Logged(g, d, contents, |lh|), lh)
    requires k <= |lh| + 1
    ensures WellFormed(g, c) && HeaderCount(g, c) == |lh|
    ensures k <= |lh| ==> CommitState(g, d, lh, contents, k) == Logged(g, d, contents, k)
    ensures CommitState(g, d, lh, contents, |lh| + 1 + k) == RecoverState(g, c, k)
    ensures RecoverState(g, c, 0) == c
  {
  }

  /** Every image the disk goes through during commit(), one per block write: the log
      blocks, the header, then the same writes as a recovery. */
  ghost function CommitTrace(g: Geometry, d: Image, lh: seq<nat>, contents: seq<Block>): seq<Image>
    requires WellFormed(g, d) && Loggable(g, lh) && |contents| == |lh|
  {
    if lh == [] then []
    else
      var c := WithHeader(g, Logged(g, d, contents, |lh|), lh);
      LogTrace(g, d, contents) + [c] + RecoverTrace(g, c)
  }

  lemma CommitTraceAt(g: Geometry, d: Image, lh: seq<nat>, contents: seq<Block>, k: nat)
    requires WellFormed(g, d) && Loggable(g, lh) && |contents| == |lh| > 0
    requires k < 2 * |lh| + 2
    ensures |CommitTrace(g, d, lh, contents)| == 2 * |lh| + 2
    ensures CommitTrace(g, d, lh, contents)[k] == CommitState(g, d, lh, contents, k + 1)
  {
    var c := WithHeader(g, Logged(g, d, contents, |lh|), lh);
    JoinedAt(LogTrace(g, d, contents), c, RecoverTrace(g, c), k);
    CommitStates(g, d, lh, contents, c, if k < |lh| then k + 1 else k - |lh|);
  }

  // The first n images of a commit, n up to the header's.
  lemma CommitPrefix(g: Geometry, d: Image, lh: seq<nat>, contents: seq<Block>, n: nat)
    requires WellFormed(g, d) && Loggable(g, lh) && |contents| == |lh| > 0 && n <= |lh| + 1
    ensures |CommitTrace(g, d, lh, contents)| == 2 * |lh| + 2
    ensures CommitTrace(g, d, lh, contents)[..n] == (LogTrace(g, d, contents) + [WithHeader(g, Logged(g, d, contents, |lh|), lh)])[..n]
  {
    var c := WithHeader(g, Logged(g, d, contents, |lh|), lh);
    TracePrefix(LogTrace(g, d, contents), c, RecoverTrace(g, c), n);
  }

  // And those up to the k-th after the header's.
  lemma CommitSuffix(g: Geometry, d: Image, lh: seq<nat>, contents: seq<Block>, c: Image, k: nat)
    requires WellFormed(g, d) && Loggable(g, lh) && |contents| == |lh| > 0
    requires c == WithHeader(g, Logged(g, d, contents, |lh|), lh) && k <= |lh| + 1
    ensures |CommitTrace(g, d, lh, contents)| == 2 * |lh| + 2
    ensures CommitTrace(g, d, lh, contents)[..|lh| + 1 + k] == CommitTrace(g, d, lh, contents)[..|lh| + 1] + RecoverTrace(g, c)[..k]
  {
    TraceSuffix(LogTrace(g, d, contents), c, RecoverTrace(g, c), k);
  }

  lemma Regroup(a: seq<Image>, b: seq<Image>, c: seq<Image>)
    ensures (a + b) + c == a + (b + c)
  {
  }

  lemma TracePrefix(a: seq<Image>, c: Image, r: seq<Image>, n: nat)
    requires n <= |a| + 1
    ensures (a + [c] + r)[..n] == (a + [c])[..n]
  {
  }

  lemma TraceSuffix(a: seq<Image>, c: Image, r: seq<Image>, k: nat)
    requires k <= |r|
    ensures (a + [c] + r)[..|a| + 1 + k] == (a + [c] + r)[..|a| + 1] + r[..k]
  {
  }

  lemma JoinedAt(a: seq<Image>, c: Image, r: seq<Image>, k: nat)
    requires k < |a| + 1 + |r|
    ensures (a + [c] + r)[k] == if k < |a| then a[k] else if k == |a| then c else r[k - |a| - 1]
  {
  }

  // ---- What an image means ---------------------------------------------------

  // The file-system contents an image stands for: a logged block has the log's
  // copy, any other its home copy.  The log area itself carries no contents.
  ghost function Meaning(g: Geometry, d: Image): (r: Image)
    requires WellFormed(g, d)
    ensures |r| == g.total
  {
    var lh := LoggedBlocks(g, d);
    seq(|d|, b requires 0 <= b < |d| =>
      if !g.Home(b) then ZERO_BLOCK
      else if b in lh then d[g.start + 1 + Find(lh, b)]
      else d[b])
  }

  // Base contents with one transaction applied.
  ghost function Overlay(base: Image, lh: seq<nat>, contents: seq<Block>): (r: Image)
    requires |contents| == |lh|
    ensures |r| == |base|
  {
    seq(|base|, b requires 0 <= b < |base| =>
      if b in lh then contents[Find(lh, b)] else base[b])
  }

  // Log block i has the contents that x wants for the i-th logged block.
  ghost predicate InLog(g: Geometry, d: Image, x: Image, i: nat)
    requires WellFormed(g, d) && |x| == g.total && i < HeaderCount(g, d)
  {
    d[g.start + 1 + i] == x[LoggedBlocks(g, d)[i]]
  }

  ghost predicate AllInLog(g: Geometry, d: Image, x: Image)
    requires WellFormed(g, d) && |x| == g.total
  {
    forall i {:trigger InLog(g, d, x, i)} :: 0 <= i < HeaderCount(g, d) ==> InLog(g, d, x, i)
  }

  // Home blocks other than these are as x wants them.
  ghost predicate HomesBut(g: Geometry, d: Image, x: Image, blocks: set<nat>) {
    && |d| == |x| == g.total
    && forall b {:trigger g.Home(b)} :: 0 <= b < g.total && g.Home(b) && b !in blocks ==> x[b] == d[b]
  }

  lemma MeaningOfLogged(g: Geometry, d: Image)
    requires WellFormed(g, d)
    ensures AllInLog(g, d, Meaning(g, d)) && HomesBut(g, d, Meaning(g, d), Elements(LoggedBlocks(g, d)))
  {
    var lh := LoggedBlocks(g, d);
    forall i | 0 <= i < |lh| ensures InLog(g, d, Meaning(g, d), i) {
      FindUnique(lh, i);
    }
  }

  // A completed install_trans puts every block where the contents x want it.
  lemma InstalledHomes(g: Geometry, d: Image, x: Image)
    requires WellFormed(g, d) && |x| == g.total
    requires AllInLog(g, d, x) && HomesBut(g, d, x, Elements(LoggedBlocks(g, d)))
    ensures HomesAre(g, Installed(g, d, HeaderCount(g, d)), x)
  {
    forall b | 0 <= b < g.total && g.Home(b) ensures Installed(g, d, HeaderCount(g, d))[b] == x[b] {
      assert b in LoggedBlocks(g, d) ==> InLog(g, d, x, Find(LoggedBlocks(g, d), b));
    }
  }

  ghost predicate HomesAre(g: Geometry, d: Image, contents: Image) {
    && |d| == |contents| == g.total
    && forall b :: 0 <= b < g.total && g.Home(b) ==> d[b] == contents[b]
  }

  // ---- Each write keeps, or atomically switches, the meaning -----------------

  lemma LoggingKeepsMeaning(g: Geometry, d: Image, contents: seq<Block>, k: nat)
    requires WellFormed(g, d) && HeaderCount(g, d) == 0
    requires k <= |contents| < g.size
    ensures WellFormed(g, Logged(g, d, contents, k))
    ensures HeaderCount(g, Logged(g, d, contents, k)) == 0
    ensures Meaning(g, Logged(g, d, contents, k)) == Meaning(g, d)
  {
  }

  lemma HeaderWriteContents(g: Geometry, d: Image, lh: seq<nat>, contents: seq<Block>)
    requires g.Valid() && |d| == g.total
    requires Loggable(g, lh) && |contents| == |lh|
    ensures var c := WithHeader(g, Logged(g, d, contents, |lh|), lh);
            && (forall b :: 0 <= b < g.total && g.Home(b) ==> c[b] == d[b])
            && (forall i :: 0 <= i < |lh| ==> c[g.start + 1 + i] == contents[i])
  {
  }

  lemma HeaderWriteCommits(g: Geometry, d: Image, lh: seq<nat>, contents: seq<Block>)
    requires WellFormed(g, d) && HeaderCount(g, d) == 0
    requires Loggable(g, lh) && |contents| == |lh|
    ensures var c := WithHeader(g, Logged(g, d, contents, |lh|), lh);
            WellFormed(g, c) && Meaning(g, c) == Overlay(Meaning(g, d), lh, contents)
  {
    var c := WithHeader(g, Logged(g, d, contents, |lh|), lh);
    HeaderWriteContents(g, d, lh, contents);
    var m, o := Meaning(g, c), Overlay(Meaning(g, d), lh, contents);
    forall b | 0 <= b < g.total ensures m[b] == o[b] {
      if b in lh {
        assert g.Home(b);
      }
    }
  }

  lemma InstallKeepsLogArea(g: Geometry, d: Image, k: nat)
    requires WellFormed(g, d)
    requires k <= HeaderCount(g, d)
    ensures forall b :: 0 <= b < g.total && !g.Home(b) ==> Installed(g, d, k)[b] == d[b]
    ensures WellFormed(g, Installed(g, d, k))
    ensures LoggedBlocks(g, Installed(g, d, k)) == LoggedBlocks(g, d)
  {
    var r := Installed(g, d, k);
    forall b | 0 <= b < g.total && !g.Home(b) ensures r[b] == d[b] {
      assert b !in LoggedBlocks(g, d);
    }
    assert !g.Home(g.start);
    assert r[g.start] == d[g.start];
  }

  lemma InstallKeepsMeaning(g: Geometry, d: Image, k: nat)
    requires WellFormed(g, d)
    requires k <= HeaderCount(g, d)
    ensures WellFormed(g, Installed(g, d, k))
    ensures Meaning(g, Installed(g, d, k)) == Meaning(g, d)
  {
    InstallKeepsLogArea(g, d, k);
    var lh := LoggedBlocks(g, d);
    var r := Installed(g, d, k);
    forall b | 0 <= b < g.total && g.Home(b) ensures Meaning(g, r)[b] == Meaning(g, d)[b] {
      if b in lh {
        assert !g.Home(g.start + 1 + Find(lh, b));
      }
    }
  }

  lemma ClearKeepsMeaning(g: Geometry, d: Image)
    requires WellFormed(g, d)
    ensures var r := WithHeader(g, Installed(g, d, HeaderCount(g, d)), []);
            WellFormed(g, r) && HeaderCount(g, r) == 0 && Meaning(g, r) == Meaning(g, d) && HomesAre(g, r, Meaning(g, d))
  {
    var lh := LoggedBlocks(g, d);
    var r := WithHeader(g, Installed(g, d, HeaderCount(g, d)), []);
    forall b | 0 <= b < g.total && g.Home(b) ensures r[b] == Meaning(g, d)[b] {
      assert b != g.start;
    }
  }

  // ---- Crashes ---------------------------------------------------------------

  lemma RecoveryCrashMeaning(g: Geometry, d: Image, k: nat)
    requires WellFormed(g, d)
    requires k <= HeaderCount(g, d) + 1
    ensures WellFormed(g, RecoverState(g, d, k)) && Meaning(g, RecoverState(g, d, k)) == Meaning(g, d)
    ensures k == HeaderCount(g, d) + 1 ==>
              HeaderCount(g, RecoverState(g, d, k)) == 0 && HomesAre(g, RecoverState(g, d, k), Meaning(g, d))
  {
    if k <= HeaderCount(g, d) {
      InstallKeepsMeaning(g, d, k);
    } else {
      ClearKeepsMeaning(g, d);
    }
  }

  /** What a commit interrupted after k block writes means: the old contents up to
      and including the last log-block write, the new contents from the header
      write on. */
  lemma CommitCrashMeaning(g: Geometry, d: Image, lh: seq<nat>, contents: seq<Block>, k: nat)
    requires WellFormed(g, d) && HeaderCount(g, d) == 0
    requires Loggable(g, lh) && |contents| == |lh|
    requires k <= 2 * |lh| + 2
    ensures WellFormed(g, CommitState(g, d, lh, contents, k))
    ensures Meaning(g, CommitState(g, d, lh, contents, k))
         == if k <= |lh| then Meaning(g, d) else Overlay(Meaning(g, d), lh, contents)
  {
    if k <= |lh| {
      LoggingKeepsMeaning(g, d, contents, k);
    } else {
      HeaderWriteCommits(g, d, lh, contents);
      RecoveryCrashMeaning(g, WithHeader(g, Logged(g, d, contents, |lh|), lh), k - |lh| - 1);
    }
  }

  // The same of the images that the disk goes through.
  lemma CommitImageMeaning(g: Geometry, d: Image, lh: seq<nat>, contents: seq<Block>, k: nat)
    requires WellFormed(g, d) && HeaderCount(g, d) == 0
    requires Loggable(g, lh) && |contents| == |lh| > 0
    requires k < 2 * |lh| + 2
    ensures |CommitTrace(g, d, lh, contents)| == 2 * |lh| + 2
    ensures WellFormed(g, CommitTrace(g, d, lh, contents)[k])
    ensures Meaning(g, CommitTrace(g, d, lh, contents)[k]) == if k < |lh| then Meaning(g, d) else Overlay(Meaning(g, d), lh, contents)
  {
    CommitTraceAt(g, d, lh, contents, k);
    CommitCrashMeaning(g, d, lh, contents, k + 1);
  }

  /** The image left when recovery is started and crashes again once per element of
      `crashes`, each time after that many block writes (a larger number means the
      recovery ran to its end before the machine went down). */
  ghost function AfterCrashes(g: Geometry, d: Image, crashes: seq<nat>): (r: Image)
    requires WellFormed(g, d)
    ensures WellFormed(g, r) && Meaning(g, r) == Meaning(g, d)
    decreases |crashes|
  {
    if crashes == [] then d
    else
      var k := if crashes[0] <= HeaderCount(g, d) then crashes[0] else HeaderCount(g, d) + 1;
      RecoveryCrashMeaning(g, d, k);
      AfterCrashes(g, RecoverState(g, d, k), crashes[1..])
  }

  // The image a recovery that is not interrupted leaves.
  ghost function Recovered(g: Geometry, d: Image): (r: Image)
    requires WellFormed(g, d)
    ensures |r| == g.total
  {
    RecoverState(g, d, HeaderCount(g, d) + 1)
  }

  lemma RecoveryFinishes(g: Geometry, d: Image, crashes: seq<nat>)
    requires WellFormed(g, d)
    ensures var final := Recovered(g, AfterCrashes(g, d, crashes));
            HeaderCount(g, final) == 0 && HomesAre(g, final, Meaning(g, d))
  {
    var crashed := AfterCrashes(g, d, crashes);
    RecoveryCrashMeaning(g, crashed, HeaderCount(g, crashed) + 1);
  }

  lemma MeaningOfEmptyLog(g: Geometry, d: Image, lh: seq<nat>, contents: seq<Block>, r: Image)
    requires WellFormed(g, d) && HeaderCount(g, d) == 0
    requires |contents| == |lh|
    ensures HomesAre(g, r, Meaning(g, d)) ==> HomesAre(g, r, d)
    ensures HomesAre(g, r, Overlay(Meaning(g, d), lh, contents)) ==> HomesAre(g, r, Overlay(d, lh, contents))
  {
  }

  /** Crash atomicity.  A commit stopped after any number k of block writes, followed
      by any number of interrupted recoveries and one that finishes, leaves an empty
      log and home blocks that are all old when the header was not yet written and
      all new when it was. */
  lemma CrashAtomicity(g: Geometry, d: Image, lh: seq<nat>, contents: seq<Block>, k: nat, crashes: seq<nat>)
    requires WellFormed(g, d) && HeaderCount(g, d) == 0
    requires Loggable(g, lh) && |contents| == |lh|
    requires k <= 2 * |lh| + 2
    ensures WellFormed(g, CommitState(g, d, lh, contents, k))
    ensures var final := Recovered(g, AfterCrashes(g, CommitState(g, d, lh, contents, k), crashes));
            && HeaderCount(g, final) == 0
            && HomesAre(g, final, if k <= |lh| then d else Overlay(d, lh, contents))
  {
    CommitCrashMeaning(g, d, lh, contents, k);
    var crashed := CommitState(g, d, lh, contents, k);
    RecoveryFinishes(g, crashed, crashes);
    MeaningOfEmptyLog(g, d, lh, contents, Recovered(g, AfterCrashes(g, crashed, crashes)));
  }
}
