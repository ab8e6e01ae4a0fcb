/** The transaction that uses up MAXOPBLOCKS: a disk of four bitmap blocks with one free
    block under each, and a chunk that starts inside the last direct block of a file. */
module WorstWrite {
  import opened Basics
  import opened BlockMap
  import opened FileSystem

  const SIZE := 4 * BPB
  // As mkfs lays it out: boot block, superblock, 30 log blocks, 170 inode blocks and 5
  // bitmap blocks.
  const SB := Super(SIZE, 207, 32, 202)
  const INODES := 2714

  // The last block under each bitmap block is free.
  predicate Free(b: nat) {
    b % BPB == BPB - 1
  }

  // Inode f has the twelve blocks from 207 + 12 * f on, as far as they are in use.
  function DirectAddr(f: nat, k: nat): nat {
    var b := SB.nmeta + NDIRECT * f + k;
    if k < NDIRECT && b < SIZE && !Free(b) then b else 0
  }

  function Addrs(f: nat): (r: seq<nat>)
    ensures |r| == NDIRECT + 1 && forall k :: 0 <= k <= NDIRECT ==> r[k] == DirectAddr(f, k)
  {
    seq(NDIRECT + 1, k requires 0 <= k => DirectAddr(f, k))
  }

  const OFF := 11 * BSIZE + 1

  function Disk(): (fs: Fs)
    ensures |fs.bitmap| == |fs.blocks| == SIZE && |fs.inodes| == INODES
    ensures forall b :: 0 <= b < SIZE ==> fs.bitmap[b] == !Free(b)
    ensures forall f :: 0 <= f < INODES ==> fs.inodes[f] == Inode(if f == 0 then OFF else 0, Addrs(f))
  {
    Fs(seq(SIZE, b requires 0 <= b => !Free(b)), seq(SIZE, _ => ZeroBlock()),
       seq(INODES, f requires 0 <= f => Inode(if f == 0 then OFF else 0, Addrs(f))))
  }

  ghost function Owners(): map<nat, (nat, nat)> {
    map b: nat | SB.nmeta <= b < SIZE && !Free(b) :: ((b - SB.nmeta) / NDIRECT, (b - SB.nmeta) % NDIRECT)
  }

  lemma DiskAddr(f: nat, k: nat)
    requires f < INODES && k < NSLOTS
    ensures Shaped(SB, Disk()) && Addr(SB, Disk(), f, k) == DirectAddr(f, k)
  {
    assert Disk().inodes[f].addrs == Addrs(f);
  }

  lemma DiskOwned()
    ensures Owned(SB, Disk(), Owners(), {}) && NoHoles(SB, Disk())
  {
    var fs, owner := Disk(), Owners();
    assert Shaped(SB, fs);
    forall f, k | 0 <= f < INODES && 0 <= k < NSLOTS ensures SlotOk(SB, fs, owner, f, k) {
      DiskAddr(f, k);
    }
    forall b | b in owner ensures OwnerOk(SB, fs, owner, {}, b) {
      DiskAddr(owner[b].0, owner[b].1);
    }
    forall f | 0 <= f < INODES ensures NoHolesIn(SB, fs, f) {
      forall bn | 0 <= bn < MAXFILE && bn * BSIZE < fs.inodes[f].size ensures Addr(SB, fs, f, Slot(bn)) != 0 {
        DiskAddr(f, Slot(bn));
      }
    }
  }

  // A slot that has been filled holds a block that was free.
  lemma FilledFromFree(fs': Fs, owner': map<nat, (nat, nat)>, k: nat)
    requires Owned(SB, fs', owner', {}) && KeepsAddrs(SB, Disk(), fs') && NDIRECT <= k < NSLOTS && Addr(SB, fs', 0, k) != 0
    ensures var a := Addr(SB, fs', 0, k); a < SIZE && Free(a) && fs'.bitmap[a] && a in owner' && owner'[a] == (0, k)
  {
    var a, fs, owner := Addr(SB, fs', 0, k), Disk(), Owners();
    assert SlotOk(SB, fs', owner', 0, k);
    DiskOwned();
    DiskAddr(0, k);
    forall b | b in owner ensures b in owner' && owner'[b] == owner[b] {
      assert OwnerOk(SB, fs, owner, {}, b);
      assert Addr(SB, fs', owner[b].0, owner[b].1) == b && SlotOk(SB, fs', owner', owner[b].0, owner[b].1);
    }
  }

  // A free block that is taken now belongs to a slot that the write may fill.
  lemma TakenBySlot(fs': Fs, owner': map<nat, (nat, nat)>, b: nat)
    requires Owned(SB, fs', owner', {}) && KeepsAddrs(SB, Disk(), fs') && Fills(SB, Disk(), fs', 0, 11, 15)
    requires b < SIZE && Free(b) && fs'.bitmap[b]
    ensures b in owner' && owner'[b].0 == 0 && 12 <= owner'[b].1 <= 15 && Addr(SB, fs', 0, owner'[b].1) == b
  {
    assert OwnerOk(SB, fs', owner', {}, b);
    var (f, k) := owner'[b];
    DiskAddr(f, k);
    assert Addr(SB, fs', f, k) != Addr(SB, Disk(), f, k);
    DiskAddr(0, 11);
    assert k != 11;
  }

  // The write cannot stop short: with a slot missing, three slots would hold four blocks.
  lemma NotShort(fs': Fs, owner': map<nat, (nat, nat)>, bn: nat)
    requires Owned(SB, fs', owner', {}) && KeepsAddrs(SB, Disk(), fs') && Fills(SB, Disk(), fs', 0, 11, 15)
    requires Full(fs'.bitmap) && 11 <= bn <= 14
    ensures Addr(SB, fs', 0, Slot(bn)) != 0
  {
    TakenBySlot(fs', owner', 8191);
    TakenBySlot(fs', owner', 16383);
    TakenBySlot(fs', owner', 24575);
    TakenBySlot(fs', owner', 32767);
    DiskAddr(0, 11);
  }

  // The four blocks that were free, in the slots they went to.
  lemma FourTaken(fs': Fs, owner': map<nat, (nat, nat)>)
    requires Owned(SB, fs', owner', {}) && KeepsAddrs(SB, Disk(), fs')
    requires forall bn :: 12 <= bn <= 14 ==> Addr(SB, fs', 0, Slot(bn)) != 0
    ensures {Addr(SB, fs', 0, 12), Addr(SB, fs', 0, 13), Addr(SB, fs', 0, 14), Addr(SB, fs', 0, 15)} == {8191, 16383, 24575, 32767}
    ensures forall b :: b in {8191, 16383, 24575, 32767} ==> fs'.bitmap[b]
  {
    assert Addr(SB, fs', 0, Slot(12)) != 0 && Addr(SB, fs', 0, Slot(13)) != 0 && Addr(SB, fs', 0, Slot(14)) != 0;
    assert Addr(SB, fs', 0, 12) != 0;
    FilledFromFree(fs', owner', 12);
    FilledFromFree(fs', owner', 13);
    FilledFromFree(fs', owner', 14);
    FilledFromFree(fs', owner', 15);
  }

  const FOUR: set<nat> := {8191, 16383, 24575, 32767}
  const TEN: set<nat> := {32, 202, 203, 204, 205, 218} + FOUR

  lemma SizeOfTen()
    ensures |TEN| == MAXOPBLOCKS
  {
    assert |{32, 202, 203, 204, 205, 218}| == 6 && |FOUR| == 4;
    assert {32, 202, 203, 204, 205, 218} !! FOUR;
  }

  lemma TakenFour(fs': Fs)
    requires |fs'.bitmap| == SIZE && forall b :: b in FOUR ==> fs'.bitmap[b]
    ensures Taken(Disk(), fs') == FOUR && BitmapsOf(SB, FOUR) == {202, 203, 204, 205}
  {
    forall b ensures b in Taken(Disk(), fs') <==> b in FOUR {
    }
    assert SB.BBlock(8191) == 202 && SB.BBlock(16383) == 203 && SB.BBlock(24575) == 204 && SB.BBlock(32767) == 205;
    forall c ensures c in BitmapsOf(SB, FOUR) <==> c in {202, 203, 204, 205} {
      assert c == 202 ==> c == SB.BBlock(8191);
      assert c == 203 ==> c == SB.BBlock(16383);
      assert c == 204 ==> c == SB.BBlock(24575);
      assert c == 205 ==> c == SB.BBlock(32767);
    }
  }

  lemma StoredFour(fs': Fs)
    requires Shaped(SB, fs') && |fs'.inodes| > 0
    ensures StoredBlocks(SB, fs', 0, 11, 15) == {Addr(SB, fs', 0, 11), Addr(SB, fs', 0, 13), Addr(SB, fs', 0, 14), Addr(SB, fs', 0, 15)}
  {
    var s := StoredBlocks(SB, fs', 0, 11, 15);
    assert Addr(SB, fs', 0, Slot(11)) in s && Addr(SB, fs', 0, Slot(12)) in s && Addr(SB, fs', 0, Slot(13)) in s && Addr(SB, fs', 0, Slot(14)) in s;
  }

  // What such a write has logged, once all blocks are there.
  lemma TenLogged(fs': Fs, owner': map<nat, (nat, nat)>, logged: set<nat>)
    requires Owned(SB, fs', owner', {}) && KeepsAddrs(SB, Disk(), fs')
    requires forall bn :: 12 <= bn <= 14 ==> Addr(SB, fs', 0, Slot(bn)) != 0
    requires Logs(SB, Disk(), fs', 0, {}, logged, StoredBlocks(SB, fs', 0, 11, 15) + {SB.IBlock(0)})
    ensures logged == TEN
  {
    FourTaken(fs', owner');
    TakenFour(fs');
    StoredFour(fs');
    DiskAddr(0, 11);
    var ind, a, b, c := Addr(SB, fs', 0, 12), Addr(SB, fs', 0, 13), Addr(SB, fs', 0, 14), Addr(SB, fs', 0, 15);
    assert Addr(SB, fs', 0, 11) == 218 && SB.IBlock(0) == 32 && fs'.inodes[0].addrs[NDIRECT] == ind;
    AddUp(ind, a, b, c, if EntryAdded(SB, Disk(), fs', 0) then {ind} else {});
  }

  lemma AddUp(ind: nat, a: nat, b: nat, c: nat, x: set<nat>)
    requires {ind, a, b, c} == FOUR && x <= {ind}
    ensures {} + FOUR + {202, 203, 204, 205} + x + ({218, a, b, c} + {32}) == TEN
  {
    assert ind in FOUR && a in FOUR && b in FOUR && c in FOUR;
  }

  // The chunk touches blocks 11 to 14.
  lemma Positions(r: nat)
    requires r <= CHUNK
    ensures OFF / BSIZE == 11 && Rounds(OFF, CHUNK) == 4 && Touched(OFF, CHUNK) == 4 && OFF + CHUNK <= MAXFILE * BSIZE
    ensures r < CHUNK ==> 11 <= (OFF + r) / BSIZE <= 14 && !Faults(OFF, CHUNK, r, CHUNK)
  {
  }

  lemma NotStopped(v: Volume, r: nat, seen: nat)
    requires v.sb == SB && v.Valid() && |v.inodes| == INODES && r <= CHUNK
    requires KeepsAddrs(SB, Disk(), v.State()) && Fills(SB, Disk(), v.State(), 0, 11, 15)
    requires OFF + CHUNK <= MAXFILE * BSIZE && (r == CHUNK || v.Stopped(0, OFF, CHUNK, r, seen, CHUNK))
    ensures r == CHUNK
  {
    Positions(r);
    if r < CHUNK && Full(v.bitmap) {
      NotShort(v.State(), v.owner, (OFF + r) / BSIZE);
    }
  }

  // All of the chunk is in the file, so all its blocks exist.
  lemma AllThere(fs': Fs, chunk: seq<Byte>)
    requires |chunk| == CHUNK && Spliced(SB, Disk(), fs', 0, OFF, chunk, CHUNK)
    ensures forall bn :: 12 <= bn <= 14 ==> Addr(SB, fs', 0, Slot(bn)) != 0
  {
    assert Disk().inodes[0].size == OFF;
    assert fs'.inodes[0].size == |FileBytes(SB, fs', 0)| == OFF + CHUNK;
    assert NoHolesIn(SB, fs', 0);
  }

  /** One chunk of filewrite on this disk logs ten blocks: four data blocks, three of them
      new, the new indirect block, four bitmap blocks and the inode block.  So the bound
      that filewrite's chunk size is computed from cannot be lowered. */
  method TenBlocks(chunk: seq<Byte>) returns (v: Volume)
    requires |chunk| == CHUNK
    ensures fresh(v) && v.Valid() && v.logged == TEN && |v.logged| == MAXOPBLOCKS
  {
    DiskOwned();
    Positions(0);
    v := new Volume(SB, Disk(), Owners());
    ghost var r, seen := WriteThere(v, chunk);
    NotStopped(v, r, seen);
    assert chunk[..seen] == chunk;
    Outcome(v, chunk);
  }

  method WriteThere(v: Volume, chunk: seq<Byte>) returns (ghost r: nat, ghost seen: nat)
    requires |chunk| == CHUNK && v.sb == SB && v.Valid() && v.State() == Disk() && NoHoles(SB, Disk()) && OFF + CHUNK <= MAXFILE * BSIZE
    modifies v
    ensures v.Valid() && |v.inodes| == INODES && r <= seen <= CHUNK && (if r == CHUNK then seen == r else v.Stopped(0, OFF, CHUNK, r, seen, CHUNK))
    ensures Spliced(SB, Disk(), v.State(), 0, OFF, chunk[..seen], r) && v.WriteLogged(Disk(), {}, 0, OFF, CHUNK, r)
    ensures KeepsAddrs(SB, Disk(), v.State()) && Fills(SB, Disk(), v.State(), 0, 11, 15)
  {
    Positions(0);
    var n;
    n, seen := v.WriteChunk(0, OFF, chunk, CHUNK);
    r := n;
  }

  lemma Outcome(v: Volume, chunk: seq<Byte>)
    requires v.sb == SB && v.Valid() && |chunk| == CHUNK && Spliced(SB, Disk(), v.State(), 0, OFF, chunk, CHUNK)
    requires v.WriteLogged(Disk(), {}, 0, OFF, CHUNK, CHUNK)
    ensures v.logged == TEN && |v.logged| == MAXOPBLOCKS
  {
    Positions(CHUNK);
    AllThere(v.State(), chunk);
    TenLogged(v.State(), v.owner, v.logged);
    SizeOfTen();
  }
}
