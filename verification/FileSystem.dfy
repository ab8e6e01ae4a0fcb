/** balloc, bfree, bmap, itrunc, readi and writei over the bitmap, the blocks and the
    inodes, and filewrite's division of a write into transactions. */
module FileSystem {
  import opened Basics
  import opened BlockMap

  const UINT := 0x1_0000_0000

  // 32-bit unsigned addition.
  function Add32(a: nat, b: nat): nat {
    (a + b) % UINT
  }

  // ---- Files as byte sequences ----------------------------------------------------

  function ByteAt(sb: Super, fs: Fs, i: nat, x: nat): Byte
    requires Shaped(sb, fs) && i < |fs.inodes| && x < MAXFILE * BSIZE
  {
    DataBlock(sb, fs, i, x / BSIZE)[x % BSIZE]
  }

  // Every block below a file's size exists.
  ghost predicate NoHoles(sb: Super, fs: Fs) {
    && Shaped(sb, fs)
    && (forall i :: 0 <= i < |fs.inodes| ==> fs.inodes[i].size <= MAXFILE * BSIZE)
    && (forall i :: 0 <= i < |fs.inodes| ==> NoHolesIn(sb, fs, i))
  }

  ghost predicate NoHolesIn(sb: Super, fs: Fs, i: nat)
    requires Shaped(sb, fs) && i < |fs.inodes|
  {
    forall bn :: 0 <= bn < MAXFILE && bn * BSIZE < fs.inodes[i].size ==> Addr(sb, fs, i, Slot(bn)) != 0
  }

  function FileBytes(sb: Super, fs: Fs, i: nat): (r: seq<Byte>)
    requires Shaped(sb, fs) && i < |fs.inodes| && fs.inodes[i].size <= MAXFILE * BSIZE
    ensures |r| == fs.inodes[i].size
  {
    seq(fs.inodes[i].size, x requires 0 <= x < fs.inodes[i].size => ByteAt(sb, fs, i, x))
  }

  // The only bytes that differ are those at [off, off + |bytes|) of file i.
  ghost predicate Wrote(sb: Super, fs: Fs, fs': Fs, i: nat, off: nat, bytes: seq<Byte>) {
    && Shaped(sb, fs) && Shaped(sb, fs') && |fs.inodes| == |fs'.inodes|
    && forall i', x :: 0 <= i' < |fs.inodes| && 0 <= x < MAXFILE * BSIZE ==>
         ByteAt(sb, fs', i', x) == if i' == i && off <= x < off + |bytes| then bytes[x - off] else ByteAt(sb, fs, i', x)
  }

  lemma SameDataWrote(sb: Super, fs: Fs, fs': Fs, i: nat, off: nat)
    requires SameData(sb, fs, fs')
    ensures Wrote(sb, fs, fs', i, off, [])
  {
  }

  lemma WroteTwice(sb: Super, fs: Fs, fs1: Fs, fs2: Fs, i: nat, off: nat, a: seq<Byte>, b: seq<Byte>)
    requires Wrote(sb, fs, fs1, i, off, a) && Wrote(sb, fs1, fs2, i, off + |a|, b)
    ensures Wrote(sb, fs, fs2, i, off, a + b)
  {
    forall i', x | 0 <= i' < |fs.inodes| && 0 <= x < MAXFILE * BSIZE
      ensures ByteAt(sb, fs2, i', x) == if i' == i && off <= x < off + |a + b| then (a + b)[x - off] else ByteAt(sb, fs, i', x)
    {
      assert ByteAt(sb, fs1, i', x) == if i' == i && off <= x < off + |a| then a[x - off] else ByteAt(sb, fs, i', x);
    }
  }

  // Block d with bytes copied in at position at.
  function Patched(d: Block, at: nat, bytes: seq<Byte>): Block
    requires at + |bytes| <= BSIZE
  {
    d[..at] + bytes + d[at + |bytes|..]
  }

  lemma PatchWrote(sb: Super, fs: Fs, fs': Fs, i: nat, off: nat, bytes: seq<Byte>)
    requires Shaped(sb, fs) && Shaped(sb, fs') && |fs.inodes| == |fs'.inodes| && i < |fs.inodes|
    requires off % BSIZE + |bytes| <= BSIZE && off + |bytes| <= MAXFILE * BSIZE && off / BSIZE < MAXFILE
    requires forall i', bn :: 0 <= i' < |fs.inodes| && 0 <= bn < MAXFILE ==>
               DataBlock(sb, fs', i', bn) ==
                 if (i', bn) == (i, off / BSIZE) then Patched(DataBlock(sb, fs, i, off / BSIZE), off % BSIZE, bytes)
                 else DataBlock(sb, fs, i', bn)
    ensures Wrote(sb, fs, fs', i, off, bytes)
  {
    forall i', x | 0 <= i' < |fs.inodes| && 0 <= x < MAXFILE * BSIZE
      ensures ByteAt(sb, fs', i', x) == if i' == i && off <= x < off + |bytes| then bytes[x - off] else ByteAt(sb, fs, i', x)
    {
      assert x == x / BSIZE * BSIZE + x % BSIZE && off == off / BSIZE * BSIZE + off % BSIZE;
      var d := DataBlock(sb, fs, i, off / BSIZE);
      if i' == i && x / BSIZE == off / BSIZE {
        assert ByteAt(sb, fs', i', x) == Patched(d, off % BSIZE, bytes)[x % BSIZE];
      }
    }
  }

  /** A write that starts within the file splices its bytes into that file's contents, up
      to the size the file then has, and changes no other file. */
  lemma WroteSplices(sb: Super, fs: Fs, fs': Fs, i: nat, off: nat, bytes: seq<Byte>, tot: nat)
    requires NoHoles(sb, fs) && NoHoles(sb, fs') && Wrote(sb, fs, fs', i, off, bytes) && i < |fs.inodes|
    requires off <= fs.inodes[i].size && off + |bytes| <= MAXFILE * BSIZE && tot <= |bytes|
    requires fs'.inodes[i].size == SizeAfter(fs.inodes[i].size, off, tot)
    requires forall i' :: 0 <= i' < |fs.inodes| && i' != i ==> fs'.inodes[i'].size == fs.inodes[i'].size
    ensures FileBytes(sb, fs', i) == Splice(FileBytes(sb, fs, i), off, bytes)[..SizeAfter(fs.inodes[i].size, off, tot)]
    ensures forall i' :: 0 <= i' < |fs.inodes| && i' != i ==> FileBytes(sb, fs', i') == FileBytes(sb, fs, i')
  {
    assert NoHolesIn(sb, fs, i) && NoHolesIn(sb, fs', i);
    var r := Splice(FileBytes(sb, fs, i), off, bytes)[..SizeAfter(fs.inodes[i].size, off, tot)];
    forall x | 0 <= x < |r| ensures r[x] == FileBytes(sb, fs', i)[x] {
      assert ByteAt(sb, fs', i, x) == if off <= x < off + |bytes| then bytes[x - off] else ByteAt(sb, fs, i, x);
    }
    forall i' | 0 <= i' < |fs.inodes| && i' != i ensures FileBytes(sb, fs', i') == FileBytes(sb, fs, i') {
      assert NoHolesIn(sb, fs, i') && NoHolesIn(sb, fs', i');
    }
  }

  // The size of a file once tot bytes have been written at off.
  function SizeAfter(size: nat, off: nat, tot: nat): nat {
    if off + tot > size then off + tot else size
  }

  // The slots of fs keep their blocks in fs'.
  ghost predicate KeepsAddrs(sb: Super, fs: Fs, fs': Fs) {
    && Shaped(sb, fs) && Shaped(sb, fs') && |fs.inodes| == |fs'.inodes|
    && (forall i, k :: 0 <= i < |fs.inodes| && 0 <= k < NSLOTS && Addr(sb, fs, i, k) != 0 ==>
          Addr(sb, fs', i, k) == Addr(sb, fs, i, k))
  }

  // And the files keep their sizes.
  ghost predicate KeepsSlots(sb: Super, fs: Fs, fs': Fs) {
    && KeepsAddrs(sb, fs, fs')
    && (forall i :: 0 <= i < |fs.inodes| ==> fs'.inodes[i].size == fs.inodes[i].size)
  }

  // The indirect block of inode i and its bitmap block.
  function IndirectBlocks(sb: Super, fs: Fs, i: nat): set<nat>
    requires Shaped(sb, fs) && i < |fs.inodes|
  {
    var ind := fs.inodes[i].addrs[NDIRECT];
    if ind == 0 then {} else {ind, sb.BBlock(ind)}
  }

  ghost predicate Full(bitmap: seq<bool>) {
    forall b :: 0 <= b < |bitmap| ==> bitmap[b]
  }

  // balloc of b followed by recording it in slot (i, k) of the inode.
  lemma AllocDirectOk(sb: Super, fs: Fs, owner: map<nat, (nat, nat)>, i: nat, k: nat, b: nat)
    requires Owned(sb, fs, owner, {}) && b < sb.size && !fs.bitmap[b]
    requires i < |fs.inodes| && k <= NDIRECT && Addr(sb, fs, i, k) == 0
    ensures var fs' := RecordDirect(Take(fs, b), i, k, b);
            && Owned(sb, fs', owner[b := (i, k)], {})
            && SameData(sb, fs, fs') && KeepsSlots(sb, fs, fs')
            && Addr(sb, fs', i, k) == b
            && forall i', k' :: 0 <= i' < |fs.inodes| && 0 <= k' < NSLOTS && (i', k') != (i, k) ==> Addr(sb, fs', i', k') == Addr(sb, fs, i', k')
  {
    var fs1 := Take(fs, b);
    TakeOwned(sb, fs, owner, {}, b);
    TakeKeepsAddrs(sb, fs, owner, {}, b);
    var loose: set<nat> := {b};
    assert {} + {b} == loose && loose - {b} == {};
    RecordDirectOwned(sb, fs1, owner, loose, i, k, b);
    var fs' := RecordDirect(fs1, i, k, b);
    forall i', k' | 0 <= i' < |fs.inodes| && 0 <= k' < NSLOTS && (i', k') != (i, k)
      ensures Addr(sb, fs', i', k') == Addr(sb, fs, i', k')
    {
      RecordDirectAddrs(sb, fs1, i, k, b, i', k');
    }
  }

  // balloc of b followed by recording it in entry j of the indirect block.
  lemma AllocEntryOk(sb: Super, fs: Fs, owner: map<nat, (nat, nat)>, i: nat, j: nat, bn: nat, next: nat, b: nat)
    requires Owned(sb, fs, owner, {}) && b < sb.size && !fs.bitmap[b]
    requires i < |fs.inodes| && j < NINDIRECT && bn == NDIRECT + j && next == bn + 1
    requires Addr(sb, fs, i, NDIRECT) != 0 && Addr(sb, fs, i, next) == 0
    ensures Shaped(sb, Take(fs, b))
    ensures var fs' := RecordEntry(sb, Take(fs, b), i, j, b);
            && Owned(sb, fs', owner[b := (i, next)], {})
            && SameData(sb, fs, fs') && KeepsSlots(sb, fs, fs')
            && Addr(sb, fs', i, next) == b && Fills(sb, fs, fs', i, bn, next)
  {
    var fs1 := Take(fs, b);
    TakeOwned(sb, fs, owner, {}, b);
    TakeKeepsAddrs(sb, fs, owner, {}, b);
    var loose: set<nat> := {b};
    assert {} + {b} == loose && loose - {b} == {};
    RecordEntryOwned(sb, fs1, owner, loose, i, j, b);
    var fs' := RecordEntry(sb, fs1, i, j, b);
    forall i', k' | 0 <= i' < |fs.inodes| && 0 <= k' < NSLOTS && (i', k') != (i, next)
      ensures Addr(sb, fs', i', k') == Addr(sb, fs, i', k')
    {
      RecordEntryAddrs(sb, fs1, owner, loose, i, j, b, i', k');
    }
  }

  // Setting a file's size moves no block.
  lemma ResizeOwned(sb: Super, fs: Fs, owner: map<nat, (nat, nat)>, i: nat, size: nat)
    requires Owned(sb, fs, owner, {}) && i < |fs.inodes|
    ensures var fs' := fs.(inodes := fs.inodes[i := fs.inodes[i].(size := size)]);
            && Owned(sb, fs', owner, {})
            && SameData(sb, fs, fs')
            && forall i', k' :: 0 <= i' < |fs.inodes| && 0 <= k' < NSLOTS ==> Addr(sb, fs', i', k') == Addr(sb, fs, i', k')
  {
    var fs' := fs.(inodes := fs.inodes[i := fs.inodes[i].(size := size)]);
    assert Shaped(sb, fs');
    forall i', k' | 0 <= i' < |fs.inodes| && 0 <= k' < NSLOTS
      ensures Addr(sb, fs', i', k') == Addr(sb, fs, i', k') && SlotOk(sb, fs', owner, i', k')
    {
      assert SlotOk(sb, fs, owner, i', k');
    }
    forall c | c in owner ensures OwnerOk(sb, fs', owner, {}, c) {
      assert OwnerOk(sb, fs, owner, {}, c);
    }
  }

  lemma TruncatedNoHoles(sb: Super, fs: Fs, fs': Fs, i: nat)
    requires NoHoles(sb, fs) && Shaped(sb, fs') && i < |fs.inodes| && fs'.blocks == fs.blocks
    requires |fs'.inodes| == |fs.inodes| && fs'.inodes == fs.inodes[i := fs'.inodes[i]] && fs'.inodes[i].size == 0
    ensures NoHoles(sb, fs')
  {
    forall i' | 0 <= i' < |fs'.inodes| ensures NoHolesIn(sb, fs', i') {
      assert NoHolesIn(sb, fs, i');
      forall bn | 0 <= bn < MAXFILE && bn * BSIZE < fs'.inodes[i'].size ensures Addr(sb, fs', i', Slot(bn)) != 0 {
        assert Addr(sb, fs', i', Slot(bn)) == Addr(sb, fs, i', Slot(bn));
      }
    }
  }

  // An inode that gave up all its blocks, while nothing else moved, returned exactly
  // the blocks it owned.
  lemma TruncatedBitmap(sb: Super, fs: Fs, owner: map<nat, (nat, nat)>, fs': Fs, owner': map<nat, (nat, nat)>, i: nat, b: nat)
    requires Owned(sb, fs, owner, {}) && Owned(sb, fs', owner', {}) && i < |fs.inodes| && b < sb.size
    requires fs'.blocks == fs.blocks && |fs'.inodes| == |fs.inodes| && fs'.inodes == fs.inodes[i := fs'.inodes[i]]
    requires forall k :: 0 <= k <= NDIRECT ==> fs'.inodes[i].addrs[k] == 0
    ensures fs'.bitmap[b] <==> fs.bitmap[b] && !(b in owner && owner[b].0 == i)
  {
    if b in owner {
      var (i', k') := owner[b];
      assert OwnerOk(sb, fs, owner, {}, b) && SlotOk(sb, fs, owner, i', k');
      assert i' != i ==> Addr(sb, fs', i', k') == b && SlotOk(sb, fs', owner', i', k');
    }
    if b in owner' {
      var (i', k') := owner'[b];
      assert OwnerOk(sb, fs', owner', {}, b);
      assert i' != i && SlotOk(sb, fs, owner, i', k');
      assert Addr(sb, fs, i', k') == b;
    }
  }

  lemma DataExceptJoin(sb: Super, fs: Fs, fs1: Fs, fs2: Fs, i: nat, mid: nat, last: nat)
    requires mid <= last
    requires DataExcept(sb, fs, fs1, i, 0, mid) && DataExcept(sb, fs1, fs2, i, mid, last)
    ensures DataExcept(sb, fs, fs2, i, 0, last)
  {
  }

  lemma NoBlockData(sb: Super, fs: Fs, i: nat, k: nat)
    requires Shaped(sb, fs) && i < |fs.inodes| && k < NDIRECT && fs.inodes[i].addrs[k] == 0
    ensures DataExcept(sb, fs, fs, i, k, k + 1)
  {
  }

  // A file without an indirect block has no data past the direct ones.
  lemma NoIndirectData(sb: Super, fs: Fs, i: nat)
    requires Shaped(sb, fs) && i < |fs.inodes| && fs.inodes[i].addrs[NDIRECT] == 0
    ensures DataExcept(sb, fs, fs, i, NDIRECT, MAXFILE)
  {
  }

  // ---- What a write logs ------------------------------------------------------------------

  // The blocks marked in the bitmap of fs' and not of fs.
  ghost function Taken(fs: Fs, fs': Fs): set<nat> {
    set b | 0 <= b < |fs.bitmap| && b < |fs'.bitmap| && !fs.bitmap[b] && fs'.bitmap[b]
  }

  ghost function BitmapsOf(sb: Super, s: set<nat>): set<nat> {
    set b | b in s :: sb.BBlock(b)
  }

  ghost predicate EntryAdded(sb: Super, fs: Fs, fs': Fs, i: nat)
    requires Shaped(sb, fs) && Shaped(sb, fs') && i < |fs.inodes| && i < |fs'.inodes|
  {
    exists k :: NDIRECT < k < NSLOTS && Addr(sb, fs, i, k) == 0 && Addr(sb, fs', i, k) != 0
  }

  /** From fs to fs', exactly these blocks were logged besides those of l: the newly taken
      blocks and their bitmap blocks, the indirect block if it got an entry, and `stored`. */
  ghost predicate Logs(sb: Super, fs: Fs, fs': Fs, i: nat, l: set<nat>, l': set<nat>, stored: set<nat>) {
    && Shaped(sb, fs) && Shaped(sb, fs') && i < |fs.inodes| && i < |fs'.inodes|
    && (forall b :: 0 <= b < sb.size && fs.bitmap[b] ==> fs'.bitmap[b])
    && l' == l + Taken(fs, fs') + BitmapsOf(sb, Taken(fs, fs'))
               + (if EntryAdded(sb, fs, fs', i) then {fs'.inodes[i].addrs[NDIRECT]} else {}) + stored
  }

  // A step that takes no block and adds no entry.
  lemma LogsStored(sb: Super, fs: Fs, fs': Fs, i: nat, l: set<nat>, stored: set<nat>)
    requires Shaped(sb, fs) && Shaped(sb, fs') && |fs.inodes| == |fs'.inodes| && i < |fs.inodes| && fs.bitmap == fs'.bitmap
    requires forall k :: 0 <= k < NSLOTS ==> Addr(sb, fs', i, k) == Addr(sb, fs, i, k)
    ensures Logs(sb, fs, fs', i, l, l + stored, stored)
  {
    assert Taken(fs, fs') == {};
  }

  lemma LogsTaken(sb: Super, fs: Fs, fs': Fs, i: nat, l: set<nat>, b: nat, added: bool)
    requires Shaped(sb, fs) && Shaped(sb, fs') && i < |fs.inodes| && i < |fs'.inodes|
    requires b < sb.size && !fs.bitmap[b] && fs'.bitmap == fs.bitmap[b := true] && (added <==> EntryAdded(sb, fs, fs', i))
    ensures Logs(sb, fs, fs', i, l, l + {b, sb.BBlock(b)} + (if added then {fs'.inodes[i].addrs[NDIRECT]} else {}), {})
  {
    assert Taken(fs, fs') == {b};
    assert BitmapsOf(sb, {b}) == {sb.BBlock(b)};
  }

  lemma LogsTrans(sb: Super, fs: Fs, fs1: Fs, fs2: Fs, i: nat, l: set<nat>, l1: set<nat>, l2: set<nat>, s1: set<nat>, s2: set<nat>)
    requires Logs(sb, fs, fs1, i, l, l1, s1) && Logs(sb, fs1, fs2, i, l1, l2, s2)
    requires KeepsAddrs(sb, fs, fs1) && KeepsAddrs(sb, fs1, fs2)
    ensures Logs(sb, fs, fs2, i, l, l2, s1 + s2)
  {
    assert Taken(fs, fs2) == Taken(fs, fs1) + Taken(fs1, fs2);
    BitmapsJoin(sb, Taken(fs, fs1), Taken(fs1, fs2));
    AddedTrans(sb, fs, fs1, fs2, i);
  }

  lemma BitmapsJoin(sb: Super, a: set<nat>, b: set<nat>)
    ensures BitmapsOf(sb, a + b) == BitmapsOf(sb, a) + BitmapsOf(sb, b)
  {
  }

  lemma AddedTrans(sb: Super, fs: Fs, fs1: Fs, fs2: Fs, i: nat)
    requires KeepsAddrs(sb, fs, fs1) && KeepsAddrs(sb, fs1, fs2) && i < |fs.inodes|
    ensures EntryAdded(sb, fs, fs2, i) <==> EntryAdded(sb, fs, fs1, i) || EntryAdded(sb, fs1, fs2, i)
    ensures EntryAdded(sb, fs, fs1, i) ==> fs2.inodes[i].addrs[NDIRECT] == fs1.inodes[i].addrs[NDIRECT]
  {
    if EntryAdded(sb, fs, fs1, i) {
      var k :| NDIRECT < k < NSLOTS && Addr(sb, fs, i, k) == 0 && Addr(sb, fs1, i, k) != 0;
      assert Addr(sb, fs2, i, k) == Addr(sb, fs1, i, k);
      assert Addr(sb, fs1, i, NDIRECT) != 0;
      assert Addr(sb, fs2, i, NDIRECT) == Addr(sb, fs1, i, NDIRECT);
    }
    if EntryAdded(sb, fs1, fs2, i) {
      var k :| NDIRECT < k < NSLOTS && Addr(sb, fs1, i, k) == 0 && Addr(sb, fs2, i, k) != 0;
      assert Addr(sb, fs, i, k) == 0;
    }
  }

  // The block of a file that a slot is for.
  function SlotBlock(k: nat): nat {
    if k < NDIRECT then k else k - 1
  }

  // Only slots for blocks lo..hi of file i, and for its indirect block, have been filled.
  ghost predicate Fills(sb: Super, fs: Fs, fs': Fs, i: nat, lo: nat, hi: nat) {
    && Shaped(sb, fs) && Shaped(sb, fs') && |fs.inodes| == |fs'.inodes|
    && forall i', k :: 0 <= i' < |fs.inodes| && 0 <= k < NSLOTS && Addr(sb, fs', i', k) != Addr(sb, fs, i', k) ==>
         i' == i && (k == NDIRECT || lo <= SlotBlock(k) < hi)
  }

  lemma FillsTrans(sb: Super, fs: Fs, fs1: Fs, fs2: Fs, i: nat, lo: nat, mid: nat, hi: nat)
    requires Fills(sb, fs, fs1, i, lo, mid) && Fills(sb, fs1, fs2, i, mid, hi) && lo <= mid <= hi
    ensures Fills(sb, fs, fs2, i, lo, hi)
  {
  }

  // How many blocks the first tot bytes from off on lie in.
  function Touched(off: nat, tot: nat): nat {
    if tot == 0 then 0 else Rounds(off, tot)
  }

  ghost function StoredBlocks(sb: Super, fs: Fs, i: nat, lo: nat, hi: nat): set<nat>
    requires Shaped(sb, fs) && i < |fs.inodes| && hi <= MAXFILE
  {
    set bn | lo <= bn < hi :: Addr(sb, fs, i, Slot(bn))
  }

  lemma StoredMore(sb: Super, fs: Fs, fs': Fs, i: nat, lo: nat, bn: nat, next: nat)
    requires KeepsAddrs(sb, fs, fs') && i < |fs.inodes| && lo <= bn && next == bn + 1 <= MAXFILE
    requires forall x :: lo <= x < bn ==> Addr(sb, fs, i, Slot(x)) != 0
    ensures StoredBlocks(sb, fs', i, lo, next) == StoredBlocks(sb, fs, i, lo, bn) + {Addr(sb, fs', i, Slot(bn))}
  {
    StoredKept(sb, fs, fs', i, lo, bn);
  }

  lemma StoredKept(sb: Super, fs: Fs, fs': Fs, i: nat, lo: nat, hi: nat)
    requires KeepsAddrs(sb, fs, fs') && i < |fs.inodes| && hi <= MAXFILE
    requires forall x :: lo <= x < hi ==> Addr(sb, fs, i, Slot(x)) != 0
    ensures StoredBlocks(sb, fs', i, lo, hi) == StoredBlocks(sb, fs, i, lo, hi)
  {
    forall x | lo <= x < hi ensures Addr(sb, fs', i, Slot(x)) == Addr(sb, fs, i, Slot(x)) {
      assert Addr(sb, fs, i, Slot(x)) != 0;
    }
  }

  // bmap's two halves: the indirect block, and its entry.
  lemma BmapJoined(sb: Super, fs0: Fs, fs1: Fs, fs2: Fs, i: nat, bn: nat, next: nat, l0: set<nat>, l1: set<nat>, l2: set<nat>)
    requires SameData(sb, fs0, fs1) && SameData(sb, fs1, fs2) && KeepsSlots(sb, fs0, fs1) && KeepsSlots(sb, fs1, fs2)
    requires Logs(sb, fs0, fs1, i, l0, l1, {}) && Logs(sb, fs1, fs2, i, l1, l2, {})
    requires Fills(sb, fs0, fs1, i, bn, bn) && Fills(sb, fs1, fs2, i, bn, next) && bn <= next
    ensures SameData(sb, fs0, fs2) && KeepsSlots(sb, fs0, fs2)
    ensures Logs(sb, fs0, fs2, i, l0, l2, {}) && Fills(sb, fs0, fs2, i, bn, next)
  {
    SameDataTrans(sb, fs0, fs1, fs2);
    KeepsSlotsTrans(sb, fs0, fs1, fs2);
    LogsTrans(sb, fs0, fs1, fs2, i, l0, l1, l2, {}, {});
    FillsTrans(sb, fs0, fs1, fs2, i, bn, bn, next);
  }

  // bmap and then the store.
  lemma RoundLogs(sb: Super, fs: Fs, mid: Fs, fs': Fs, i: nat, bn: nat, l: set<nat>, l1: set<nat>, l2: set<nat>, stored: set<nat>)
    requires Logs(sb, fs, mid, i, l, l1, {}) && KeepsAddrs(sb, fs, mid) && Fills(sb, fs, mid, i, bn, bn + 1)
    requires Shaped(sb, fs') && |mid.inodes| == |fs'.inodes| && mid.bitmap == fs'.bitmap && l2 == l1 + stored
    requires forall i', k :: 0 <= i' < |mid.inodes| && 0 <= k < NSLOTS ==> Addr(sb, fs', i', k) == Addr(sb, mid, i', k)
    ensures Logs(sb, fs, fs', i, l, l2, stored) && Fills(sb, fs, fs', i, bn, bn + 1)
  {
    LogsStored(sb, mid, fs', i, l1, stored);
    LogsTrans(sb, fs, mid, fs', i, l, l1, l2, {}, stored);
    assert {} + stored == stored;
  }

  // Since fs0, exactly the blocks lo..hi of file i were stored and logged, and only slots
  // below `end` filled.
  ghost predicate Recorded(sb: Super, fs0: Fs, fs: Fs, i: nat, l0: set<nat>, l: set<nat>, lo: nat, hi: nat, end: nat) {
    && hi <= MAXFILE && Fills(sb, fs0, fs, i, lo, end) && i < |fs.inodes|
    && Logs(sb, fs0, fs, i, l0, l, StoredBlocks(sb, fs, i, lo, hi))
  }

  // One more round of writei.
  lemma RecordedMore(sb: Super, fs0: Fs, fs1: Fs, fs2: Fs, i: nat, off: nat, tot: nat, lo: nat, bn: nat, next: nat, wrote: bool, l0: set<nat>, l1: set<nat>, l2: set<nat>)
    requires KeepsSlots(sb, fs0, fs1) && KeepsSlots(sb, fs1, fs2) && i < |fs0.inodes| && next == bn + 1 <= MAXFILE
    requires lo == off / BSIZE <= bn == (off + tot) / BSIZE && Covered(sb, fs1, i, off, tot)
    requires Recorded(sb, fs0, fs1, i, l0, l1, lo, bn, bn) && Fills(sb, fs1, fs2, i, bn, next)
    requires Logs(sb, fs1, fs2, i, l1, l2, if wrote then {Addr(sb, fs2, i, Slot(bn))} else {})
    ensures Recorded(sb, fs0, fs2, i, l0, l2, lo, if wrote then next else bn, next)
  {
    FillsTrans(sb, fs0, fs1, fs2, i, lo, bn, next);
    forall x | lo <= x < bn ensures Addr(sb, fs1, i, Slot(x)) != 0 {
      assert x * BSIZE < off + tot;
    }
    LogsTrans(sb, fs0, fs1, fs2, i, l0, l1, l2, StoredBlocks(sb, fs1, i, lo, bn), if wrote then {Addr(sb, fs2, i, Slot(bn))} else {});
    if wrote {
      StoredMore(sb, fs1, fs2, i, lo, bn, next);
    } else {
      StoredKept(sb, fs1, fs2, i, lo, bn);
    }
  }

  // All that a round adds up to.
  lemma RoundDone(sb: Super, fs0: Fs, fs1: Fs, fs2: Fs, i: nat, off: nat, src: seq<Byte>, tot: nat, next: nat, x: nat, bn: nat, got: nat, wrote: bool,
                  l0: set<nat>, l1: set<nat>, l2: set<nat>, D: set<nat>, E: set<nat>)
    requires Progress(sb, fs0, fs1, i, off, src, tot, tot) && x == off + tot && tot <= next <= |src| && tot + got <= next
    requires off + |src| <= MAXFILE * BSIZE && bn == x / BSIZE < MAXFILE && x % BSIZE + (next - tot) <= BSIZE && off / BSIZE <= bn
    requires Charged(sb, fs1, i, l0, l1, D) && Recorded(sb, fs0, fs1, i, l0, l1, off / BSIZE, bn, bn)
    requires KeepsSlots(sb, fs1, fs2) && Fills(sb, fs1, fs2, i, bn, bn + 1) && (wrote <==> Addr(sb, fs2, i, Slot(bn)) != 0 && tot + got == next)
    requires Wrote(sb, fs1, fs2, i, x, if Addr(sb, fs2, i, Slot(bn)) != 0 then src[tot .. next][..got] else [])
    requires Logs(sb, fs1, fs2, i, l1, l2, if wrote then {Addr(sb, fs2, i, Slot(bn))} else {}) && Charged(sb, fs2, i, l1, l2, E)
    ensures Progress(sb, fs0, fs2, i, off, src, if wrote then next else tot, if Addr(sb, fs2, i, Slot(bn)) != 0 then tot + got else tot)
    ensures Charged(sb, fs2, i, l0, l2, D + E) && |D + E| <= |D| + |E|
    ensures Recorded(sb, fs0, fs2, i, l0, l2, off / BSIZE, if wrote then bn + 1 else bn, bn + 1)
  {
    ChargeMore(sb, fs1, fs2, i, l0, l1, l2, D, E);
    ProgressRound(sb, fs0, fs1, fs2, i, off, src, tot, next, x, next - tot, got);
    RecordedMore(sb, fs0, fs1, fs2, i, off, tot, off / BSIZE, bn, bn + 1, wrote, l0, l1, l2);
  }

  // iupdate at the end.
  lemma InodeLogged(sb: Super, fs0: Fs, fs1: Fs, fs2: Fs, i: nat, off: nat, n: nat, r: nat, rounds: nat, l0: set<nat>, l1: set<nat>, l2: set<nat>)
    requires KeepsAddrs(sb, fs0, fs1) && i < |fs0.inodes| && rounds <= Rounds(off, n) && off / BSIZE + Touched(off, r) <= MAXFILE
    requires Recorded(sb, fs0, fs1, i, l0, l1, off / BSIZE, off / BSIZE + Touched(off, r), off / BSIZE + rounds)
    requires Shaped(sb, fs2) && |fs1.inodes| == |fs2.inodes| && fs1.bitmap == fs2.bitmap && l2 == l1 + {sb.IBlock(i)}
    requires forall i', k :: 0 <= i' < |fs1.inodes| && 0 <= k < NSLOTS ==> Addr(sb, fs2, i', k) == Addr(sb, fs1, i', k)
    ensures KeepsAddrs(sb, fs0, fs2) && Fills(sb, fs0, fs2, i, off / BSIZE, off / BSIZE + Rounds(off, n))
    ensures Logs(sb, fs0, fs2, i, l0, l2, StoredBlocks(sb, fs2, i, off / BSIZE, off / BSIZE + Touched(off, r)) + {sb.IBlock(i)})
  {
    var hi := off / BSIZE + Touched(off, r);
    assert StoredBlocks(sb, fs2, i, off / BSIZE, hi) == StoredBlocks(sb, fs1, i, off / BSIZE, hi);
    LogsStored(sb, fs1, fs2, i, l1, {sb.IBlock(i)});
    LogsTrans(sb, fs0, fs1, fs2, i, l0, l1, l2, StoredBlocks(sb, fs1, i, off / BSIZE, hi), {sb.IBlock(i)});
  }

  // Data blocks and their bitmap blocks in the first `rounds` rounds of writei: an
  // unaligned first block already exists and needs no bitmap block.
  function Cost(off: nat, rounds: nat): nat {
    if rounds == 0 then 0 else 2 * rounds - (if off % BSIZE != 0 then 1 else 0)
  }

  function Rounds(off: nat, n: nat): nat {
    (off % BSIZE + n + BSIZE - 1) / BSIZE
  }

  const CHUNK := (MAXOPBLOCKS - 1 - 1 - 2) / 2 * BSIZE

  // A chunk's data blocks and their bitmap blocks, the indirect block and its bitmap
  // block, and the inode block: never more than an operation may log.
  lemma ChunkFits(off: nat, n: nat, rounds: nat)
    requires n <= CHUNK && rounds <= Rounds(off, n)
    ensures Cost(off, rounds) + 2 + 1 <= MAXOPBLOCKS
  {
  }

  lemma IndirectKept(sb: Super, fs: Fs, fs': Fs, i: nat)
    requires KeepsSlots(sb, fs, fs') && i < |fs.inodes|
    ensures IndirectBlocks(sb, fs, i) <= IndirectBlocks(sb, fs', i)
  {
    assert Addr(sb, fs, i, NDIRECT) == fs.inodes[i].addrs[NDIRECT];
    assert Addr(sb, fs', i, NDIRECT) == fs'.inodes[i].addrs[NDIRECT];
  }

  lemma SameDataTrans(sb: Super, fs: Fs, fs1: Fs, fs2: Fs)
    requires SameData(sb, fs, fs1) && SameData(sb, fs1, fs2)
    ensures SameData(sb, fs, fs2)
  {
  }

  // bmap, which changes no contents, and then the store.
  lemma RoundWrote(sb: Super, fs: Fs, mid: Fs, fs': Fs, i: nat, x: nat, bytes: seq<Byte>)
    requires SameData(sb, fs, mid) && KeepsSlots(sb, fs, mid)
    requires Wrote(sb, mid, fs', i, x, bytes) && KeepsSlots(sb, mid, fs')
    ensures Wrote(sb, fs, fs', i, x, bytes) && KeepsSlots(sb, fs, fs')
  {
    SameDataWrote(sb, fs, mid, i, x);
    WroteTwice(sb, fs, mid, fs', i, x, [], bytes);
    assert [] + bytes == bytes;
    KeepsSlotsTrans(sb, fs, mid, fs');
  }

  lemma KeepsSlotsTrans(sb: Super, fs: Fs, fs1: Fs, fs2: Fs)
    requires KeepsSlots(sb, fs, fs1) && KeepsSlots(sb, fs1, fs2)
    ensures KeepsSlots(sb, fs, fs2)
  {
    forall i, k | 0 <= i < |fs.inodes| && 0 <= k < NSLOTS && Addr(sb, fs, i, k) != 0
      ensures Addr(sb, fs2, i, k) == Addr(sb, fs, i, k)
    {
      assert Addr(sb, fs1, i, k) == Addr(sb, fs, i, k);
    }
  }

  // Where writei stands after some rounds: at the start, at a block boundary, or done.
  predicate AtRound(off: nat, n: nat, tot: nat, rounds: nat) {
    && tot <= n && rounds == Touched(off, tot) <= Rounds(off, n)
    && (tot == 0 || tot == n || off % BSIZE + tot == rounds * BSIZE)
  }

  // How much the next round copies.
  function Portion(off: nat, n: nat, tot: nat): (m: nat)
    requires tot < n
    ensures 0 < m <= n - tot && (off + tot) % BSIZE + m <= BSIZE
  {
    if n - tot < BSIZE - (off + tot) % BSIZE then n - tot else BSIZE - (off + tot) % BSIZE
  }

  // The next portion reaches past the memory that can be fetched.
  predicate Faults(off: nat, n: nat, tot: nat, readable: nat) {
    tot < n && tot + Portion(off, n, tot) > readable
  }

  lemma PortionFits(off: nat, n: nat, tot: nat, m: nat)
    requires tot < n && off + n <= MAXFILE * BSIZE && m == Portion(off, n, tot)
    ensures (off + tot) / BSIZE < MAXFILE && off / BSIZE < MAXFILE
    ensures (off + tot) % BSIZE + m <= BSIZE && off + tot + m <= MAXFILE * BSIZE
  {
  }

  // One more round: d blocks charged so far, e by this round.
  lemma NextRound(off: nat, n: nat, tot: nat, rounds: nat, d: nat, e: nat, existed: bool)
    requires AtRound(off, n, tot, rounds) && tot < n
    requires d <= Cost(off, rounds) && e <= if existed then 1 else 2
    requires rounds == 0 && off % BSIZE != 0 ==> existed
    ensures AtRound(off, n, tot + Portion(off, n, tot), rounds + 1)
    ensures d + e <= Cost(off, rounds + 1) && rounds < Rounds(off, n)
    ensures (off + tot) / BSIZE == off / BSIZE + rounds
  {
    RoundEnds(off, n, tot, rounds);
  }

  // The same in terms of blocks.
  lemma StepAt(off: nat, n: nat, tot: nat, tot': nat, rounds: nat, rounds1: nat, bn: nat, d: nat, e: nat, existed: bool, wrote: bool)
    requires AtRound(off, n, tot, rounds) && tot < n && rounds1 == rounds + 1 && bn == (off + tot) / BSIZE
    requires tot' == if wrote then tot + Portion(off, n, tot) else tot
    requires d <= Cost(off, rounds) && e <= (if existed then 1 else 2) && (rounds == 0 && off % BSIZE != 0 ==> existed)
    ensures off / BSIZE + Touched(off, tot') == (if wrote then bn + 1 else bn) && off / BSIZE + rounds1 == bn + 1
    ensures d + e <= Cost(off, rounds1) && rounds1 <= Rounds(off, n) && (wrote ==> AtRound(off, n, tot', rounds1))
  {
    NextRound(off, n, tot, rounds, d, e, existed);
  }

  lemma RoundEnds(off: nat, n: nat, tot: nat, rounds: nat)
    requires AtRound(off, n, tot, rounds) && tot < n
    ensures AtRound(off, n, tot + Portion(off, n, tot), rounds + 1) && rounds < Rounds(off, n)
    ensures (off + tot) / BSIZE == off / BSIZE + rounds
  {
    if rounds > 0 {
      assert off + tot == off / BSIZE * BSIZE + rounds * BSIZE == (off / BSIZE + rounds) * BSIZE;
    }
  }

  // The blocks of file i between off and off + tot exist.
  ghost predicate Covered(sb: Super, fs: Fs, i: nat, off: nat, tot: nat) {
    && Shaped(sb, fs) && i < |fs.inodes|
    && forall bn :: off / BSIZE <= bn < MAXFILE && bn * BSIZE < off + tot ==> Addr(sb, fs, i, Slot(bn)) != 0
  }

  lemma CoveredMore(sb: Super, fs: Fs, fs': Fs, i: nat, off: nat, tot: nat, m: nat)
    requires Covered(sb, fs, i, off, tot) && KeepsSlots(sb, fs, fs')
    requires (off + tot) % BSIZE + m <= BSIZE && off + tot + m <= MAXFILE * BSIZE && (off + tot) / BSIZE < MAXFILE
    requires Addr(sb, fs', i, Slot((off + tot) / BSIZE)) != 0
    ensures Covered(sb, fs', i, off, tot + m)
  {
    forall bn | off / BSIZE <= bn < MAXFILE && bn * BSIZE < off + tot + m ensures Addr(sb, fs', i, Slot(bn)) != 0 {
      if bn * BSIZE < off + tot {
        assert Addr(sb, fs, i, Slot(bn)) != 0;
      } else {
        assert bn == (off + tot) / BSIZE;
      }
    }
  }

  // writei has written the first tot bytes of src at off, on blocks that exist; `seen`
  // bytes have changed, which is more when a fetch from user memory broke off.
  ghost predicate Progress(sb: Super, fs0: Fs, fs: Fs, i: nat, off: nat, src: seq<Byte>, tot: nat, seen: nat) {
    && tot <= seen <= |src|
    && KeepsSlots(sb, fs0, fs)
    && Wrote(sb, fs0, fs, i, off, src[..seen])
    && Covered(sb, fs, i, off, tot)
  }

  lemma ProgressMore(sb: Super, fs0: Fs, fs1: Fs, fs2: Fs, i: nat, off: nat, src: seq<Byte>, tot: nat, next: nat, seen: nat, x: nat, m: nat)
    requires Progress(sb, fs0, fs1, i, off, src, tot, tot) && next == tot + m <= seen <= |src| && off + |src| <= MAXFILE * BSIZE && x == off + tot
    requires KeepsSlots(sb, fs1, fs2) && Wrote(sb, fs1, fs2, i, x, src[tot .. seen])
    requires m > 0 ==> x % BSIZE + m <= BSIZE && x / BSIZE < MAXFILE && Addr(sb, fs2, i, Slot(x / BSIZE)) != 0
    ensures Progress(sb, fs0, fs2, i, off, src, next, seen)
  {
    KeepsSlotsTrans(sb, fs0, fs1, fs2);
    WroteTwice(sb, fs0, fs1, fs2, i, off, src[..tot], src[tot .. seen]);
    assert src[..tot] + src[tot .. seen] == src[..seen];
    if m > 0 {
      CoveredMore(sb, fs1, fs2, i, off, tot, m);
    } else {
      forall bn | off / BSIZE <= bn < MAXFILE && bn * BSIZE < off + tot ensures Addr(sb, fs2, i, Slot(bn)) != 0 {
        assert Addr(sb, fs1, i, Slot(bn)) != 0;
      }
    }
  }

  // A round that had `got` of its m bytes to copy, into a block that exists or not.
  lemma ProgressRound(sb: Super, fs0: Fs, fs1: Fs, fs2: Fs, i: nat, off: nat, src: seq<Byte>, tot: nat, next: nat, x: nat, m: nat, got: nat)
    requires Progress(sb, fs0, fs1, i, off, src, tot, tot) && next == tot + m <= |src| && got <= m && off + |src| <= MAXFILE * BSIZE && x == off + tot
    requires x % BSIZE + m <= BSIZE && x / BSIZE < MAXFILE && KeepsSlots(sb, fs1, fs2)
    requires Wrote(sb, fs1, fs2, i, x, if Addr(sb, fs2, i, Slot(x / BSIZE)) != 0 then src[tot .. next][..got] else [])
    ensures var exists_ := Addr(sb, fs2, i, Slot(x / BSIZE)) != 0;
            Progress(sb, fs0, fs2, i, off, src, if exists_ && got == m then next else tot, if exists_ then tot + got else tot)
  {
    SliceOfSlice(src, tot, next, got);
    if Addr(sb, fs2, i, Slot(x / BSIZE)) == 0 {
      ProgressMore(sb, fs0, fs1, fs2, i, off, src, tot, tot, tot, x, 0);
    } else if got == m {
      ProgressMore(sb, fs0, fs1, fs2, i, off, src, tot, next, next, x, m);
    } else {
      ProgressMore(sb, fs0, fs1, fs2, i, off, src, tot, tot, tot + got, x, 0);
    }
  }

  // What has been logged since logged0, beyond the inode's indirect block, is in D.
  ghost predicate Charged(sb: Super, fs: Fs, i: nat, logged0: set<nat>, logged: set<nat>, D: set<nat>)
    requires Shaped(sb, fs) && i < |fs.inodes|
  {
    logged <= logged0 + D + IndirectBlocks(sb, fs, i)
  }

  lemma ChargeMore(sb: Super, fs1: Fs, fs2: Fs, i: nat, l0: set<nat>, l1: set<nat>, l2: set<nat>, D: set<nat>, E: set<nat>)
    requires KeepsSlots(sb, fs1, fs2) && i < |fs1.inodes|
    requires Charged(sb, fs1, i, l0, l1, D) && Charged(sb, fs2, i, l1, l2, E)
    ensures Charged(sb, fs2, i, l0, l2, D + E) && |D + E| <= |D| + |E|
  {
    IndirectKept(sb, fs1, fs2, i);
  }

  // In all: D, the indirect block with its bitmap block, and the inode block.
  lemma LoggedSize(sb: Super, fs: Fs, i: nat, l0: set<nat>, l1: set<nat>, D: set<nat>)
    requires Shaped(sb, fs) && i < |fs.inodes| && Charged(sb, fs, i, l0, l1, D)
    ensures |l1 + {sb.IBlock(i)}| <= |l0| + |D| + 2 + 1
  {
    var ind := IndirectBlocks(sb, fs, i);
    assert |ind| <= 2;
    SubsetSize(l1 + {sb.IBlock(i)}, l0 + D + ind + {sb.IBlock(i)});
  }

  lemma SubsetSize(a: set<nat>, b: set<nat>)
    requires a <= b
    ensures |a| <= |b|
  {
    assert b == a + (b - a);
  }

  lemma StartProgress(sb: Super, fs: Fs, i: nat, off: nat, src: seq<Byte>)
    requires NoHoles(sb, fs) && i < |fs.inodes| && off <= fs.inodes[i].size
    ensures Progress(sb, fs, fs, i, off, src, 0, 0)
  {
    assert NoHolesIn(sb, fs, i);
    assert src[..0] == [];
    SameDataWrote(sb, fs, fs, i, off);
  }

  lemma ResizedWrote(sb: Super, fs0: Fs, fs1: Fs, fs2: Fs, i: nat, off: nat, bytes: seq<Byte>)
    requires Wrote(sb, fs0, fs1, i, off, bytes) && SameData(sb, fs1, fs2)
    ensures Wrote(sb, fs0, fs2, i, off, bytes)
  {
    SameDataWrote(sb, fs1, fs2, i, off + |bytes|);
    WroteTwice(sb, fs0, fs1, fs2, i, off, bytes, []);
    assert bytes + [] == bytes;
  }

  lemma SliceOfSlice(s: seq<Byte>, a: nat, b: nat, n: nat)
    requires a <= b <= |s| && a + n <= b
    ensures s[a .. b][..n] == s[a .. a + n] && s[a .. a] == []
  {
  }

  lemma JoinSlices(s: seq<Byte>, a: nat, b: nat, c: nat)
    requires a <= b <= c <= |s|
    ensures s[a .. b] + s[b .. c] == s[a .. c]
  {
  }

  lemma BlockExists(sb: Super, fs: Fs, i: nat, x: nat)
    requires NoHoles(sb, fs) && i < |fs.inodes| && x < fs.inodes[i].size
    ensures x / BSIZE < MAXFILE && Addr(sb, fs, i, Slot(x / BSIZE)) != 0
  {
    assert NoHolesIn(sb, fs, i);
  }

  lemma SliceOfFile(sb: Super, fs: Fs, i: nat, x: nat, m: nat)
    requires NoHoles(sb, fs) && i < |fs.inodes|
    requires 0 < m && x % BSIZE + m <= BSIZE && x + m <= fs.inodes[i].size
    ensures x / BSIZE < MAXFILE
    ensures FileBytes(sb, fs, i)[x .. x + m] == DataBlock(sb, fs, i, x / BSIZE)[x % BSIZE .. x % BSIZE + m]
  {
    var f, d := FileBytes(sb, fs, i)[x .. x + m], DataBlock(sb, fs, i, x / BSIZE);
    forall y | 0 <= y < m ensures f[y] == d[x % BSIZE + y] {
      assert (x + y) / BSIZE == x / BSIZE && (x + y) % BSIZE == x % BSIZE + y;
      assert f[y] == ByteAt(sb, fs, i, x + y);
    }
  }

  // From fs to fs', file i has had these bytes spliced in at off, as far as they lie within
  // its size once tot of them count (nothing, when off is past its end), and no other file
  // has changed.
  ghost predicate Spliced(sb: Super, fs: Fs, fs': Fs, i: nat, off: nat, bytes: seq<Byte>, tot: nat) {
    && NoHoles(sb, fs) && NoHoles(sb, fs') && |fs.inodes| == |fs'.inodes| && i < |fs.inodes| && tot <= |bytes|
    && (forall i' :: 0 <= i' < |fs.inodes| && i' != i ==> FileBytes(sb, fs', i') == FileBytes(sb, fs, i'))
    && (if off <= fs.inodes[i].size
        then FileBytes(sb, fs', i) == Splice(FileBytes(sb, fs, i), off, bytes)[..SizeAfter(fs.inodes[i].size, off, tot)]
        else bytes == [] && FileBytes(sb, fs', i) == FileBytes(sb, fs, i))
  }

  lemma NothingSpliced(sb: Super, fs: Fs, i: nat, off: nat)
    requires NoHoles(sb, fs) && i < |fs.inodes|
    ensures Spliced(sb, fs, fs, i, off, [], 0)
  {
    if off <= fs.inodes[i].size {
      assert Splice(FileBytes(sb, fs, i), off, []) == FileBytes(sb, fs, i);
    }
  }

  lemma SplicedMore(sb: Super, fs0: Fs, fs1: Fs, fs2: Fs, i: nat, off: nat, pos: nat, src: seq<Byte>, done: nat, r: nat, seen: nat, chunk: seq<Byte>, written: nat, upto: nat)
    requires done + |chunk| <= |src| && r <= seen <= |chunk| && chunk == src[done .. done + |chunk|] && pos == off + done
    requires written == done + r && upto == done + seen
    requires Spliced(sb, fs0, fs1, i, off, src[..done], done) && pos <= fs1.inodes[i].size
    requires Spliced(sb, fs1, fs2, i, pos, chunk[..seen], r)
    ensures Spliced(sb, fs0, fs2, i, off, src[..upto], written)
  {
    assert src[..done] + chunk[..seen] == src[..upto];
    if off <= fs0.inodes[i].size {
      var file := FileBytes(sb, fs0, i);
      SpliceTwice(file, off, src[..done], chunk[..seen]);
      assert Splice(file, off, src[..done])[..SizeAfter(|file|, off, done)] == Splice(file, off, src[..done]);
    }
  }

  // A file without holes stays without holes when a covered stretch extends it.
  lemma ExtendNoHoles(sb: Super, fs: Fs, fs': Fs, i: nat, off: nat, tot: nat, size: nat)
    requires NoHoles(sb, fs) && KeepsSlots(sb, fs, fs') && i < |fs.inodes|
    requires off <= fs.inodes[i].size && off + tot <= MAXFILE * BSIZE && Covered(sb, fs', i, off, tot)
    requires size == SizeAfter(fs.inodes[i].size, off, tot)
    ensures NoHoles(sb, fs'.(inodes := fs'.inodes[i := fs'.inodes[i].(size := size)]))
  {
    var fs'' := fs'.(inodes := fs'.inodes[i := fs'.inodes[i].(size := size)]);
    forall i' | 0 <= i' < |fs.inodes| ensures NoHolesIn(sb, fs'', i') {
      assert NoHolesIn(sb, fs, i');
      forall bn | 0 <= bn < MAXFILE && bn * BSIZE < fs''.inodes[i'].size ensures Addr(sb, fs'', i', Slot(bn)) != 0 {
        assert Addr(sb, fs'', i', Slot(bn)) == Addr(sb, fs', i', Slot(bn));
        if bn * BSIZE < fs.inodes[i'].size {
          assert Addr(sb, fs, i', Slot(bn)) != 0;
        }
      }
    }
  }

  class Volume {
    const sb: Super
    var bitmap: seq<bool>
    var blocks: seq<Block>
    var inodes: seq<Inode>
    // The blocks that log_write has recorded in the running transaction.
    var logged: set<nat>
    ghost var owner: map<nat, (nat, nat)>

    ghost function State(): Fs
      reads this
    {
      Fs(bitmap, blocks, inodes)
    }

    ghost predicate Valid()
      reads this
    {
      Owned(sb, State(), owner, {})
    }

    constructor (sb: Super, fs: Fs, ghost owner: map<nat, (nat, nat)>)
      requires Owned(sb, fs, owner, {})
      ensures Valid() && this.sb == sb && State() == fs && logged == {}
    {
      this.sb := sb;
      this.bitmap := fs.bitmap;
      this.blocks := fs.blocks;
      this.inodes := fs.inodes;
      this.logged := {};
      this.owner := owner;
    }

    // balloc: the first free block, zeroed; 0 when there is none.
    method Balloc() returns (b: nat)
      requires Shaped(sb, State()) && forall c :: 0 <= c < sb.nmeta ==> bitmap[c]
      modifies `bitmap, `blocks, `logged
      ensures b == 0 ==> Full(bitmap) && State() == old(State()) && logged == old(logged)
      ensures b != 0 ==>
                && sb.nmeta <= b < sb.size && !old(bitmap)[b] && (forall c :: 0 <= c < b ==> old(bitmap)[c])
                && State() == Take(old(State()), b)
                && logged == old(logged) + {sb.BBlock(b), b}
    {
      var base := 0;
      while base < sb.size
        invariant base % BPB == 0
        invariant forall c :: 0 <= c < base && c < sb.size ==> bitmap[c]
        invariant State() == old(State()) && logged == old(logged)
      {
        var bi := 0;
        while bi < BPB && base + bi < sb.size
          invariant bi <= BPB
          invariant forall c :: 0 <= c < base + bi && c < sb.size ==> bitmap[c]
          invariant State() == old(State()) && logged == old(logged)
        {
          b := base + bi;
          if !bitmap[b] {
            bitmap := bitmap[b := true];
            logged := logged + {sb.BBlock(base)};
            assert sb.BBlock(base) == sb.BBlock(b);
            Bzero(b);
            return;
          }
          bi := bi + 1;
        }
        base := base + BPB;
      }
      b := 0;
    }

    method Bzero(b: nat)
      requires b < |blocks|
      modifies `blocks, `logged
      ensures blocks == old(blocks)[b := ZeroBlock()]
      ensures logged == old(logged) + {b}
    {
      blocks := blocks[b := ZeroBlock()];
      logged := logged + {b};
    }

    // bfree; the source panics on a block that is already free.
    method Bfree(b: nat)
      requires b < |bitmap| && bitmap[b]
      modifies `bitmap, `logged
      ensures bitmap == Cleared(old(bitmap), {b})
      ensures logged == old(logged) + {sb.BBlock(b)}
    {
      bitmap := bitmap[b := false];
      logged := logged + {sb.BBlock(b)};
    }

    /** bmap.  The block of file i at index bn, allocated if it was missing: no file's
        contents change, existing slots keep their blocks, and 0 comes back exactly when
        the block was missing and no block was free to make it (or its indirect block).
        Only newly taken blocks, their bitmap blocks and the indirect block are logged. */
    method Bmap(i: nat, bn: nat) returns (addr: nat)
      requires Valid() && i < |inodes| && bn < MAXFILE
      modifies `bitmap, `blocks, `inodes, `logged, `owner
      ensures Valid()
      ensures SameData(sb, old(State()), State()) && KeepsSlots(sb, old(State()), State())
      ensures addr == Addr(sb, State(), i, Slot(bn))
      ensures addr == 0 ==> Full(bitmap)
      ensures old(Addr(sb, State(), i, Slot(bn))) != 0 ==> State() == old(State()) && logged == old(logged)
      ensures Logs(sb, old(State()), State(), i, old(logged), logged, {}) && Fills(sb, old(State()), State(), i, bn, bn + 1)
      ensures logged <= old(logged) + {addr, sb.BBlock(addr)} + IndirectBlocks(sb, State(), i)
    {
      if bn < NDIRECT {
        addr := BmapDirect(i, bn);
      } else {
        addr := BmapIndirect(i, bn, bn + 1);
      }
    }

    method BmapDirect(i: nat, bn: nat) returns (addr: nat)
      requires Valid() && i < |inodes| && bn < NDIRECT
      modifies `bitmap, `blocks, `inodes, `logged, `owner
      ensures Valid()
      ensures SameData(sb, old(State()), State()) && KeepsSlots(sb, old(State()), State())
      ensures addr == Addr(sb, State(), i, bn)
      ensures addr == 0 ==> Full(bitmap)
      ensures old(Addr(sb, State(), i, bn)) != 0 ==> State() == old(State()) && logged == old(logged)
      ensures Logs(sb, old(State()), State(), i, old(logged), logged, {}) && Fills(sb, old(State()), State(), i, bn, bn + 1)
      ensures logged <= old(logged) + {addr, sb.BBlock(addr)}
    {
      addr := inodes[i].addrs[bn];
      if addr == 0 {
        addr := AllocDirect(i, bn);
      } else {
        LogsStored(sb, State(), State(), i, logged, {});
      }
    }

    method BmapIndirect(i: nat, bn: nat, ghost next: nat) returns (addr: nat)
      requires Valid() && i < |inodes| && NDIRECT <= bn < MAXFILE && next == bn + 1
      modifies `bitmap, `blocks, `inodes, `logged, `owner
      ensures Valid()
      ensures SameData(sb, old(State()), State()) && KeepsSlots(sb, old(State()), State())
      ensures addr == Addr(sb, State(), i, next)
      ensures addr == 0 ==> Full(bitmap)
      ensures old(Addr(sb, State(), i, next)) != 0 ==> State() == old(State()) && logged == old(logged)
      ensures Logs(sb, old(State()), State(), i, old(logged), logged, {}) && Fills(sb, old(State()), State(), i, bn, next)
      ensures logged <= old(logged) + {addr, sb.BBlock(addr)} + IndirectBlocks(sb, State(), i)
    {
      ghost var fs0, logged0 := State(), logged;
      var ind := IndirectFor(i, bn);
      if ind == 0 {
        return 0;
      }
      ghost var fs1, logged1 := State(), logged;
      addr := BmapEntry(i, bn - NDIRECT, bn, next);
      BmapJoined(sb, fs0, fs1, State(), i, bn, next, logged0, logged1, logged);
    }

    // bmap's indirect block, made if it is missing.
    method IndirectFor(i: nat, ghost bn: nat) returns (ind: nat)
      requires Valid() && i < |inodes|
      modifies `bitmap, `blocks, `inodes, `logged, `owner
      ensures Valid()
      ensures SameData(sb, old(State()), State()) && KeepsSlots(sb, old(State()), State())
      ensures ind == Addr(sb, State(), i, NDIRECT) == inodes[i].addrs[NDIRECT]
      ensures ind == 0 ==> Full(bitmap)
      ensures old(Addr(sb, State(), i, NDIRECT)) != 0 ==> State() == old(State()) && logged == old(logged)
      ensures forall k :: NDIRECT < k < NSLOTS ==> Addr(sb, State(), i, k) == old(Addr(sb, State(), i, k))
      ensures Logs(sb, old(State()), State(), i, old(logged), logged, {}) && Fills(sb, old(State()), State(), i, bn, bn)
      ensures logged <= old(logged) + IndirectBlocks(sb, State(), i)
    {
      ind := inodes[i].addrs[NDIRECT];
      if ind == 0 {
        ind := AllocDirect(i, NDIRECT);
      } else {
        LogsStored(sb, State(), State(), i, logged, {});
      }
    }

    // bmap once the indirect block exists.
    method BmapEntry(i: nat, j: nat, ghost bn: nat, ghost next: nat) returns (addr: nat)
      requires Valid() && i < |inodes| && j < NINDIRECT && inodes[i].addrs[NDIRECT] != 0 && bn == NDIRECT + j && next == bn + 1
      modifies `bitmap, `blocks, `logged, `owner
      ensures Valid()
      ensures SameData(sb, old(State()), State()) && KeepsSlots(sb, old(State()), State())
      ensures addr == Addr(sb, State(), i, next)
      ensures addr == 0 ==> Full(bitmap)
      ensures old(Addr(sb, State(), i, next)) != 0 ==> State() == old(State()) && logged == old(logged)
      ensures Logs(sb, old(State()), State(), i, old(logged), logged, {})
      ensures Fills(sb, old(State()), State(), i, bn, next)
      ensures logged <= old(logged) + {addr, sb.BBlock(addr), inodes[i].addrs[NDIRECT]}
    {
      addr := Entry(blocks[inodes[i].addrs[NDIRECT]], j);
      if addr == 0 {
        addr := AllocEntry(i, j, bn, next);
      } else {
        LogsStored(sb, State(), State(), i, logged, {});
      }
    }

    method AllocDirect(i: nat, k: nat) returns (addr: nat)
      requires Valid() && i < |inodes| && k <= NDIRECT && inodes[i].addrs[k] == 0
      modifies `bitmap, `blocks, `inodes, `logged, `owner
      ensures Valid()
      ensures SameData(sb, old(State()), State()) && KeepsSlots(sb, old(State()), State())
      ensures addr == Addr(sb, State(), i, k)
      ensures addr == 0 ==> Full(bitmap) && State() == old(State()) && logged == old(logged)
      ensures addr != 0 ==> logged == old(logged) + {addr, sb.BBlock(addr)}
      ensures Logs(sb, old(State()), State(), i, old(logged), logged, {})
      ensures forall i', k' :: 0 <= i' < |inodes| && 0 <= k' < NSLOTS && (i', k') != (i, k) ==>
                Addr(sb, State(), i', k') == old(Addr(sb, State(), i', k'))
    {
      addr := Balloc();
      if addr == 0 {
        LogsStored(sb, State(), State(), i, logged, {});
        return;
      }
      AllocDirectOk(sb, old(State()), owner, i, k, addr);
      inodes := inodes[i := inodes[i].(addrs := inodes[i].addrs[k := addr])];
      owner := owner[addr := (i, k)];
      assert !EntryAdded(sb, old(State()), State(), i);
      LogsTaken(sb, old(State()), State(), i, old(logged), addr, false);
    }

    method AllocEntry(i: nat, j: nat, ghost bn: nat, ghost next: nat) returns (addr: nat)
      requires Valid() && i < |inodes| && j < NINDIRECT && bn == NDIRECT + j && next == bn + 1
      requires inodes[i].addrs[NDIRECT] != 0 && Addr(sb, State(), i, next) == 0
      modifies `bitmap, `blocks, `logged, `owner
      ensures Valid()
      ensures SameData(sb, old(State()), State()) && KeepsSlots(sb, old(State()), State())
      ensures addr == Addr(sb, State(), i, next)
      ensures addr == 0 ==> Full(bitmap)
      ensures Logs(sb, old(State()), State(), i, old(logged), logged, {})
      ensures Fills(sb, old(State()), State(), i, bn, next)
      ensures logged <= old(logged) + {addr, sb.BBlock(addr), inodes[i].addrs[NDIRECT]}
    {
      addr := Balloc();
      if addr != 0 {
        AllocEntryOk(sb, old(State()), owner, i, j, bn, next, addr);
        var ind := inodes[i].addrs[NDIRECT];
        blocks := blocks[ind := WithEntry(blocks[ind], j, addr)];
        logged := logged + {ind};
        owner := owner[addr := (i, next)];
        assert State() == RecordEntry(sb, Take(old(State()), addr), i, j, addr);
        assert EntryAdded(sb, old(State()), State(), i);
        LogsTaken(sb, old(State()), State(), i, old(logged), addr, true);
      } else {
        LogsStored(sb, State(), State(), i, logged, {});
      }
    }

    // ---- Truncation -----------------------------------------------------------------

    /** itrunc.  Every block of the file goes back to the bitmap (bfree never meets a
        free block), the file becomes empty and no other file changes. */
    method Itrunc(i: nat)
      requires Valid() && i < |inodes|
      modifies `bitmap, `inodes, `logged, `owner
      ensures Valid() && (old(NoHoles(sb, State())) ==> NoHoles(sb, State()))
      ensures DataExcept(sb, old(State()), State(), i, 0, MAXFILE)
      ensures inodes == old(inodes)[i := Inode(0, seq(NDIRECT + 1, _ => 0))]
      ensures forall b :: 0 <= b < sb.size ==>
                (bitmap[b] <==> old(bitmap)[b] && !(b in old(owner) && old(owner)[b].0 == i))
    {
      FreeAllBlocks(i);
      ResizeOwned(sb, State(), owner, i, 0);
      inodes := inodes[i := inodes[i].(size := 0)];
      logged := logged + {sb.IBlock(i)};
      if old(NoHoles(sb, State())) {
        TruncatedNoHoles(sb, old(State()), State(), i);
      }
      forall b | 0 <= b < sb.size
        ensures bitmap[b] <==> old(bitmap)[b] && !(b in old(owner) && old(owner)[b].0 == i)
      {
        TruncatedBitmap(sb, old(State()), old(owner), State(), owner, i, b);
      }
    }

    method FreeAllBlocks(i: nat)
      requires Valid() && i < |inodes|
      modifies `bitmap, `inodes, `logged, `owner
      ensures Valid()
      ensures DataExcept(sb, old(State()), State(), i, 0, MAXFILE)
      ensures inodes == old(inodes)[i := Inode(old(inodes)[i].size, seq(NDIRECT + 1, _ => 0))]
    {
      FreeDirectBlocks(i);
      ghost var mid := State();
      if inodes[i].addrs[NDIRECT] != 0 {
        FreeIndirectBlocks(i);
      } else {
        NoIndirectData(sb, mid, i);
      }
      DataExceptJoin(sb, old(State()), mid, State(), i, NDIRECT, MAXFILE);
      assert inodes[i].addrs == seq(NDIRECT + 1, _ => 0);
    }

    method FreeDirectBlocks(i: nat)
      requires Valid() && i < |inodes|
      modifies `bitmap, `inodes, `logged, `owner
      ensures Valid()
      ensures DataExcept(sb, old(State()), State(), i, 0, NDIRECT)
      ensures |inodes| == |old(inodes)| && inodes == old(inodes)[i := inodes[i]]
      ensures inodes[i] == Inode(old(inodes)[i].size, seq(NDIRECT, _ => 0) + [old(inodes)[i].addrs[NDIRECT]])
    {
      var k := 0;
      while k < NDIRECT
        invariant k <= NDIRECT
        invariant Valid() && DataExcept(sb, old(State()), State(), i, 0, k)
        invariant |inodes| == |old(inodes)| && inodes == old(inodes)[i := inodes[i]]
        invariant inodes[i].size == old(inodes)[i].size
        invariant forall x :: 0 <= x < k ==> inodes[i].addrs[x] == 0
        invariant forall x :: k <= x <= NDIRECT ==> inodes[i].addrs[x] == old(inodes)[i].addrs[x]
      {
        ghost var mid := State();
        if inodes[i].addrs[k] != 0 {
          FreeDirectBlock(i, k);
        } else {
          NoBlockData(sb, mid, i, k);
        }
        DataExceptJoin(sb, old(State()), mid, State(), i, k, k + 1);
        k := k + 1;
      }
    }

    method FreeDirectBlock(i: nat, k: nat)
      requires Valid() && i < |inodes| && k < NDIRECT && inodes[i].addrs[k] != 0
      modifies `bitmap, `inodes, `logged, `owner
      ensures Valid() && State() == FreeDirect(old(State()), i, k)
      ensures DataExcept(sb, old(State()), State(), i, k, k + 1)
    {
      var a := inodes[i].addrs[k];
      assert Addr(sb, State(), i, k) == a && SlotOk(sb, State(), owner, i, k);
      FreeDirectOwned(sb, State(), owner, {}, i, k);
      Bfree(a);
      inodes := inodes[i := inodes[i].(addrs := inodes[i].addrs[k := 0])];
      owner := owner - {a};
    }

    method FreeIndirectBlocks(i: nat)
      requires Valid() && i < |inodes| && inodes[i].addrs[NDIRECT] != 0
      modifies `bitmap, `inodes, `logged, `owner
      ensures Valid() && State() == FreeIndirect(sb, old(State()), i)
      ensures DataExcept(sb, old(State()), State(), i, NDIRECT, MAXFILE)
    {
      var ind := inodes[i].addrs[NDIRECT];
      assert Addr(sb, State(), i, NDIRECT) == ind && SlotOk(sb, State(), owner, i, NDIRECT);
      FreeIndirectOwned(sb, State(), owner, {}, i);
      FreeEntries(i, ind);
      ghost var freed := EntrySet(blocks[ind], NINDIRECT);
      assert ind !in freed && bitmap[ind];
      Bfree(ind);
      assert bitmap == Cleared(old(bitmap), freed + {ind});
      inodes := inodes[i := inodes[i].(addrs := inodes[i].addrs[NDIRECT := 0])];
      owner := owner - (freed + {ind});
    }

    method FreeEntries(i: nat, ind: nat)
      requires Valid() && i < |inodes| && inodes[i].addrs[NDIRECT] == ind != 0
      modifies `bitmap, `logged
      ensures bitmap == Cleared(old(bitmap), EntrySet(blocks[ind], NINDIRECT))
      ensures ind !in EntrySet(blocks[ind], NINDIRECT)
    {
      var j := 0;
      while j < NINDIRECT
        invariant j <= NINDIRECT
        invariant bitmap == Cleared(old(bitmap), EntrySet(blocks[ind], j))
      {
        var a := Entry(blocks[ind], j);
        if a != 0 {
          EntriesDistinct(sb, old(State()), owner, {}, i, j);
          Bfree(a);
        }
        assert bitmap == Cleared(old(bitmap), EntrySet(blocks[ind], j + 1));
        j := j + 1;
      }
      EntriesDistinct(sb, old(State()), owner, {}, i, NINDIRECT);
    }

    // ---- Reading and writing ------------------------------------------------------------

    /** One round of writei: find or make the block at position x, and copy in those of the
        bytes that can be fetched.  The block is logged only when all of them could be.
        D is what the round logs besides the indirect block. */
    method WriteRound(i: nat, x: nat, bn: nat, bytes: seq<Byte>, got: nat) returns (wrote: bool, ghost D: set<nat>)
      requires Valid() && i < |inodes| && bn == x / BSIZE < MAXFILE && x % BSIZE + |bytes| <= BSIZE
      requires x + |bytes| <= MAXFILE * BSIZE && got <= |bytes|
      modifies `bitmap, `blocks, `inodes, `logged, `owner
      ensures Valid() && KeepsSlots(sb, old(State()), State())
      ensures Wrote(sb, old(State()), State(), i, x, if Addr(sb, State(), i, Slot(bn)) != 0 then bytes[..got] else [])
      ensures Addr(sb, State(), i, Slot(bn)) == 0 ==> Full(bitmap)
      ensures wrote <==> Addr(sb, State(), i, Slot(bn)) != 0 && got == |bytes|
      ensures Logs(sb, old(State()), State(), i, old(logged), logged, if wrote then {Addr(sb, State(), i, Slot(bn))} else {})
      ensures Fills(sb, old(State()), State(), i, bn, bn + 1)
      ensures Charged(sb, State(), i, old(logged), logged, D)
      ensures |D| <= if old(Addr(sb, State(), i, Slot(bn))) != 0 then 1 else 2
    {
      var addr := Bmap(i, bn);
      D := if old(Addr(sb, State(), i, Slot(bn))) != 0 then {addr} else {addr, sb.BBlock(addr)};
      wrote := addr != 0 && got == |bytes|;
      if addr == 0 {
        SameDataWrote(sb, old(State()), State(), i, x);
        return;
      }
      ghost var mid, logged1 := State(), logged;
      StoreBytes(i, x, addr, bytes[..got], wrote);
      RoundWrote(sb, old(State()), mid, State(), i, x, bytes[..got]);
      IndirectKept(sb, mid, State(), i);
      RoundLogs(sb, old(State()), mid, State(), i, bn, old(logged), logged1, logged, if wrote then {addr} else {});
    }

    // The change of the buffer, and log_write unless the fetch broke off.
    method StoreBytes(i: nat, x: nat, addr: nat, bytes: seq<Byte>, log: bool)
      requires Valid() && i < |inodes| && x / BSIZE < MAXFILE && x % BSIZE + |bytes| <= BSIZE
      requires x + |bytes| <= MAXFILE * BSIZE
      requires addr == Addr(sb, State(), i, Slot(x / BSIZE)) != 0
      modifies `blocks, `logged
      ensures Valid() && KeepsSlots(sb, old(State()), State())
      ensures Wrote(sb, old(State()), State(), i, x, bytes)
      ensures forall i', k' :: 0 <= i' < |inodes| && 0 <= k' < NSLOTS ==> Addr(sb, State(), i', k') == old(Addr(sb, State(), i', k'))
      ensures logged == old(logged) + if log then {addr} else {}
    {
      assert SlotOk(sb, State(), owner, i, Slot(x / BSIZE));
      var d := Patched(blocks[addr], x % BSIZE, bytes);
      StoreOwned(sb, State(), owner, {}, i, x / BSIZE, d);
      blocks := blocks[addr := d];
      if log {
        logged := logged + {addr};
      }
      PatchWrote(sb, old(State()), State(), i, x, bytes);
    }

    method WriteNext(i: nat, x: nat, bn: nat, chunk: seq<Byte>, got: nat, ghost off: nat, ghost src: seq<Byte>, ghost tot: nat, ghost next: nat,
                     ghost fs0: Fs, ghost logged0: set<nat>, ghost D: set<nat>)
      returns (wrote: bool, ghost E: set<nat>)
      requires Valid() && i < |inodes| && Progress(sb, fs0, State(), i, off, src, tot, tot)
      requires x == off + tot && next == tot + |chunk| <= |src| && chunk == src[tot .. next] && got <= |chunk|
      requires off + |src| <= MAXFILE * BSIZE && bn == x / BSIZE < MAXFILE && x % BSIZE + |chunk| <= BSIZE && off / BSIZE <= bn
      requires Charged(sb, State(), i, logged0, logged, D) && Recorded(sb, fs0, State(), i, logged0, logged, off / BSIZE, bn, bn)
      modifies `bitmap, `blocks, `inodes, `logged, `owner
      ensures Valid() && i < |inodes|
      ensures Addr(sb, State(), i, Slot(bn)) == 0 ==> Full(bitmap)
      ensures wrote <==> Addr(sb, State(), i, Slot(bn)) != 0 && got == |chunk|
      ensures Progress(sb, fs0, State(), i, off, src, if wrote then next else tot, if Addr(sb, State(), i, Slot(bn)) != 0 then tot + got else tot)
      ensures Charged(sb, State(), i, logged0, logged, D + E) && |D + E| <= |D| + |E|
      ensures |E| <= if old(Addr(sb, State(), i, Slot(bn))) != 0 then 1 else 2
      ensures Recorded(sb, fs0, State(), i, logged0, logged, off / BSIZE, if wrote then bn + 1 else bn, bn + 1)
    {
      ghost var fs1, logged1 := State(), logged;
      wrote, E := WriteRound(i, x, bn, chunk, got);
      RoundDone(sb, fs0, fs1, State(), i, off, src, tot, next, x, bn, got, wrote, logged0, logged1, logged, D, E);
    }

    // Only the first round can start inside a block, and that block exists.
    lemma FirstBlockExists(fs0: Fs, i: nat, off: nat, tot: nat, rounds: nat, n: nat)
      requires Shaped(sb, State()) && KeepsSlots(sb, fs0, State()) && NoHoles(sb, fs0) && i < |inodes|
      requires AtRound(off, n, tot, rounds) && (off + tot) / BSIZE < MAXFILE
      requires off <= fs0.inodes[i].size && off / BSIZE < MAXFILE
      ensures rounds == 0 && off % BSIZE != 0 ==> Addr(sb, State(), i, Slot((off + tot) / BSIZE)) != 0
    {
      assert NoHolesIn(sb, fs0, i);
      if rounds == 0 && off % BSIZE != 0 {
        assert off / BSIZE * BSIZE < off;
        assert Addr(sb, fs0, i, Slot(off / BSIZE)) != 0;
      }
    }

    // Since the volume was fs0, writei has written the first tot bytes of src at off,
    // at the cost of `rounds` rounds.
    ghost predicate Written(fs0: Fs, logged0: set<nat>, i: nat, off: nat, src: seq<Byte>, tot: nat, seen: nat, rounds: nat, D: set<nat>)
      reads this
    {
      && Valid() && i < |inodes| && Progress(sb, fs0, State(), i, off, src, tot, seen)
      && Charged(sb, State(), i, logged0, logged, D)
      && Recorded(sb, fs0, State(), i, logged0, logged, off / BSIZE, off / BSIZE + Touched(off, tot), off / BSIZE + rounds)
      && |D| <= Cost(off, rounds) && rounds <= Rounds(off, |src|)
    }

    // Why writei stopped after tot bytes of n: the block is missing and the disk full, or
    // the fetch broke off, and what it had fetched is in the block.
    ghost predicate Stopped(i: nat, off: nat, n: nat, tot: nat, seen: nat, readable: nat)
      requires Shaped(sb, State()) && i < |inodes| && off + n <= MAXFILE * BSIZE
      reads this
    {
      tot < n &&
      if Addr(sb, State(), i, Slot((off + tot) / BSIZE)) == 0 then Full(bitmap) && seen == tot
      else Faults(off, n, tot, readable) && seen == readable
    }

    // Where the next round writes, in which block, up to where, and how much of it can be
    // fetched.
    static method PlanRound(off: nat, n: nat, tot: nat, readable: nat, ghost rounds: nat) returns (x: nat, bn: nat, next: nat, got: nat)
      requires AtRound(off, n, tot, rounds) && tot < n && off + n <= MAXFILE * BSIZE && tot <= readable
      ensures x == off + tot && bn == x / BSIZE == off / BSIZE + rounds && bn < MAXFILE && off / BSIZE < MAXFILE
      ensures next == tot + Portion(off, n, tot) <= n && x % BSIZE + (next - tot) <= BSIZE
      ensures tot + got == if next <= readable then next else readable
    {
      var m := Portion(off, n, tot);
      PortionFits(off, n, tot, m);
      RoundEnds(off, n, tot, rounds);
      x, next := off + tot, tot + m;
      bn := x / BSIZE;
      got := if next <= readable then m else readable - tot;
    }

    // A round of writei with its position and its charges.
    method WriteStep(i: nat, off: nat, src: seq<Byte>, tot: nat, readable: nat,
                     ghost fs0: Fs, ghost logged0: set<nat>, ghost rounds: nat, ghost rounds1: nat, ghost D: set<nat>)
      returns (wrote: bool, tot': nat, ghost seen: nat, ghost D': set<nat>)
      requires Written(fs0, logged0, i, off, src, tot, tot, rounds, D) && AtRound(off, |src|, tot, rounds) && rounds1 == rounds + 1
      requires tot < |src| && off + |src| <= MAXFILE * BSIZE && tot <= readable
      requires NoHoles(sb, fs0) && off <= fs0.inodes[i].size
      modifies `bitmap, `blocks, `inodes, `logged, `owner
      ensures Written(fs0, logged0, i, off, src, tot', seen, rounds1, D')
      ensures wrote ==> tot < tot' == seen <= readable && AtRound(off, |src|, tot', rounds1)
      ensures !wrote ==> tot' == tot && Stopped(i, off, |src|, tot, seen, readable)
    {
      var x, bn, next, got := PlanRound(off, |src|, tot, readable, rounds);
      FirstBlockExists(fs0, i, off, tot, rounds, |src|);
      ghost var existed := Addr(sb, State(), i, Slot(bn)) != 0;
      ghost var E;
      wrote, E := WriteNext(i, x, bn, src[tot .. next], got, off, src, tot, next, fs0, logged0, D);
      D' := D + E;
      seen := if Addr(sb, State(), i, Slot(bn)) != 0 then tot + got else tot;
      tot' := if wrote then next else tot;
      StepWritten(fs0, logged0, i, off, src, tot, tot', seen, rounds, rounds1, bn, D, E, existed, wrote);
      if !wrote {
        StopReason(i, off, |src|, tot, seen, readable, bn, next);
      }
    }

    lemma StopReason(i: nat, off: nat, n: nat, tot: nat, seen: nat, readable: nat, bn: nat, next: nat)
      requires Shaped(sb, State()) && i < |inodes| && off + n <= MAXFILE * BSIZE && tot < n && bn == (off + tot) / BSIZE < MAXFILE
      requires next == tot + Portion(off, n, tot)
      requires if Addr(sb, State(), i, Slot(bn)) == 0 then Full(bitmap) && seen == tot else next > readable && seen == readable
      ensures Stopped(i, off, n, tot, seen, readable)
    {
    }

    lemma StepWritten(fs0: Fs, logged0: set<nat>, i: nat, off: nat, src: seq<Byte>, tot: nat, tot': nat, seen: nat,
                      rounds: nat, rounds1: nat, bn: nat, D: set<nat>, E: set<nat>, existed: bool, wrote: bool)
      requires Valid() && i < |inodes| && AtRound(off, |src|, tot, rounds) && tot < |src| && rounds1 == rounds + 1 && bn == (off + tot) / BSIZE
      requires tot' == if wrote then tot + Portion(off, |src|, tot) else tot
      requires Progress(sb, fs0, State(), i, off, src, tot', seen) && Charged(sb, State(), i, logged0, logged, D + E)
      requires |D| <= Cost(off, rounds) && |D + E| <= |D| + |E| && |E| <= (if existed then 1 else 2) && (rounds == 0 && off % BSIZE != 0 ==> existed)
      requires Recorded(sb, fs0, State(), i, logged0, logged, off / BSIZE, if wrote then bn + 1 else bn, bn + 1)
      ensures Written(fs0, logged0, i, off, src, tot', seen, rounds1, D + E)
      ensures wrote ==> AtRound(off, |src|, tot', rounds1)
    {
      StepAt(off, |src|, tot, tot', rounds, rounds1, bn, |D|, |E|, existed, wrote);
    }

    // writei's loop.
    method WriteLoop(i: nat, off: nat, src: seq<Byte>, readable: nat) returns (tot: nat, ghost seen: nat, ghost rounds: nat, ghost D: set<nat>)
      requires Valid() && NoHoles(sb, State()) && i < |inodes|
      requires off <= inodes[i].size && off + |src| <= MAXFILE * BSIZE
      modifies `bitmap, `blocks, `inodes, `logged, `owner
      ensures Written(old(State()), old(logged), i, off, src, tot, seen, rounds, D)
      ensures tot <= readable
      ensures if tot == |src| then seen == tot else Stopped(i, off, |src|, tot, seen, readable)
    {
      tot, seen := 0, 0;
      D := {};
      rounds := 0;
      StartWrite(i, off, src);
      while tot < |src|
        invariant Written(old(State()), old(logged), i, off, src, tot, tot, rounds, D) && seen == tot
        invariant AtRound(off, |src|, tot, rounds) && tot <= readable
      {
        var wrote;
        ghost var rounds1 := rounds + 1;
        wrote, tot, seen, D := WriteStep(i, off, src, tot, readable, old(State()), old(logged), rounds, rounds1, D);
        rounds := rounds1;
        if !wrote {
          return;
        }
      }
    }

    lemma StartWrite(i: nat, off: nat, src: seq<Byte>)
      requires Valid() && NoHoles(sb, State()) && i < |inodes| && off <= inodes[i].size && off + |src| <= MAXFILE * BSIZE
      ensures Written(State(), logged, i, off, src, 0, 0, 0, {})
    {
      StartProgress(sb, State(), i, off, src);
      LogsStored(sb, State(), State(), i, logged, {});
      assert StoredBlocks(sb, State(), i, off / BSIZE, off / BSIZE) == {};
    }

    // The end of writei: record a larger size, and write the inode back in any case.
    method FinishWrite(i: nat, off: nat, src: seq<Byte>, tot: nat, ghost seen: nat, ghost readable: nat, ghost fs0: Fs)
      requires Valid() && NoHoles(sb, fs0) && Progress(sb, fs0, State(), i, off, src, tot, seen)
      requires i < |inodes| && off <= fs0.inodes[i].size && off + |src| <= MAXFILE * BSIZE
      modifies `inodes, `logged
      ensures Valid() && Spliced(sb, fs0, State(), i, off, src[..seen], tot)
      ensures old(Stopped(i, off, |src|, tot, seen, readable)) ==> i < |inodes| && Stopped(i, off, |src|, tot, seen, readable)
      ensures logged == old(logged) + {sb.IBlock(i)}
      ensures |inodes| == |old(inodes)| && forall i', k' :: 0 <= i' < |inodes| && 0 <= k' < NSLOTS ==> Addr(sb, State(), i', k') == old(Addr(sb, State(), i', k'))
    {
      var size := inodes[i].size;
      if off + tot > size {
        size := off + tot;
      }
      ghost var fs1 := State();
      ResizeOwned(sb, fs1, owner, i, size);
      ExtendNoHoles(sb, fs0, fs1, i, off, tot, size);
      inodes := inodes[i := inodes[i].(size := size)];
      logged := logged + {sb.IBlock(i)};
      ResizedWrote(sb, fs0, fs1, State(), i, off, src[..seen]);
      WroteSplices(sb, fs0, State(), i, off, src[..seen], tot);
    }

    /** What a call of writei that returns r has done since fs0, when logged0 was logged:
        slots keep their blocks and only those in its range are filled; it logged exactly
        the blocks it stored, the newly taken ones with their bitmap blocks, the indirect
        block if that got an entry, and the inode block. */
    ghost predicate WriteLogged(fs0: Fs, logged0: set<nat>, i: nat, off: nat, n: nat, r: nat)
      reads this
    {
      && KeepsAddrs(sb, fs0, State()) && i < |inodes| && off / BSIZE + Touched(off, r) <= MAXFILE
      && Fills(sb, fs0, State(), i, off / BSIZE, off / BSIZE + Rounds(off, n))
      && Logs(sb, fs0, State(), i, logged0, logged, StoredBlocks(sb, State(), i, off / BSIZE, off / BSIZE + Touched(off, r)) + {sb.IBlock(i)})
    }

    /** writei of src at off, of which the first `readable` bytes can be fetched.  The
        result is -1 for a write that starts past the end or would leave the largest
        file; otherwise the number of bytes spliced into the file, short only when a
        fetch faults or the disk is full.  A fetch that breaks off inside a block leaves
        its first bytes there, unlogged.  No other file changes and the file keeps having
        no holes. */
    method Writei(i: nat, off: nat, src: seq<Byte>, readable: nat) returns (r: int, ghost seen: nat)
      requires Valid() && NoHoles(sb, State()) && i < |inodes| && off < UINT && |src| < UINT
      modifies `bitmap, `blocks, `inodes, `logged, `owner
      ensures Valid() && NoHoles(sb, State()) && |inodes| == |old(inodes)|
      ensures r == -1 <==> off > old(inodes)[i].size || off + |src| > MAXFILE * BSIZE
      ensures r == -1 ==> State() == old(State()) && logged == old(logged)
      ensures r != -1 ==>
                && 0 <= r <= seen <= |src| && r <= readable
                && Spliced(sb, old(State()), State(), i, off, src[..seen], r)
                && (if r == |src| then seen == r else Stopped(i, off, |src|, r, seen, readable))
                && WriteLogged(old(State()), old(logged), i, off, |src|, r)
                && |logged| <= |old(logged)| + Cost(off, Rounds(off, |src|)) + 2 + 1
    {
      seen := 0;
      if off > inodes[i].size || Add32(off, |src|) < off {
        return -1, 0;
      }
      if off + |src| > MAXFILE * BSIZE {
        return -1, 0;
      }
      r, seen := WriteRange(i, off, src, readable);
    }

    method WriteRange(i: nat, off: nat, src: seq<Byte>, readable: nat) returns (r: nat, ghost seen: nat)
      requires Valid() && NoHoles(sb, State()) && i < |inodes| && off <= inodes[i].size && off + |src| <= MAXFILE * BSIZE
      modifies `bitmap, `blocks, `inodes, `logged, `owner
      ensures Valid() && r <= seen <= |src| && r <= readable
      ensures Spliced(sb, old(State()), State(), i, off, src[..seen], r)
      ensures if r == |src| then seen == r else Stopped(i, off, |src|, r, seen, readable)
      ensures WriteLogged(old(State()), old(logged), i, off, |src|, r)
      ensures |logged| <= |old(logged)| + Cost(off, Rounds(off, |src|)) + 2 + 1
    {
      ghost var rounds, D;
      r, seen, rounds, D := WriteLoop(i, off, src, readable);
      ghost var fs1, logged1 := State(), logged;
      FinishWrite(i, off, src, r, seen, readable, old(State()));
      RangeLogged(old(State()), fs1, old(logged), logged1, i, off, |src|, r, rounds, D);
    }

    lemma RangeLogged(fs0: Fs, fs1: Fs, l0: set<nat>, l1: set<nat>, i: nat, off: nat, n: nat, r: nat, rounds: nat, D: set<nat>)
      requires KeepsSlots(sb, fs0, fs1) && i < |fs0.inodes| && Shaped(sb, State()) && |inodes| == |fs1.inodes| && bitmap == fs1.bitmap
      requires Recorded(sb, fs0, fs1, i, l0, l1, off / BSIZE, off / BSIZE + Touched(off, r), off / BSIZE + rounds)
      requires Charged(sb, fs1, i, l0, l1, D) && |D| <= Cost(off, rounds) && rounds <= Rounds(off, n) && logged == l1 + {sb.IBlock(i)}
      requires forall i', k :: 0 <= i' < |inodes| && 0 <= k < NSLOTS ==> Addr(sb, State(), i', k) == Addr(sb, fs1, i', k)
      ensures WriteLogged(fs0, l0, i, off, n, r) && |logged| <= |l0| + Cost(off, Rounds(off, n)) + 2 + 1
    {
      LoggedSize(sb, fs1, i, l0, l1, D);
      InodeLogged(sb, fs0, fs1, State(), i, off, n, r, rounds, l0, l1, logged);
    }

    // One round of readi: the bytes of the block at position x.  The block exists, so
    // bmap allocates nothing.
    method ReadRound(i: nat, x: nat, m: nat) returns (bytes: seq<Byte>)
      requires Valid() && NoHoles(sb, State()) && i < |inodes|
      requires 0 < m && x % BSIZE + m <= BSIZE && x + m <= inodes[i].size
      modifies `bitmap, `blocks, `inodes, `logged, `owner
      ensures Valid() && State() == old(State()) && logged == old(logged)
      ensures bytes == FileBytes(sb, State(), i)[x .. x + m]
    {
      BlockExists(sb, State(), i, x);
      var addr := Bmap(i, x / BSIZE);
      assert SlotOk(sb, State(), owner, i, Slot(x / BSIZE));
      bytes := blocks[addr][x % BSIZE .. x % BSIZE + m];
      SliceOfFile(sb, State(), i, x, m);
    }

    /** readi of n bytes at off into memory of which the first `writable` bytes can be
        stored: nothing past the end of the file or on wrap-around, -1 when a store
        faults, and otherwise exactly the file's bytes from off, clipped to its size. */
    method Readi(i: nat, off: nat, n: nat, writable: nat) returns (r: int, data: seq<Byte>)
      requires Valid() && NoHoles(sb, State()) && i < |inodes| && off < UINT && n < UINT
      modifies `bitmap, `blocks, `inodes, `logged, `owner
      ensures Valid() && State() == old(State()) && logged == old(logged)
      ensures off > inodes[i].size || off + n >= UINT ==> r == 0 && data == []
      ensures off <= inodes[i].size && off + n < UINT ==>
                var end := if off + n > inodes[i].size then inodes[i].size else off + n;
                && (r == -1 <==> writable < end - off)
                && (r != -1 ==> r == end - off && data == FileBytes(sb, State(), i)[off .. end])
    {
      if off > inodes[i].size || Add32(off, n) < off {
        return 0, [];
      }
      var len := n;
      if off + n > inodes[i].size {
        len := inodes[i].size - off;
      }
      r, data := ReadLoop(i, off, len, writable);
    }

    // A round that finds its block but cannot store it.
    method Touch(i: nat, x: nat)
      requires Valid() && NoHoles(sb, State()) && i < |inodes| && x < inodes[i].size
      modifies `bitmap, `blocks, `inodes, `logged, `owner
      ensures Valid() && State() == old(State()) && logged == old(logged)
    {
      BlockExists(sb, State(), i, x);
      var addr := Bmap(i, x / BSIZE);
    }

    method ReadMore(i: nat, off: nat, tot: nat, m: nat, data: seq<Byte>) returns (data': seq<Byte>)
      requires Valid() && NoHoles(sb, State()) && i < |inodes|
      requires 0 < m && (off + tot) % BSIZE + m <= BSIZE && off + tot + m <= inodes[i].size
      requires data == FileBytes(sb, State(), i)[off .. off + tot]
      modifies `bitmap, `blocks, `inodes, `logged, `owner
      ensures Valid() && State() == old(State()) && logged == old(logged)
      ensures data' == FileBytes(sb, State(), i)[off .. off + tot + m]
    {
      var bytes := ReadRound(i, off + tot, m);
      data' := data + bytes;
      JoinSlices(FileBytes(sb, State(), i), off, off + tot, off + tot + m);
    }

    // readi's loop over a stretch inside the file.
    method ReadLoop(i: nat, off: nat, len: nat, writable: nat) returns (r: int, data: seq<Byte>)
      requires Valid() && NoHoles(sb, State()) && i < |inodes| && off + len <= inodes[i].size
      modifies `bitmap, `blocks, `inodes, `logged, `owner
      ensures Valid() && State() == old(State()) && logged == old(logged)
      ensures r == -1 <==> writable < len
      ensures r != -1 ==> r == len && data == FileBytes(sb, State(), i)[off .. off + len]
    {
      data := [];
      var tot := 0;
      while tot < len
        invariant tot <= len && tot <= writable
        invariant Valid() && State() == old(State()) && logged == old(logged)
        invariant data == FileBytes(sb, State(), i)[off .. off + tot]
      {
        var m := Portion(off, len, tot);
        if tot + m > writable {
          Touch(i, off + tot);
          return -1, data;
        }
        data := ReadMore(i, off, tot, m, data);
        tot := tot + m;
      }
      r := tot;
    }

    // One transaction of filewrite.
    method WriteChunk(i: nat, off: nat, chunk: seq<Byte>, readable: nat) returns (r: int, ghost seen: nat)
      requires Valid() && NoHoles(sb, State()) && i < |inodes| && off < UINT && |chunk| <= CHUNK
      modifies `bitmap, `blocks, `inodes, `logged, `owner
      ensures Valid() && NoHoles(sb, State()) && |inodes| == |old(inodes)|
      ensures |logged| <= MAXOPBLOCKS
      ensures r == -1 <==> off > old(inodes)[i].size || off + |chunk| > MAXFILE * BSIZE
      ensures r == -1 ==> State() == old(State()) && seen == 0
      ensures r != -1 ==>
                && 0 <= r <= seen <= |chunk| && Spliced(sb, old(State()), State(), i, off, chunk[..seen], r)
                && (if r == |chunk| then seen == r else Stopped(i, off, |chunk|, r, seen, readable))
                && WriteLogged(old(State()), {}, i, off, |chunk|, r)
    {
      logged := {};
      r, seen := Writei(i, off, chunk, readable);
      seen := if r == -1 then 0 else seen;
      ChunkFits(off, |chunk|, Rounds(off, |chunk|));
    }

    method WriteNextChunk(i: nat, off: nat, src: seq<Byte>, done: nat, n1: nat, readable: nat, ghost fs0: Fs)
      returns (r: int, written: nat, ghost seen: nat)
      requires 0 < n1 <= CHUNK && done + n1 <= |src| && off + done < UINT
      requires Valid() && i < |inodes| && Spliced(sb, fs0, State(), i, off, src[..done], done)
      modifies `bitmap, `blocks, `inodes, `logged, `owner
      ensures Valid() && i < |inodes| && |logged| <= MAXOPBLOCKS
      ensures r <= n1 && written == (if r > 0 then done + r else done) <= seen <= |src| && off + written < UINT
      ensures Spliced(sb, fs0, State(), i, off, src[..seen], written)
      ensures (r == n1 ==> seen == written) && (seen == written || seen == readable)
    {
      ghost var fs1 := State();
      var pos, chunk := off + done, src[done .. done + n1];
      ghost var s;
      r, s := Transaction(i, pos, chunk, if readable > done then readable - done else 0);
      written, seen := done, done;
      if r != -1 {
        written, seen := done + r, done + s;
        SplicedMore(sb, fs0, fs1, State(), i, off, pos, src, done, r, s, chunk, written, seen);
      }
    }

    // WriteChunk, of whose log only the size matters.
    method Transaction(i: nat, off: nat, chunk: seq<Byte>, readable: nat) returns (r: int, ghost seen: nat)
      requires Valid() && NoHoles(sb, State()) && i < |inodes| && off < UINT && |chunk| <= CHUNK
      modifies `bitmap, `blocks, `inodes, `logged, `owner
      ensures Valid() && |inodes| == |old(inodes)| && |logged| <= MAXOPBLOCKS && -1 <= r <= |chunk|
      ensures r == -1 ==> State() == old(State())
      ensures r != -1 ==>
                && off <= old(inodes)[i].size && off + |chunk| <= MAXFILE * BSIZE && r <= seen <= |chunk|
                && Spliced(sb, old(State()), State(), i, off, chunk[..seen], r)
                && (r == |chunk| ==> seen == r) && (seen == r || seen == readable)
    {
      r, seen := WriteChunk(i, off, chunk, readable);
    }

    /** filewrite to an inode: the write is cut into chunks of CHUNK bytes, each in its own
        transaction, and every transaction logs at most MAXOPBLOCKS blocks.  The file offset
        advances by `written`: those bytes are spliced in, and the result is |src| if that
        is all of them and -1 otherwise.  Bytes after them have changed only when a fetch
        broke off, up to where it did. */
    method FileWrite(i: nat, off: nat, src: seq<Byte>, readable: nat)
      returns (ret: int, written: nat, ghost seen: nat, ghost transactions: seq<set<nat>>)
      requires Valid() && NoHoles(sb, State()) && i < |inodes| && off < UINT && |src| < 0x8000_0000
      modifies `bitmap, `blocks, `inodes, `logged, `owner
      ensures Valid()
      ensures forall t :: 0 <= t < |transactions| ==> |transactions[t]| <= MAXOPBLOCKS
      ensures written <= seen <= |src| && ret == if written == |src| then |src| else -1
      ensures seen == written || seen == readable
      ensures Spliced(sb, old(State()), State(), i, off, src[..seen], written)
    {
      transactions := [];
      written, seen := 0, 0;
      NothingSpliced(sb, State(), i, off);
      assert src[..0] == [];
      while written < |src|
        invariant written == seen <= |src| && off + written < UINT
        invariant Valid() && i < |inodes|
        invariant forall t :: 0 <= t < |transactions| ==> |transactions[t]| <= MAXOPBLOCKS
        invariant Spliced(sb, old(State()), State(), i, off, src[..written], written)
      {
        var n1 := |src| - written;
        if n1 > CHUNK {
          n1 := CHUNK;
        }
        var r;
        r, written, seen := WriteNextChunk(i, off, src, written, n1, readable, old(State()));
        transactions := transactions + [logged];
        if r != n1 {
          break;
        }
      }
      ret := if written == |src| then |src| else -1;
    }
  }
}
