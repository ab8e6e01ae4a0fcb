/** mkfs: building the first file system by handing out blocks and inodes in order.
    The bitmap is only written at the end; until then the blocks below `freeblock` are
    the ones in use. */
module Mkfs {
  import opened Basics
  import opened BlockMap
  import opened FileSystem

  // The bitmap in which exactly the blocks below `used` are taken.
  function FirstUsed(size: nat, used: nat): (r: seq<bool>)
    ensures |r| == size
    ensures forall b :: 0 <= b < size ==> r[b] == (b < used)
  {
    seq(size, b => b < used)
  }

  lemma NextUsed(size: nat, used: nat)
    requires used < size
    ensures FirstUsed(size, used + 1) == FirstUsed(size, used)[used := true]
  {
  }

  // Nothing has been written to the blocks that are still free.
  ghost predicate ZeroFrom(blocks: seq<Block>, used: nat) {
    forall b :: used <= b < |blocks| ==> blocks[b] == ZeroBlock()
  }

  // No file has a block at or past its size.
  ghost predicate NoneBeyond(sb: Super, fs: Fs)
    requires Shaped(sb, fs)
  {
    forall i, bn :: 0 <= i < |fs.inodes| && 0 <= bn < MAXFILE && bn * BSIZE >= fs.inodes[i].size ==> Addr(sb, fs, i, Slot(bn)) == 0
  }

  class Image {
    const sb: Super
    var blocks: seq<Block>
    var inodes: seq<Inode>
    var freeblock: nat
    var freeinode: nat
    ghost var owner: map<nat, (nat, nat)>

    ghost function State(): Fs
      reads this
    {
      Fs(FirstUsed(sb.size, freeblock), blocks, inodes)
    }

    ghost predicate Valid()
      reads this
    {
      Sound() && NoneBeyond(sb, State())
    }

    // The same while a file is being appended to, whose size has yet to follow.
    ghost predicate Sound()
      reads this
    {
      && Owned(sb, State(), owner, {}) && NoHoles(sb, State())
      && sb.nmeta <= freeblock <= sb.size && freeinode <= |inodes|
      && ZeroFrom(blocks, freeblock)
      && forall i :: freeinode <= i < |inodes| ==> inodes[i] == Inode(0, seq(NDIRECT + 1, _ => 0))
    }

    // The start of main: an all-zero disk whose first free block follows the metadata.
    constructor (sb: Super, ninodes: nat)
      requires sb.Valid() && ninodes > 0
      ensures Valid() && this.sb == sb && freeblock == sb.nmeta && freeinode == 1 && |inodes| == ninodes
    {
      this.sb := sb;
      blocks := seq(sb.size, _ => ZeroBlock());
      inodes := seq(ninodes, _ => Inode(0, seq(NDIRECT + 1, _ => 0)));
      freeblock := sb.nmeta;
      freeinode := 1;
      owner := map[];
    }

    method Ialloc() returns (inum: nat)
      requires Valid() && freeinode < |inodes|
      modifies `freeinode
      ensures Valid() && inum == old(freeinode) && freeinode == inum + 1
      ensures FileBytes(sb, State(), inum) == []
    {
      inum := freeinode;
      freeinode := freeinode + 1;
    }

    // iappend taking the next block for a direct slot, or for the indirect block.
    method TakeDirect(i: nat, k: nat)
      requires Sound() && i < freeinode && k <= NDIRECT && inodes[i].addrs[k] == 0 && freeblock < sb.size
      modifies `inodes, `freeblock, `owner
      ensures Sound() && freeblock == old(freeblock) + 1
      ensures inodes == old(inodes)[i := old(inodes)[i].(addrs := old(inodes)[i].addrs[k := old(freeblock)])]
      ensures SameData(sb, old(State()), State()) && KeepsSlots(sb, old(State()), State())
      ensures forall i', k' :: 0 <= i' < |inodes| && 0 <= k' < NSLOTS && (i', k') != (i, k) ==>
                Addr(sb, State(), i', k') == old(Addr(sb, State(), i', k'))
    {
      NextUsed(sb.size, freeblock);
      assert blocks == blocks[freeblock := ZeroBlock()];
      assert Addr(sb, State(), i, k) == 0;
      AllocDirectOk(sb, State(), owner, i, k, freeblock);
      inodes := inodes[i := inodes[i].(addrs := inodes[i].addrs[k := freeblock])];
      owner := owner[freeblock := (i, k)];
      freeblock := freeblock + 1;
      KeptNoHoles(sb, old(State()), State());
    }

    method TakeEntry(i: nat, j: nat, ghost bn: nat, ghost next: nat)
      requires Sound() && i < freeinode && j < NINDIRECT && freeblock < sb.size && bn == NDIRECT + j && next == bn + 1
      requires inodes[i].addrs[NDIRECT] != 0 && Addr(sb, State(), i, next) == 0
      modifies `blocks, `freeblock, `owner
      ensures Sound() && freeblock == old(freeblock) + 1
      ensures Addr(sb, State(), i, next) == old(freeblock)
      ensures SameData(sb, old(State()), State()) && KeepsSlots(sb, old(State()), State())
      ensures Fills(sb, old(State()), State(), i, bn, next)
    {
      NextUsed(sb.size, freeblock);
      assert blocks == blocks[freeblock := ZeroBlock()];
      AllocEntryOk(sb, State(), owner, i, j, bn, next, freeblock);
      var ind := inodes[i].addrs[NDIRECT];
      assert Addr(sb, State(), i, NDIRECT) == ind && SlotOk(sb, State(), owner, i, NDIRECT);
      blocks := blocks[ind := WithEntry(blocks[ind], j, freeblock)];
      owner := owner[freeblock := (i, next)];
      freeblock := freeblock + 1;
      KeptNoHoles(sb, old(State()), State());
    }

    // The block that iappend writes for block fbn of the file, taken if missing.
    method BlockFor(i: nat, fbn: nat, ghost next: nat) returns (x: nat)
      requires Sound() && i < freeinode && fbn < MAXFILE && freeblock + 1 + B2N(inodes[i].addrs[NDIRECT] == 0) <= sb.size && next == fbn + 1
      modifies `blocks, `inodes, `freeblock, `owner
      ensures Sound()
      ensures SameData(sb, old(State()), State()) && KeepsSlots(sb, old(State()), State()) && Fills(sb, old(State()), State(), i, fbn, next)
      ensures x == Addr(sb, State(), i, Slot(fbn)) != 0
      ensures freeblock + B2N(inodes[i].addrs[NDIRECT] == 0) <= old(freeblock) + 1 + old(B2N(inodes[i].addrs[NDIRECT] == 0))
      ensures unchanged(`freeinode) && |inodes| == |old(inodes)|
    {
      if fbn < NDIRECT {
        if inodes[i].addrs[fbn] == 0 {
          TakeDirect(i, fbn);
        }
        x := inodes[i].addrs[fbn];
      } else {
        if inodes[i].addrs[NDIRECT] == 0 {
          TakeDirect(i, NDIRECT);
        }
        ghost var mid := State();
        x := EntryFor(i, fbn - NDIRECT, fbn, next);
        SameDataTrans(sb, old(State()), mid, State());
        KeepsSlotsTrans(sb, old(State()), mid, State());
        FillsTrans(sb, old(State()), mid, State(), i, fbn, fbn, next);
      }
    }

    method EntryFor(i: nat, j: nat, ghost bn: nat, ghost next: nat) returns (x: nat)
      requires Sound() && i < freeinode && j < NINDIRECT && freeblock < sb.size && inodes[i].addrs[NDIRECT] != 0 && bn == NDIRECT + j && next == bn + 1
      modifies `blocks, `freeblock, `owner
      ensures Sound() && freeblock <= old(freeblock) + 1
      ensures SameData(sb, old(State()), State()) && KeepsSlots(sb, old(State()), State()) && Fills(sb, old(State()), State(), i, bn, next)
      ensures x == Addr(sb, State(), i, next) != 0
    {
      x := Entry(blocks[inodes[i].addrs[NDIRECT]], j);
      assert x == Addr(sb, State(), i, next);
      if x == 0 {
        x := freeblock;
        TakeEntry(i, j, bn, next);
      }
    }

    // One round of iappend.
    method AppendRound(i: nat, off: nat, bn: nat, ghost next: nat, chunk: seq<Byte>)
      requires Sound() && i < freeinode && bn == off / BSIZE < MAXFILE && next == bn + 1 && off % BSIZE + |chunk| <= BSIZE
      requires off + |chunk| <= MAXFILE * BSIZE
      requires freeblock + 1 + B2N(inodes[i].addrs[NDIRECT] == 0) <= sb.size
      modifies `blocks, `inodes, `freeblock, `owner
      ensures Sound() && KeepsSlots(sb, old(State()), State()) && Fills(sb, old(State()), State(), i, bn, next)
      ensures Wrote(sb, old(State()), State(), i, off, chunk) && Addr(sb, State(), i, Slot(bn)) != 0
      ensures freeblock + B2N(inodes[i].addrs[NDIRECT] == 0) <= old(freeblock) + 1 + old(B2N(inodes[i].addrs[NDIRECT] == 0))
      ensures unchanged(`freeinode) && |inodes| == |old(inodes)|
    {
      var x := BlockFor(i, bn, next);
      ghost var mid := State();
      StoreChunk(i, off, x, chunk);
      RoundWrote(sb, old(State()), mid, State(), i, off, chunk);
    }

    method StoreChunk(i: nat, off: nat, x: nat, chunk: seq<Byte>)
      requires Sound() && i < freeinode && off / BSIZE < MAXFILE && off % BSIZE + |chunk| <= BSIZE
      requires off + |chunk| <= MAXFILE * BSIZE && x == Addr(sb, State(), i, Slot(off / BSIZE)) != 0
      modifies `blocks
      ensures Sound() && KeepsSlots(sb, old(State()), State())
      ensures Wrote(sb, old(State()), State(), i, off, chunk)
      ensures forall i', k' :: 0 <= i' < |inodes| && 0 <= k' < NSLOTS ==> Addr(sb, State(), i', k') == old(Addr(sb, State(), i', k'))
    {
      assert SlotOk(sb, State(), owner, i, Slot(off / BSIZE));
      var d := Patched(blocks[x], off % BSIZE, chunk);
      StoreOwned(sb, State(), owner, {}, i, off / BSIZE, d);
      assert State().bitmap[x];
      blocks := blocks[x := d];
      PatchWrote(sb, old(State()), State(), i, off, chunk);
      KeptNoHoles(sb, old(State()), State());
    }

    // iappend has written tot bytes in so many rounds.
    ghost predicate Appending(fs0: Fs, i: nat, off: nat, src: seq<Byte>, tot: nat, rounds: nat)
      reads this
    {
      && Sound() && i < freeinode && Progress(sb, fs0, State(), i, off, src, tot, tot) && AtRound(off, |src|, tot, rounds)
      && Fills(sb, fs0, State(), i, off / BSIZE, off / BSIZE + rounds)
    }

    // iappend's loop, before the inode is written back with its new size.
    method AppendLoop(i: nat, off: nat, src: seq<Byte>) returns (ghost rounds: nat)
      requires Valid() && i < freeinode && off == inodes[i].size && off + |src| <= MAXFILE * BSIZE
      requires freeblock + Rounds(off, |src|) + B2N(inodes[i].addrs[NDIRECT] == 0) <= sb.size
      modifies `blocks, `inodes, `freeblock, `owner
      ensures Appending(old(State()), i, off, src, |src|, rounds)
      ensures freeblock + B2N(inodes[i].addrs[NDIRECT] == 0) <= old(freeblock) + rounds + old(B2N(inodes[i].addrs[NDIRECT] == 0))
      ensures unchanged(`freeinode) && |inodes| == |old(inodes)|
    {
      var tot := 0;
      rounds := 0;
      StartProgress(sb, State(), i, off, src);
      while tot < |src|
        invariant tot <= |src| && unchanged(`freeinode) && |inodes| == |old(inodes)|
        invariant Appending(old(State()), i, off, src, tot, rounds)
        invariant freeblock + B2N(inodes[i].addrs[NDIRECT] == 0) <= old(freeblock) + rounds + old(B2N(inodes[i].addrs[NDIRECT] == 0))
      {
        ghost var rounds1 := rounds + 1;
        RoundEnds(off, |src|, tot, rounds);
        tot := AppendStep(i, off, src, tot, old(State()), rounds, rounds1);
        rounds := rounds1;
      }
    }

    method AppendStep(i: nat, off: nat, src: seq<Byte>, tot: nat, ghost fs0: Fs, ghost rounds: nat, ghost rounds1: nat) returns (tot': nat)
      requires Appending(fs0, i, off, src, tot, rounds) && off + |src| <= MAXFILE * BSIZE && tot < |src| && rounds1 == rounds + 1
      requires freeblock + 1 + B2N(inodes[i].addrs[NDIRECT] == 0) <= sb.size
      modifies `blocks, `inodes, `freeblock, `owner
      ensures tot < tot' <= |src| && Appending(fs0, i, off, src, tot', rounds1)
      ensures freeblock + B2N(inodes[i].addrs[NDIRECT] == 0) <= old(freeblock) + 1 + old(B2N(inodes[i].addrs[NDIRECT] == 0))
      ensures unchanged(`freeinode) && |inodes| == |old(inodes)|
    {
      var m := Portion(off, |src|, tot);
      PortionFits(off, |src|, tot, m);
      RoundEnds(off, |src|, tot, rounds);
      var x := off + tot;
      tot' := tot + m;
      var bn := x / BSIZE;
      AppendRound(i, x, bn, bn + 1, src[tot .. tot']);
      ProgressMore(sb, fs0, old(State()), State(), i, off, src, tot, tot', tot', x, m);
      FillsTrans(sb, fs0, old(State()), State(), i, off / BSIZE, bn, bn + 1);
    }

    // iappend: the bytes go to the end of the file and no other file changes.
    method Iappend(i: nat, src: seq<Byte>)
      requires Valid() && i < freeinode && inodes[i].size + |src| <= MAXFILE * BSIZE
      requires freeblock + Rounds(inodes[i].size, |src|) + B2N(inodes[i].addrs[NDIRECT] == 0) <= sb.size
      modifies `blocks, `inodes, `freeblock, `owner
      ensures Valid() && unchanged(`freeinode) && |inodes| == |old(inodes)|
      ensures FileBytes(sb, State(), i) == FileBytes(sb, old(State()), i) + src
      ensures forall i' :: 0 <= i' < |inodes| && i' != i ==> FileBytes(sb, State(), i') == FileBytes(sb, old(State()), i')
      ensures freeblock + B2N(inodes[i].addrs[NDIRECT] == 0)
           <= old(freeblock) + Rounds(old(inodes)[i].size, |src|) + old(B2N(inodes[i].addrs[NDIRECT] == 0))
    {
      var off := inodes[i].size;
      ghost var rounds := AppendLoop(i, off, src);
      SetSize(i, off, src, rounds, old(State()));
    }

    method SetSize(i: nat, off: nat, src: seq<Byte>, ghost rounds: nat, ghost fs0: Fs)
      requires Appending(fs0, i, off, src, |src|, rounds) && NoHoles(sb, fs0) && NoneBeyond(sb, fs0)
      requires off == fs0.inodes[i].size && off + |src| <= MAXFILE * BSIZE
      modifies `inodes
      ensures Valid() && |inodes| == |old(inodes)| && inodes[i].addrs == old(inodes)[i].addrs
      ensures FileBytes(sb, State(), i) == FileBytes(sb, fs0, i) + src
      ensures forall i' :: 0 <= i' < |inodes| && i' != i ==> FileBytes(sb, State(), i') == FileBytes(sb, fs0, i')
    {
      var size := off + |src|;
      Appended(sb, fs0, State(), owner, i, off, src, size);
      NoneBeyondAppended(sb, fs0, State(), owner, i, off, |src|, rounds, size);
      inodes := inodes[i := inodes[i].(size := size)];
    }

    /** The end of main: the root directory's size is rounded up past its entries.  Every
        block stays in its place; but the file system is without holes exactly when the
        entries did not fill their last block. */
    method RoundRoot(root: nat)
      requires Valid() && root < freeinode
      modifies `inodes
      ensures Owned(sb, State(), owner, {}) && inodes == old(inodes)[root := old(inodes)[root].(size := RoundedRoot(old(inodes)[root].size))]
      ensures NoHoles(sb, State()) <==> old(inodes)[root].size % BSIZE != 0
    {
      RootRounding(sb, State(), owner, root);
      var size := inodes[root].size;
      size := (size / BSIZE + 1) * BSIZE;
      inodes := inodes[root := inodes[root].(size := size)];
    }

    // balloc: the bitmap block that mkfs writes last.
    method Bitmap() returns (bits: seq<bool>)
      requires Owned(sb, State(), owner, {}) && freeblock <= sb.size
      ensures bits == State().bitmap && Owned(sb, Fs(bits, blocks, inodes), owner, {})
    {
      bits := seq(sb.size, _ => false);
      var b := 0;
      while b < freeblock
        invariant b <= freeblock
        invariant bits == FirstUsed(sb.size, b)
      {
        bits := bits[b := true];
        b := b + 1;
      }
    }

    /** The end of main, in its order: whatever the root directory's size is, the bitmap on
        the disk fits the files on it; there is a hole exactly when the root's entries filled
        their last block. */
    method Finish(root: nat) returns (bits: seq<bool>)
      requires Valid() && root < freeinode
      modifies `inodes
      ensures Owned(sb, Fs(bits, blocks, inodes), owner, {})
      ensures NoHoles(sb, Fs(bits, blocks, inodes)) <==> old(inodes)[root].size % BSIZE != 0
    {
      RoundRoot(root);
      bits := Bitmap();
    }
  }

  // The size that mkfs gives the root directory at the end.
  function RoundedRoot(size: nat): nat {
    (size / BSIZE + 1) * BSIZE
  }

  lemma RootRounding(sb: Super, fs: Fs, owner: map<nat, (nat, nat)>, root: nat)
    requires Owned(sb, fs, owner, {}) && NoHoles(sb, fs) && NoneBeyond(sb, fs) && root < |fs.inodes|
    ensures var fs' := fs.(inodes := fs.inodes[root := fs.inodes[root].(size := RoundedRoot(fs.inodes[root].size))]);
            && Owned(sb, fs', owner, {})
            && (NoHoles(sb, fs') <==> fs.inodes[root].size % BSIZE != 0)
  {
    var size := fs.inodes[root].size;
    var fs' := fs.(inodes := fs.inodes[root := fs.inodes[root].(size := RoundedRoot(size))]);
    ResizeOwned(sb, fs, owner, root, RoundedRoot(size));
    var last := size / BSIZE;
    if size % BSIZE == 0 {
      assert last * BSIZE == size;
      if last < MAXFILE {
        assert Addr(sb, fs', root, Slot(last)) == Addr(sb, fs, root, Slot(last)) == 0;
        assert !NoHolesIn(sb, fs', root);
      } else {
        assert fs'.inodes[root].size > MAXFILE * BSIZE;
      }
    } else {
      assert RoundedRoot(size) <= MAXFILE * BSIZE;
      forall i | 0 <= i < |fs.inodes| ensures NoHolesIn(sb, fs', i) {
        assert NoHolesIn(sb, fs, i);
        forall bn | 0 <= bn < MAXFILE && bn * BSIZE < fs'.inodes[i].size ensures Addr(sb, fs', i, Slot(bn)) != 0 {
          assert i == root ==> bn <= last && bn * BSIZE < size;
          assert Addr(sb, fs', i, Slot(bn)) == Addr(sb, fs, i, Slot(bn));
        }
      }
    }
  }

  /** iappend never compares its block numbers with the size of the disk: the image file
      grows.  What was built is a file system on the first `size` blocks exactly when it
      takes no more than those. */
  lemma OnDiskIff(sb: Super, fs: Fs, owner: map<nat, (nat, nat)>, freeblock: nat, size: nat)
    requires Owned(sb, fs, owner, {}) && fs.bitmap == FirstUsed(sb.size, freeblock) && sb.nmeta <= freeblock <= sb.size
    requires sb.nmeta <= size <= sb.size
    ensures freeblock <= size <==> exists owner' :: Owned(sb.(size := size), Cut(fs, freeblock, size), owner', {})
  {
    if freeblock <= size {
      CutOwned(sb, fs, owner, freeblock, size);
    }
    forall owner' | Owned(sb.(size := size), Cut(fs, freeblock, size), owner', {}) ensures freeblock <= size {
      CutHolds(sb, fs, owner, freeblock, size, owner');
    }
  }

  // The last block taken is in the cut, unless it is one of the metadata's.
  lemma CutHolds(sb: Super, fs: Fs, owner: map<nat, (nat, nat)>, freeblock: nat, size: nat, owner': map<nat, (nat, nat)>)
    requires Owned(sb, fs, owner, {}) && fs.bitmap == FirstUsed(sb.size, freeblock) && sb.nmeta <= freeblock <= sb.size
    requires sb.nmeta <= size <= sb.size && Owned(sb.(size := size), Cut(fs, freeblock, size), owner', {})
    ensures freeblock <= size
  {
    if freeblock > sb.nmeta {
      var b := freeblock - 1;
      assert fs.bitmap[b];
      assert OwnerOk(sb, fs, owner, {}, b);
      var i, k := owner[b].0, owner[b].1;
      assert Addr(sb.(size := size), Cut(fs, freeblock, size), i, k) == Addr(sb, fs, i, k);
      assert SlotOk(sb.(size := size), Cut(fs, freeblock, size), owner', i, k);
    }
  }

  // The first `size` blocks of an image.
  function Cut(fs: Fs, freeblock: nat, size: nat): Fs
    requires size <= |fs.blocks|
  {
    Fs(FirstUsed(size, freeblock), fs.blocks[..size], fs.inodes)
  }

  lemma CutOwned(sb: Super, fs: Fs, owner: map<nat, (nat, nat)>, freeblock: nat, size: nat)
    requires Owned(sb, fs, owner, {}) && fs.bitmap == FirstUsed(sb.size, freeblock) && sb.nmeta <= freeblock <= size <= sb.size
    ensures Owned(sb.(size := size), Cut(fs, freeblock, size), owner, {})
  {
    var sb', fs' := sb.(size := size), Cut(fs, freeblock, size);
    forall a | a in owner ensures a < freeblock {
      assert OwnerOk(sb, fs, owner, {}, a);
      assert SlotOk(sb, fs, owner, owner[a].0, owner[a].1);
      assert fs.bitmap[a];
    }
    forall i | 0 <= i < |fs.inodes| ensures fs.inodes[i].addrs[NDIRECT] < size {
      assert SlotOk(sb, fs, owner, i, NDIRECT);
    }
    forall i, k | 0 <= i < |fs.inodes| && 0 <= k < NSLOTS ensures SlotOk(sb', fs', owner, i, k) {
      assert SlotOk(sb, fs, owner, i, k);
    }
    forall a | a in owner ensures OwnerOk(sb', fs', owner, {}, a) {
      assert OwnerOk(sb, fs, owner, {}, a);
    }
  }

  // The number of directory entries of 16 bytes that fill a block.
  const DIRENTS := BSIZE / 16

  /** mkfs with 64 names in the root directory, however large the disk: rounding leaves a
      directory whose last block does not exist. */
  method HoleInRoot(sb: Super, ninodes: nat, entry: seq<Byte>) returns (image: Image, root: nat)
    requires sb.Valid() && sb.nmeta + DIRENTS + 1 <= sb.size && ninodes > 1 && |entry| == 16
    ensures root < |image.inodes| && image.inodes[root].size == 2 * BSIZE
    ensures Owned(image.sb, image.State(), image.owner, {}) && !NoHoles(image.sb, image.State())
  {
    image := new Image(sb, ninodes);
    root := image.Ialloc();
    var k := 0;
    while k < DIRENTS
      invariant image.Valid() && fresh(image) && image.sb == sb && root < image.freeinode
      invariant k <= DIRENTS && image.inodes[root].size == 16 * k
      invariant image.freeblock + B2N(image.inodes[root].addrs[NDIRECT] == 0) <= sb.nmeta + k + 1
    {
      EntryFits(k);
      ghost var before := FileBytes(sb, image.State(), root);
      image.Iappend(root, entry);
      assert |FileBytes(sb, image.State(), root)| == |before| + 16;
      k := k + 1;
    }
    image.RoundRoot(root);
  }

  lemma EntryFits(k: nat)
    requires k < DIRENTS
    ensures Rounds(16 * k, 16) == 1
  {
  }

  // Only the blocks up to the new size have been taken.
  lemma NoneBeyondAppended(sb: Super, fs0: Fs, fs1: Fs, owner: map<nat, (nat, nat)>, i: nat, off: nat, n: nat, rounds: nat, size: nat)
    requires Owned(sb, fs1, owner, {}) && Shaped(sb, fs0) && NoneBeyond(sb, fs0) && i < |fs0.inodes| && KeepsSlots(sb, fs0, fs1)
    requires Fills(sb, fs0, fs1, i, off / BSIZE, off / BSIZE + rounds) && AtRound(off, n, n, rounds)
    requires off == fs0.inodes[i].size && size == off + n
    ensures var fs2 := fs1.(inodes := fs1.inodes[i := fs1.inodes[i].(size := size)]);
            Shaped(sb, fs2) && NoneBeyond(sb, fs2)
  {
    var fs2 := fs1.(inodes := fs1.inodes[i := fs1.inodes[i].(size := size)]);
    ResizeOwned(sb, fs1, owner, i, size);
    forall i', bn | 0 <= i' < |fs2.inodes| && 0 <= bn < MAXFILE && bn * BSIZE >= fs2.inodes[i'].size ensures Addr(sb, fs2, i', Slot(bn)) == 0 {
      assert Addr(sb, fs2, i', Slot(bn)) == Addr(sb, fs1, i', Slot(bn)) && Addr(sb, fs0, i', Slot(bn)) == 0;
      if i' == i {
        BeyondRounds(off, n, rounds, bn);
        assert SlotBlock(Slot(bn)) == bn;
      }
    }
  }

  lemma BeyondRounds(off: nat, n: nat, rounds: nat, bn: nat)
    requires AtRound(off, n, n, rounds) && bn * BSIZE >= off + n
    ensures bn >= off / BSIZE + rounds
  {
  }

  // Once the bytes are in place, the new size makes them the end of the file.
  lemma Appended(sb: Super, fs0: Fs, fs1: Fs, owner: map<nat, (nat, nat)>, i: nat, off: nat, src: seq<Byte>, size: nat)
    requires Owned(sb, fs1, owner, {}) && NoHoles(sb, fs0) && i < |fs0.inodes| && Progress(sb, fs0, fs1, i, off, src, |src|, |src|)
    requires off == fs0.inodes[i].size && size == off + |src| <= MAXFILE * BSIZE
    ensures i < |fs1.inodes|
    ensures var fs2 := fs1.(inodes := fs1.inodes[i := fs1.inodes[i].(size := size)]);
            && Owned(sb, fs2, owner, {}) && NoHoles(sb, fs2) && FileBytes(sb, fs2, i) == FileBytes(sb, fs0, i) + src
            && forall i' :: 0 <= i' < |fs0.inodes| && i' != i ==> FileBytes(sb, fs2, i') == FileBytes(sb, fs0, i')
  {
    var fs2 := fs1.(inodes := fs1.inodes[i := fs1.inodes[i].(size := size)]);
    ResizeOwned(sb, fs1, owner, i, size);
    ExtendNoHoles(sb, fs0, fs1, i, off, |src|, size);
    assert src[..|src|] == src;
    ResizedWrote(sb, fs0, fs1, fs2, i, off, src);
    WroteSplices(sb, fs0, fs2, i, off, src, |src|);
    assert Splice(FileBytes(sb, fs0, i), off, src)[..size] == FileBytes(sb, fs0, i) + src;
  }

  lemma KeptNoHoles(sb: Super, fs: Fs, fs': Fs)
    requires NoHoles(sb, fs) && KeepsSlots(sb, fs, fs')
    ensures NoHoles(sb, fs')
  {
    forall i | 0 <= i < |fs'.inodes| ensures NoHolesIn(sb, fs', i) {
      assert NoHolesIn(sb, fs, i);
      forall bn | 0 <= bn < MAXFILE && bn * BSIZE < fs'.inodes[i].size ensures Addr(sb, fs', i, Slot(bn)) != 0 {
        assert Addr(sb, fs, i, Slot(bn)) != 0;
      }
    }
  }
}
