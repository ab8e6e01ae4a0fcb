/** On-disk inodes and their block maps: twelve direct addresses, one indirect block
    of 256 addresses, and the free bitmap.  Every block that an inode can name is a
    slot (inode, k): k < 12 direct, k == 12 the indirect block, 13 + j its entry j. */
module BlockMap {
  import opened Basics

  const BSIZE := 1024
  const NDIRECT := 12
  const NINDIRECT := 256
  const MAXFILE := NDIRECT + NINDIRECT
  const NSLOTS := MAXFILE + 1
  const BPB := 8192
  const IPB := 16

  type Block = b: seq<Byte> | |b| == BSIZE witness seq(BSIZE, _ => 0)

  function ZeroBlock(): (r: Block)
    ensures forall x :: 0 <= x < BSIZE ==> r[x] == 0
  {
    seq(BSIZE, _ => 0)
  }

  datatype Inode = Inode(size: nat, addrs: seq<nat>)

  datatype Super = Super(size: nat, nmeta: nat, inodestart: nat, bmapstart: nat) {
    // The metadata blocks come first and hold the inode and bitmap blocks.
    predicate Valid() {
      0 < nmeta <= size <= 0x1_0000_0000
    }
    function IBlock(i: nat): nat {
      i / IPB + inodestart
    }
    function BBlock(b: nat): nat {
      b / BPB + bmapstart
    }
  }

  datatype Fs = Fs(bitmap: seq<bool>, blocks: seq<Block>, inodes: seq<Inode>)

  // ---- Addresses inside an indirect block -------------------------------------

  // The unsigned integer in bytes lo..hi of b, least significant first.
  function Load(b: seq<Byte>, lo: nat, hi: nat): nat
    requires lo <= hi <= |b|
    decreases hi - lo
  {
    if lo == hi then 0 else b[lo] as int + 256 * Load(b, lo + 1, hi)
  }

  function Save(b: seq<Byte>, lo: nat, hi: nat, a: nat): (r: seq<Byte>)
    requires lo <= hi <= |b|
    ensures |r| == |b|
    ensures forall x :: 0 <= x < |b| && !(lo <= x < hi) ==> r[x] == b[x]
    decreases hi - lo
  {
    if lo == hi then b else Save(b[lo := a % 256], lo + 1, hi, a / 256)
  }

  function Pow256(n: nat): nat {
    if n == 0 then 1 else 256 * Pow256(n - 1)
  }

  lemma {:induction false} LoadSame(b: seq<Byte>, c: seq<Byte>, lo: nat, hi: nat)
    requires lo <= hi <= |b| == |c|
    requires forall x :: lo <= x < hi ==> b[x] == c[x]
    ensures Load(b, lo, hi) == Load(c, lo, hi)
    decreases hi - lo
  {
    if lo < hi {
      LoadSame(b, c, lo + 1, hi);
    }
  }

  lemma {:induction false} LoadSaved(b: seq<Byte>, lo: nat, hi: nat, a: nat)
    requires lo <= hi <= |b| && a < Pow256(hi - lo)
    ensures Load(Save(b, lo, hi, a), lo, hi) == a
    decreases hi - lo
  {
    if lo < hi {
      LoadSaved(b[lo := a % 256], lo + 1, hi, a / 256);
    }
  }

  lemma {:induction false} LoadZero(b: seq<Byte>, lo: nat, hi: nat)
    requires lo <= hi <= |b| && forall x :: lo <= x < hi ==> b[x] == 0
    ensures Load(b, lo, hi) == 0
    decreases hi - lo
  {
    if lo < hi {
      LoadZero(b, lo + 1, hi);
    }
  }

  function Entry(b: Block, j: nat): (a: nat)
    requires j < NINDIRECT
  {
    Load(b, 4 * j, 4 * j + 4)
  }

  function WithEntry(b: Block, j: nat, a: nat): (r: Block)
    requires j < NINDIRECT
  {
    Save(b, 4 * j, 4 * j + 4, a)
  }

  lemma EntryOfWithEntry(b: Block, j: nat, a: nat, k: nat)
    requires j < NINDIRECT && k < NINDIRECT && a < 0x1_0000_0000
    ensures Entry(WithEntry(b, j, a), k) == if k == j then a else Entry(b, k)
  {
    if k == j {
      assert Pow256(4) == 256 * Pow256(3) == 0x1_0000 * Pow256(2) == 0x100_0000 * Pow256(1);
      LoadSaved(b, 4 * j, 4 * j + 4, a);
    } else {
      LoadSame(WithEntry(b, j, a), b, 4 * k, 4 * k + 4);
    }
  }

  lemma ZeroEntries(j: nat)
    requires j < NINDIRECT
    ensures Entry(ZeroBlock(), j) == 0
  {
    LoadZero(ZeroBlock(), 4 * j, 4 * j + 4);
  }

  // ---- Slots --------------------------------------------------------------------

  ghost predicate Shaped(sb: Super, fs: Fs) {
    && sb.Valid()
    && |fs.bitmap| == |fs.blocks| == sb.size
    && forall i :: 0 <= i < |fs.inodes| ==> |fs.inodes[i].addrs| == NDIRECT + 1 && fs.inodes[i].addrs[NDIRECT] < sb.size
  }

  function Addr(sb: Super, fs: Fs, i: nat, k: nat): (a: nat)
    requires Shaped(sb, fs) && i < |fs.inodes| && k < NSLOTS
  {
    var addrs := fs.inodes[i].addrs;
    if k <= NDIRECT then addrs[k]
    else if addrs[NDIRECT] == 0 then 0
    else Entry(fs.blocks[addrs[NDIRECT]], k - NDIRECT - 1)
  }

  // The slot of block bn of a file.
  function Slot(bn: nat): nat {
    if bn < NDIRECT then bn else bn + 1
  }

  // Block bn of file i; a block that does not exist reads as zeroes.
  function DataBlock(sb: Super, fs: Fs, i: nat, bn: nat): Block
    requires Shaped(sb, fs) && i < |fs.inodes| && bn < MAXFILE
  {
    var a := Addr(sb, fs, i, Slot(bn));
    if a == 0 || a >= sb.size then ZeroBlock() else fs.blocks[a]
  }

  /** Block ownership.  `owner` says which slot holds a block; `loose` are blocks that
      balloc has handed out and nobody has recorded yet.  A bit is set exactly for
      metadata, owned and loose blocks, and every slot's block is owned by that slot
      alone. */
  ghost predicate Owned(sb: Super, fs: Fs, owner: map<nat, (nat, nat)>, loose: set<nat>) {
    && Shaped(sb, fs)
    && (forall i, k {:trigger SlotOk(sb, fs, owner, i, k)} :: 0 <= i < |fs.inodes| && 0 <= k < NSLOTS ==> SlotOk(sb, fs, owner, i, k))
    && (forall a {:trigger OwnerOk(sb, fs, owner, loose, a)} :: a in owner ==> OwnerOk(sb, fs, owner, loose, a))
    && (forall a :: a in loose ==> sb.nmeta <= a < sb.size)
    && (forall b :: 0 <= b < sb.size ==> (fs.bitmap[b] <==> b < sb.nmeta || b in owner || b in loose))
  }

  // What a slot holds is a data block that belongs to it.
  ghost predicate SlotOk(sb: Super, fs: Fs, owner: map<nat, (nat, nat)>, i: nat, k: nat)
    requires Shaped(sb, fs) && i < |fs.inodes| && k < NSLOTS
  {
    var a := Addr(sb, fs, i, k);
    a != 0 ==> sb.nmeta <= a < sb.size && a in owner && owner[a] == (i, k)
  }

  // A block is held by the slot that it belongs to.
  ghost predicate OwnerOk(sb: Super, fs: Fs, owner: map<nat, (nat, nat)>, loose: set<nat>, a: nat)
    requires Shaped(sb, fs) && a in owner
  {
    && a != 0 && a !in loose
    && owner[a].0 < |fs.inodes| && owner[a].1 < NSLOTS && Addr(sb, fs, owner[a].0, owner[a].1) == a
  }

  ghost predicate Holds(sb: Super, fs: Fs, i: nat, k: nat, b: nat)
    requires Shaped(sb, fs)
  {
    i < |fs.inodes| && k < NSLOTS && b != 0 && Addr(sb, fs, i, k) == b
  }

  /** With no block in transit, a bit is set exactly for metadata and for blocks that some
      slot of some inode holds, and no block is held by two slots. */
  lemma HeldOnce(sb: Super, fs: Fs, owner: map<nat, (nat, nat)>, b: nat)
    requires Owned(sb, fs, owner, {}) && b < sb.size
    ensures fs.bitmap[b] <==> b < sb.nmeta || exists i, k :: Holds(sb, fs, i, k, b)
    ensures forall i, k, i', k' :: Holds(sb, fs, i, k, b) && Holds(sb, fs, i', k', b) ==> i == i' && k == k' && b >= sb.nmeta
  {
    if b in owner {
      assert OwnerOk(sb, fs, owner, {}, b);
      assert Holds(sb, fs, owner[b].0, owner[b].1, b);
    }
    forall i: nat, k: nat | Holds(sb, fs, i, k, b) ensures b in owner && owner[b] == (i, k) && b >= sb.nmeta {
      assert SlotOk(sb, fs, owner, i, k);
    }
  }

  // The files' contents are the same in both.
  ghost predicate SameData(sb: Super, fs: Fs, fs': Fs) {
    && Shaped(sb, fs) && Shaped(sb, fs') && |fs.inodes| == |fs'.inodes|
    && forall i, bn :: 0 <= i < |fs.inodes| && 0 <= bn < MAXFILE ==> DataBlock(sb, fs', i, bn) == DataBlock(sb, fs, i, bn)
  }

  // ---- Taking a block and recording it -------------------------------------------

  // balloc of block b: set the bit, zero the block.
  function Take(fs: Fs, b: nat): Fs
    requires b < |fs.bitmap| && b < |fs.blocks|
  {
    fs.(bitmap := fs.bitmap[b := true], blocks := fs.blocks[b := ZeroBlock()])
  }

  lemma TakeKeepsAddrs(sb: Super, fs: Fs, owner: map<nat, (nat, nat)>, loose: set<nat>, b: nat)
    requires Owned(sb, fs, owner, loose) && b < sb.size && !fs.bitmap[b]
    ensures Shaped(sb, Take(fs, b))
    ensures forall i, k :: 0 <= i < |fs.inodes| && 0 <= k < NSLOTS ==> Addr(sb, Take(fs, b), i, k) == Addr(sb, fs, i, k)
  {
    forall i, k | 0 <= i < |fs.inodes| && 0 <= k < NSLOTS ensures Addr(sb, Take(fs, b), i, k) == Addr(sb, fs, i, k) {
      assert Addr(sb, fs, i, NDIRECT) == fs.inodes[i].addrs[NDIRECT];
      assert SlotOk(sb, fs, owner, i, NDIRECT);
    }
  }

  lemma TakeOwned(sb: Super, fs: Fs, owner: map<nat, (nat, nat)>, loose: set<nat>, b: nat)
    requires Owned(sb, fs, owner, loose) && b < sb.size && !fs.bitmap[b]
    ensures Owned(sb, Take(fs, b), owner, loose + {b})
    ensures SameData(sb, fs, Take(fs, b))
  {
    TakeKeepsAddrs(sb, fs, owner, loose, b);
    var fs' := Take(fs, b);
    forall i, bn | 0 <= i < |fs.inodes| && 0 <= bn < MAXFILE ensures DataBlock(sb, fs', i, bn) == DataBlock(sb, fs, i, bn) {
      assert Addr(sb, fs', i, Slot(bn)) == Addr(sb, fs, i, Slot(bn)) && SlotOk(sb, fs, owner, i, Slot(bn));
    }
    var owner', loose' := owner, loose + {b};
    forall i', k' | 0 <= i' < |fs'.inodes| && 0 <= k' < NSLOTS ensures SlotOk(sb, fs', owner', i', k') {
      assert SlotOk(sb, fs, owner, i', k');
    }
    forall c | c in owner' ensures OwnerOk(sb, fs', owner', loose', c) {
      assert c in owner ==> OwnerOk(sb, fs, owner, loose, c);
    }
  }

  // bmap recording a new direct block, or the indirect block, in the inode.
  function RecordDirect(fs: Fs, i: nat, k: nat, b: nat): Fs
    requires i < |fs.inodes| && k < |fs.inodes[i].addrs|
  {
    fs.(inodes := fs.inodes[i := fs.inodes[i].(addrs := fs.inodes[i].addrs[k := b])])
  }

  lemma RecordDirectAddrs(sb: Super, fs: Fs, i: nat, k: nat, b: nat, i': nat, k': nat)
    requires Shaped(sb, fs) && i < |fs.inodes| && k <= NDIRECT && b < sb.size
    requires Addr(sb, fs, i, k) == 0 && fs.blocks[b] == ZeroBlock()
    requires i' < |fs.inodes| && k' < NSLOTS
    ensures Shaped(sb, RecordDirect(fs, i, k, b))
    ensures Addr(sb, RecordDirect(fs, i, k, b), i', k') == if (i', k') == (i, k) then b else Addr(sb, fs, i', k')
  {
    var fs' := RecordDirect(fs, i, k, b);
    assert fs'.blocks == fs.blocks;
    if i' == i {
      assert fs'.inodes[i].addrs == fs.inodes[i].addrs[k := b];
      if k == NDIRECT < k' {
        ZeroEntries(k' - NDIRECT - 1);
      }
    } else {
      assert fs'.inodes[i'] == fs.inodes[i'];
    }
  }

  lemma RecordDirectOwned(sb: Super, fs: Fs, owner: map<nat, (nat, nat)>, loose: set<nat>, i: nat, k: nat, b: nat)
    requires Owned(sb, fs, owner, loose) && b in loose && fs.blocks[b] == ZeroBlock()
    requires i < |fs.inodes| && k <= NDIRECT && Addr(sb, fs, i, k) == 0
    ensures Owned(sb, RecordDirect(fs, i, k, b), owner[b := (i, k)], loose - {b})
    ensures SameData(sb, fs, RecordDirect(fs, i, k, b))
    ensures Addr(sb, RecordDirect(fs, i, k, b), i, k) == b
  {
    var fs' := RecordDirect(fs, i, k, b);
    forall i', k' | 0 <= i' < |fs.inodes| && 0 <= k' < NSLOTS
      ensures Shaped(sb, fs') && Addr(sb, fs', i', k') == if (i', k') == (i, k) then b else Addr(sb, fs, i', k')
    {
      RecordDirectAddrs(sb, fs, i, k, b, i', k');
    }
    RecordDirectAddrs(sb, fs, i, k, b, i, k);
    forall i', bn | 0 <= i' < |fs.inodes| && 0 <= bn < MAXFILE ensures DataBlock(sb, fs', i', bn) == DataBlock(sb, fs, i', bn) {
      RecordDirectAddrs(sb, fs, i, k, b, i', Slot(bn));
    }
    var owner', loose' := owner[b := (i, k)], loose - {b};
    assert b in owner ==> OwnerOk(sb, fs, owner, loose, b);
    forall i', k' | 0 <= i' < |fs'.inodes| && 0 <= k' < NSLOTS ensures SlotOk(sb, fs', owner', i', k') {
      assert SlotOk(sb, fs, owner, i', k');
    }
    forall c | c in owner' ensures OwnerOk(sb, fs', owner', loose', c) {
      assert c in owner ==> OwnerOk(sb, fs, owner, loose, c);
    }
  }

  // bmap recording a new block in entry j of the indirect block.
  function RecordEntry(sb: Super, fs: Fs, i: nat, j: nat, b: nat): Fs
    requires Shaped(sb, fs) && i < |fs.inodes| && j < NINDIRECT && b < sb.size
  {
    var ind := fs.inodes[i].addrs[NDIRECT];
    fs.(blocks := fs.blocks[ind := WithEntry(fs.blocks[ind], j, b)])
  }

  lemma RecordEntryAddrs(sb: Super, fs: Fs, owner: map<nat, (nat, nat)>, loose: set<nat>, i: nat, j: nat, b: nat, i': nat, k': nat)
    requires Owned(sb, fs, owner, loose) && i < |fs.inodes| && j < NINDIRECT && b < sb.size
    requires Addr(sb, fs, i, NDIRECT) != 0
    requires i' < |fs.inodes| && k' < NSLOTS
    ensures Addr(sb, RecordEntry(sb, fs, i, j, b), i', k')
         == if (i', k') == (i, NDIRECT + 1 + j) then b else Addr(sb, fs, i', k')
  {
    var ind, ind' := Addr(sb, fs, i, NDIRECT), Addr(sb, fs, i', NDIRECT);
    assert SlotOk(sb, fs, owner, i, NDIRECT) && SlotOk(sb, fs, owner, i', NDIRECT);
    if k' > NDIRECT && ind' == ind {
      assert i' == i;
      EntryOfWithEntry(fs.blocks[ind], j, b, k' - NDIRECT - 1);
    }
  }

  lemma RecordEntryOwned(sb: Super, fs: Fs, owner: map<nat, (nat, nat)>, loose: set<nat>, i: nat, j: nat, b: nat)
    requires Owned(sb, fs, owner, loose) && b in loose && fs.blocks[b] == ZeroBlock()
    requires i < |fs.inodes| && j < NINDIRECT
    requires Addr(sb, fs, i, NDIRECT) != 0 && Addr(sb, fs, i, NDIRECT + 1 + j) == 0
    ensures Owned(sb, RecordEntry(sb, fs, i, j, b), owner[b := (i, NDIRECT + 1 + j)], loose - {b})
    ensures SameData(sb, fs, RecordEntry(sb, fs, i, j, b))
    ensures Addr(sb, RecordEntry(sb, fs, i, j, b), i, NDIRECT + 1 + j) == b
  {
    var fs' := RecordEntry(sb, fs, i, j, b);
    forall i', k' | 0 <= i' < |fs.inodes| && 0 <= k' < NSLOTS
      ensures Addr(sb, fs', i', k') == if (i', k') == (i, NDIRECT + 1 + j) then b else Addr(sb, fs, i', k')
    {
      RecordEntryAddrs(sb, fs, owner, loose, i, j, b, i', k');
    }
    var ind := Addr(sb, fs, i, NDIRECT);
    assert SlotOk(sb, fs, owner, i, NDIRECT) && (b in owner ==> OwnerOk(sb, fs, owner, loose, b));
    forall i', bn | 0 <= i' < |fs.inodes| && 0 <= bn < MAXFILE ensures DataBlock(sb, fs', i', bn) == DataBlock(sb, fs, i', bn) {
      assert SlotOk(sb, fs, owner, i', Slot(bn));
    }
    var owner', loose' := owner[b := (i, NDIRECT + 1 + j)], loose - {b};
    forall i', k' | 0 <= i' < |fs'.inodes| && 0 <= k' < NSLOTS ensures SlotOk(sb, fs', owner', i', k') {
      assert SlotOk(sb, fs, owner, i', k');
    }
    forall c | c in owner' ensures OwnerOk(sb, fs', owner', loose', c) {
      assert c in owner ==> OwnerOk(sb, fs, owner, loose, c);
    }
  }

  // ---- Writing a data block --------------------------------------------------------

  function Store(fs: Fs, a: nat, d: Block): Fs
    requires a < |fs.blocks|
  {
    fs.(blocks := fs.blocks[a := d])
  }

  // A data block holds no addresses.
  lemma StoreAddrs(sb: Super, fs: Fs, owner: map<nat, (nat, nat)>, loose: set<nat>, i: nat, bn: nat, d: Block)
    requires Owned(sb, fs, owner, loose) && i < |fs.inodes| && bn < MAXFILE
    requires 0 < Addr(sb, fs, i, Slot(bn)) < sb.size
    ensures Addr(sb, fs, i, Slot(bn)) in owner
    ensures var fs' := Store(fs, Addr(sb, fs, i, Slot(bn)), d);
            && Shaped(sb, fs') && owner[Addr(sb, fs, i, Slot(bn))] == (i, Slot(bn))
            && forall i', k' :: 0 <= i' < |fs.inodes| && 0 <= k' < NSLOTS ==> Addr(sb, fs', i', k') == Addr(sb, fs, i', k')
  {
    var a := Addr(sb, fs, i, Slot(bn));
    var fs' := Store(fs, a, d);
    assert SlotOk(sb, fs, owner, i, Slot(bn)) && Slot(bn) != NDIRECT;
    forall i', k' | 0 <= i' < |fs.inodes| && 0 <= k' < NSLOTS ensures Addr(sb, fs', i', k') == Addr(sb, fs, i', k') {
      assert SlotOk(sb, fs, owner, i', NDIRECT);
    }
  }

  lemma StoreOwned(sb: Super, fs: Fs, owner: map<nat, (nat, nat)>, loose: set<nat>, i: nat, bn: nat, d: Block)
    requires Owned(sb, fs, owner, loose) && i < |fs.inodes| && bn < MAXFILE
    requires 0 < Addr(sb, fs, i, Slot(bn)) < sb.size
    ensures var fs' := Store(fs, Addr(sb, fs, i, Slot(bn)), d);
            && Owned(sb, fs', owner, loose)
            && (forall i', k' :: 0 <= i' < |fs.inodes| && 0 <= k' < NSLOTS ==> Addr(sb, fs', i', k') == Addr(sb, fs, i', k'))
            && (forall i', bn' :: 0 <= i' < |fs.inodes| && 0 <= bn' < MAXFILE ==>
                  DataBlock(sb, fs', i', bn') == if (i', bn') == (i, bn) then d else DataBlock(sb, fs, i', bn'))
  {
    var a := Addr(sb, fs, i, Slot(bn));
    var fs' := Store(fs, a, d);
    StoreAddrs(sb, fs, owner, loose, i, bn, d);
    forall i', bn' | 0 <= i' < |fs.inodes| && 0 <= bn' < MAXFILE
      ensures DataBlock(sb, fs', i', bn') == if (i', bn') == (i, bn) then d else DataBlock(sb, fs, i', bn')
    {
      assert Addr(sb, fs', i', Slot(bn')) == Addr(sb, fs, i', Slot(bn')) && SlotOk(sb, fs, owner, i', Slot(bn'));
    }
    forall i', k' | 0 <= i' < |fs'.inodes| && 0 <= k' < NSLOTS ensures SlotOk(sb, fs', owner, i', k') {
      assert SlotOk(sb, fs, owner, i', k');
    }
    forall c | c in owner ensures OwnerOk(sb, fs', owner, loose, c) {
      assert c in owner ==> OwnerOk(sb, fs, owner, loose, c);
    }
  }

  // ---- Freeing -------------------------------------------------------------------------

  function Cleared(bitmap: seq<bool>, s: set<nat>): (r: seq<bool>)
    ensures |r| == |bitmap|
    ensures forall b :: 0 <= b < |r| ==> r[b] == (bitmap[b] && b !in s)
  {
    seq(|bitmap|, b requires 0 <= b < |bitmap| => bitmap[b] && b !in s)
  }

  // Files' contents with block bn of inode i gone.
  ghost predicate DataExcept(sb: Super, fs: Fs, fs': Fs, i: nat, first: nat, last: nat) {
    && Shaped(sb, fs) && Shaped(sb, fs') && |fs.inodes| == |fs'.inodes|
    && forall i', bn :: 0 <= i' < |fs.inodes| && 0 <= bn < MAXFILE ==>
         DataBlock(sb, fs', i', bn) == if i' == i && first <= bn < last then ZeroBlock() else DataBlock(sb, fs, i', bn)
  }

  // One round of itrunc's first loop on a block that exists.
  function FreeDirect(fs: Fs, i: nat, k: nat): Fs
    requires i < |fs.inodes| && k < |fs.inodes[i].addrs|
  {
    fs.(bitmap := Cleared(fs.bitmap, {fs.inodes[i].addrs[k]}),
        inodes := fs.inodes[i := fs.inodes[i].(addrs := fs.inodes[i].addrs[k := 0])])
  }

  lemma FreeDirectOwned(sb: Super, fs: Fs, owner: map<nat, (nat, nat)>, loose: set<nat>, i: nat, k: nat)
    requires Owned(sb, fs, owner, loose) && i < |fs.inodes| && k < NDIRECT && Addr(sb, fs, i, k) != 0
    ensures Owned(sb, FreeDirect(fs, i, k), owner - {Addr(sb, fs, i, k)}, loose)
    ensures DataExcept(sb, fs, FreeDirect(fs, i, k), i, k, k + 1)
  {
    var fs' := FreeDirect(fs, i, k);
    var a := Addr(sb, fs, i, k);
    forall i', k' | 0 <= i' < |fs.inodes| && 0 <= k' < NSLOTS
      ensures Shaped(sb, fs') && Addr(sb, fs', i', k') == if (i', k') == (i, k) then 0 else Addr(sb, fs, i', k')
    {
    }
    forall i', bn | 0 <= i' < |fs.inodes| && 0 <= bn < MAXFILE
      ensures DataBlock(sb, fs', i', bn) == if i' == i && k <= bn < k + 1 then ZeroBlock() else DataBlock(sb, fs, i', bn)
    {
      assert Addr(sb, fs', i', Slot(bn)) == if (i', Slot(bn)) == (i, k) then 0 else Addr(sb, fs, i', Slot(bn));
    }
    assert SlotOk(sb, fs, owner, i, k) && OwnerOk(sb, fs, owner, loose, a);
    var owner', loose' := owner - {a}, loose;
    forall i', k' | 0 <= i' < |fs'.inodes| && 0 <= k' < NSLOTS ensures SlotOk(sb, fs', owner', i', k') {
      assert SlotOk(sb, fs, owner, i', k');
    }
    forall c | c in owner' ensures OwnerOk(sb, fs', owner', loose', c) {
      assert c in owner ==> OwnerOk(sb, fs, owner, loose, c);
    }
  }

  // The blocks that the first n entries of an indirect block name.
  ghost function EntrySet(b: Block, n: nat): (r: set<nat>)
    requires n <= NINDIRECT
  {
    if n == 0 then {} else EntrySet(b, n - 1) + (if Entry(b, n - 1) == 0 then {} else {Entry(b, n - 1)})
  }

  lemma {:induction false} EntrySetMembers(b: Block, n: nat)
    requires n <= NINDIRECT
    ensures forall j :: 0 <= j < n && Entry(b, j) != 0 ==> Entry(b, j) in EntrySet(b, n)
    ensures forall a :: a in EntrySet(b, n) ==> a != 0 && exists j :: 0 <= j < n && Entry(b, j) == a
  {
    if n > 0 {
      EntrySetMembers(b, n - 1);
    }
  }

  // No entry of an indirect block repeats an earlier one or names the block itself.
  lemma EntriesDistinct(sb: Super, fs: Fs, owner: map<nat, (nat, nat)>, loose: set<nat>, i: nat, j: nat)
    requires Owned(sb, fs, owner, loose) && i < |fs.inodes| && Addr(sb, fs, i, NDIRECT) != 0 && j <= NINDIRECT
    ensures var ind := Addr(sb, fs, i, NDIRECT);
            && ind !in EntrySet(fs.blocks[ind], j)
            && (j < NINDIRECT && Entry(fs.blocks[ind], j) != 0 ==>
                  && Entry(fs.blocks[ind], j) < sb.size && fs.bitmap[Entry(fs.blocks[ind], j)]
                  && Entry(fs.blocks[ind], j) !in EntrySet(fs.blocks[ind], j))
  {
    var ind := Addr(sb, fs, i, NDIRECT);
    EntrySetMembers(fs.blocks[ind], j);
    forall j' | 0 <= j' < NINDIRECT && Entry(fs.blocks[ind], j') != 0
      ensures Entry(fs.blocks[ind], j') in owner && owner[Entry(fs.blocks[ind], j')] == (i, NDIRECT + 1 + j')
    {
      assert SlotOk(sb, fs, owner, i, NDIRECT + 1 + j');
    }
    assert SlotOk(sb, fs, owner, i, NDIRECT) && (j < NINDIRECT ==> SlotOk(sb, fs, owner, i, NDIRECT + 1 + j));
  }

  // What the second half of itrunc leaves: the indirect block and everything it
  // names are free, and the inode forgets it.
  ghost function FreeIndirect(sb: Super, fs: Fs, i: nat): Fs
    requires Shaped(sb, fs) && i < |fs.inodes|
  {
    var ind := fs.inodes[i].addrs[NDIRECT];
    fs.(bitmap := Cleared(fs.bitmap, EntrySet(fs.blocks[ind], NINDIRECT) + {ind}),
        inodes := fs.inodes[i := fs.inodes[i].(addrs := fs.inodes[i].addrs[NDIRECT := 0])])
  }

  lemma FreeIndirectAddrs(sb: Super, fs: Fs, i: nat, i': nat, k': nat)
    requires Shaped(sb, fs) && i < |fs.inodes| && i' < |fs.inodes| && k' < NSLOTS
    ensures Shaped(sb, FreeIndirect(sb, fs, i))
    ensures Addr(sb, FreeIndirect(sb, fs, i), i', k') == if i' == i && k' >= NDIRECT then 0 else Addr(sb, fs, i', k')
  {
  }

  // The set that FreeIndirect frees is what slots 12.. of the inode own.
  lemma FreedByIndirect(sb: Super, fs: Fs, owner: map<nat, (nat, nat)>, loose: set<nat>, i: nat, a: nat)
    requires Owned(sb, fs, owner, loose) && i < |fs.inodes| && Addr(sb, fs, i, NDIRECT) != 0
    ensures var ind := Addr(sb, fs, i, NDIRECT);
            a in EntrySet(fs.blocks[ind], NINDIRECT) + {ind} <==> a in owner && owner[a].0 == i && owner[a].1 >= NDIRECT
  {
    var ind := Addr(sb, fs, i, NDIRECT);
    EntrySetMembers(fs.blocks[ind], NINDIRECT);
    if a in EntrySet(fs.blocks[ind], NINDIRECT) {
      var j :| 0 <= j < NINDIRECT && Entry(fs.blocks[ind], j) == a;
      assert SlotOk(sb, fs, owner, i, NDIRECT + 1 + j);
    }
    assert SlotOk(sb, fs, owner, i, NDIRECT) && (a in owner ==> OwnerOk(sb, fs, owner, loose, a));
    if a in owner && owner[a].0 == i && owner[a].1 > NDIRECT {
      assert Entry(fs.blocks[ind], owner[a].1 - NDIRECT - 1) == a;
    }
  }

  lemma FreeIndirectOwned(sb: Super, fs: Fs, owner: map<nat, (nat, nat)>, loose: set<nat>, i: nat)
    requires Owned(sb, fs, owner, loose) && i < |fs.inodes| && Addr(sb, fs, i, NDIRECT) != 0
    ensures var ind := Addr(sb, fs, i, NDIRECT);
            Owned(sb, FreeIndirect(sb, fs, i), owner - (EntrySet(fs.blocks[ind], NINDIRECT) + {ind}), loose)
    ensures DataExcept(sb, fs, FreeIndirect(sb, fs, i), i, NDIRECT, MAXFILE)
  {
    var fs' := FreeIndirect(sb, fs, i);
    var freed := EntrySet(fs.blocks[Addr(sb, fs, i, NDIRECT)], NINDIRECT) + {Addr(sb, fs, i, NDIRECT)};
    forall i', k' | 0 <= i' < |fs.inodes| && 0 <= k' < NSLOTS
      ensures Shaped(sb, fs') && Addr(sb, fs', i', k') == if i' == i && k' >= NDIRECT then 0 else Addr(sb, fs, i', k')
    {
      FreeIndirectAddrs(sb, fs, i, i', k');
    }
    FreeIndirectAddrs(sb, fs, i, i, 0);
    forall a ensures a in freed <==> a in owner && owner[a].0 == i && owner[a].1 >= NDIRECT {
      FreedByIndirect(sb, fs, owner, loose, i, a);
    }
    forall i', bn | 0 <= i' < |fs.inodes| && 0 <= bn < MAXFILE
      ensures DataBlock(sb, fs', i', bn) == if i' == i && NDIRECT <= bn < MAXFILE then ZeroBlock() else DataBlock(sb, fs, i', bn)
    {
      FreeIndirectAddrs(sb, fs, i, i', Slot(bn));
    }
    var owner', loose' := owner - freed, loose;
    forall c | c in freed ensures c >= sb.nmeta && c !in loose {
      assert OwnerOk(sb, fs, owner, loose, c) && SlotOk(sb, fs, owner, owner[c].0, owner[c].1);
    }
    forall i', k' | 0 <= i' < |fs'.inodes| && 0 <= k' < NSLOTS ensures SlotOk(sb, fs', owner', i', k') {
      assert SlotOk(sb, fs, owner, i', k');
    }
    forall c | c in owner' ensures OwnerOk(sb, fs', owner', loose', c) {
      assert c in owner ==> OwnerOk(sb, fs, owner, loose, c);
    }
  }
}
