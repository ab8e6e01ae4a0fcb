/** The buffer cache: NBUF buffers on a doubly linked list kept in order of last
    release, recycled from its tail, above a disk that is written one block at a
    time.  Links are buffer indices; index NBUF is the list head. */
module BufferCache {
  import opened Basics
  import opened RedoLog

  const HEAD := NBUF

  datatype Buf = Buf(valid: bool, dev: nat, blockno: nat, refcnt: nat, locked: bool, data: Block)

  // ---- The list ------------------------------------------------------------

  // next and prev link the ring head, order[0], order[1], ... back to head.
  ghost predicate Linked(next: seq<nat>, prev: seq<nat>, order: seq<nat>) {
    var ring := [HEAD] + order;
    && |next| == |prev| == NBUF + 1
    && Distinct(order)
    && (forall i :: 0 <= i < |order| ==> order[i] < NBUF)
    && (forall i, j :: 0 <= i && j == i + 1 < |ring| ==> next[ring[i]] == ring[j] && prev[ring[j]] == ring[i])
    && next[ring[|ring| - 1]] == HEAD && prev[HEAD] == ring[|ring| - 1]
  }

  function FrontLinks(next: seq<nat>, prev: seq<nat>, b: nat): (r: (seq<nat>, seq<nat>))
    requires |next| == |prev| == NBUF + 1 && b < NBUF && next[HEAD] <= NBUF
  {
    (next[b := next[HEAD]][HEAD := b], prev[b := HEAD][next[HEAD] := b])
  }

  lemma PushFront(next: seq<nat>, prev: seq<nat>, order: seq<nat>, b: nat)
    requires Linked(next, prev, order) && b < NBUF && b !in order
    ensures next[HEAD] <= NBUF
    ensures Linked(FrontLinks(next, prev, b).0, FrontLinks(next, prev, b).1, [b] + order)
  {
    DistinctWith(order, b);
    var ring := [HEAD] + order;
    assert order == [] ==> next[HEAD] == HEAD;
    assert order != [] ==> next[ring[0]] == ring[1] == order[0];
    var (n', p') := FrontLinks(next, prev, b);
    var ring' := [HEAD] + ([b] + order);
    forall i | 0 <= i < |ring'| - 1 ensures n'[ring'[i]] == ring'[i + 1] && p'[ring'[i + 1]] == ring'[i] {
      if i >= 2 {
        assert ring'[i] == ring[i - 1] && ring'[i + 1] == ring[i];
        assert ring[i - 1] == order[i - 2] && ring[i] == order[i - 1];
        assert !Same(order, 0, i - 1);
      }
    }
    assert ring'[|ring'| - 1] == if order == [] then b else order[|order| - 1];
    assert ring[|ring| - 1] == if order == [] then HEAD else order[|order| - 1];
  }

  function UnlinkedLinks(next: seq<nat>, prev: seq<nat>, b: nat): (r: (seq<nat>, seq<nat>))
    requires |next| == |prev| == NBUF + 1 && b < NBUF && next[b] <= NBUF && prev[b] <= NBUF
  {
    (next[prev[b] := next[b]], prev[next[b] := prev[b]])
  }

  lemma RingNeighbours(next: seq<nat>, prev: seq<nat>, order: seq<nat>, k: nat)
    requires Linked(next, prev, order) && k < |order|
    ensures next[order[k]] == if k + 1 < |order| then order[k + 1] else HEAD
    ensures prev[order[k]] == if k == 0 then HEAD else order[k - 1]
    ensures next[HEAD] == order[0] && prev[HEAD] == order[|order| - 1]
  {
    var ring := [HEAD] + order;
    assert ring[k + 1] == order[k] && ring[k] == (if k == 0 then HEAD else order[k - 1]);
    assert k + 1 < |order| ==> ring[k + 2] == order[k + 1];
    assert next[ring[0]] == ring[1];
    assert prev[HEAD] == ring[|ring| - 1];
    if k == |order| - 1 {
      assert ring[|ring| - 1] == order[k];
    } else {
      assert next[ring[k + 1]] == ring[k + 2];
    }
  }

  lemma Without(order: seq<nat>, k: nat)
    requires Distinct(order) && k < |order| && forall i :: 0 <= i < |order| ==> order[i] < NBUF
    ensures var rest := order[..k] + order[k + 1..];
            Distinct(rest) && forall i :: 0 <= i < |rest| ==> rest[i] < NBUF
  {
    DistinctPart(order, order[..k] + order[k + 1..], i => if i < k then i else i + 1);
  }

  lemma Unlink(next: seq<nat>, prev: seq<nat>, order: seq<nat>, k: nat)
    requires Linked(next, prev, order) && k < |order|
    ensures next[order[k]] <= NBUF && prev[order[k]] <= NBUF
    ensures Linked(UnlinkedLinks(next, prev, order[k]).0, UnlinkedLinks(next, prev, order[k]).1,
                   order[..k] + order[k + 1..])
  {
    RingNeighbours(next, prev, order, k);
    Without(order, k);
    var ring' := [HEAD] + (order[..k] + order[k + 1..]);
    var (n', p') := UnlinkedLinks(next, prev, order[k]);
    forall i | 0 <= i < |ring'| - 1 ensures n'[ring'[i]] == ring'[i + 1] && p'[ring'[i + 1]] == ring'[i] {
      UnlinkAt(next, prev, order, k, i);
    }
    UnlinkLast(next, prev, order, k);
  }

  lemma UnlinkAt(next: seq<nat>, prev: seq<nat>, order: seq<nat>, k: nat, i: nat)
    requires Linked(next, prev, order) && k < |order|
    requires next[order[k]] <= NBUF && prev[order[k]] <= NBUF
    requires i < |order| - 1
    ensures var ring' := [HEAD] + (order[..k] + order[k + 1..]);
            var (n', p') := UnlinkedLinks(next, prev, order[k]);
            ring'[i] <= NBUF && ring'[i + 1] <= NBUF && n'[ring'[i]] == ring'[i + 1] && p'[ring'[i + 1]] == ring'[i]
  {
    OthersDiffer(order, k);
    if k > 0 { OthersDiffer(order, k - 1); }
    if k < |order| - 1 { OthersDiffer(order, k + 1); }
    RingNeighbours(next, prev, order, k);
    var ring := [HEAD] + order;
    var ring' := [HEAD] + (order[..k] + order[k + 1..]);
    assert ring'[i] == (if i <= k then ring[i] else ring[i + 1]);
    assert ring'[i + 1] == (if i < k then ring[i + 1] else ring[i + 2]);
    assert ring[i + 1] == order[i] && ring[i + 2] == order[i + 1] && (i > 0 ==> ring[i] == order[i - 1]);
    assert next[ring[i]] == ring[i + 1] && next[ring[i + 1]] == ring[i + 2];
    assert prev[ring[i + 1]] == ring[i] && prev[ring[i + 2]] == ring[i + 1];
  }

  lemma UnlinkLast(next: seq<nat>, prev: seq<nat>, order: seq<nat>, k: nat)
    requires Linked(next, prev, order) && k < |order|
    requires next[order[k]] <= NBUF && prev[order[k]] <= NBUF
    ensures var ring' := [HEAD] + (order[..k] + order[k + 1..]);
            var (n', p') := UnlinkedLinks(next, prev, order[k]);
            ring'[|ring'| - 1] <= NBUF && n'[ring'[|ring'| - 1]] == HEAD && p'[HEAD] == ring'[|ring'| - 1]
  {
    OthersDiffer(order, k);
    if k > 0 { OthersDiffer(order, k - 1); }
    if k < |order| - 1 { OthersDiffer(order, k + 1); }
    RingNeighbours(next, prev, order, k);
    RingNeighbours(next, prev, order, |order| - 1);
    var ring' := [HEAD] + (order[..k] + order[k + 1..]);
    var last := |order| - 1;
    assert |ring'| == |order|;
    assert ring'[last] == if last == 0 then HEAD else if k == last then order[last - 1] else order[last];
    if k < last { RingNeighbours(next, prev, order, k + 1); }
    if k > 0 { RingNeighbours(next, prev, order, k - 1); }
  }

  // The order after brelse has moved its buffer to the front.
  ghost function MovedToFront(order: seq<nat>, b: nat): (r: seq<nat>)
    requires b in order
    ensures |r| == |order| && r[0] == b
    ensures forall x :: x in r <==> x in order
  {
    var k := Find(order, b);
    assert order == order[..k] + [b] + order[k + 1..];
    [b] + (order[..k] + order[k + 1..])
  }

  lemma MoveToFrontLinks(next: seq<nat>, prev: seq<nat>, order: seq<nat>, b: nat)
    requires Linked(next, prev, order) && b in order
    ensures b < NBUF && next[b] <= NBUF && prev[b] <= NBUF
    ensures var (n1, p1) := UnlinkedLinks(next, prev, b);
            && n1[HEAD] <= NBUF
            && Linked(FrontLinks(n1, p1, b).0, FrontLinks(n1, p1, b).1, MovedToFront(order, b))
  {
    var k := Find(order, b);
    Unlink(next, prev, order, k);
    var (n1, p1) := UnlinkedLinks(next, prev, b);
    var rest := order[..k] + order[k + 1..];
    OthersDiffer(order, k);
    assert b !in rest;
    PushFront(n1, p1, rest, b);
  }

  // ---- Looking a block up ----------------------------------------------------

  predicate Holds(b: Buf, dev: nat, blockno: nat) {
    b.dev == dev && b.blockno == blockno
  }

  // Index of the buffer that holds the block, or NBUF.
  ghost function Lookup(bufs: seq<Buf>, dev: nat, blockno: nat): (i: nat)
    ensures i <= |bufs|
    ensures i < |bufs| ==> Holds(bufs[i], dev, blockno)
    ensures i == |bufs| ==> forall j :: 0 <= j < |bufs| ==> !Holds(bufs[j], dev, blockno)
  {
    if j :| 0 <= j < |bufs| && Holds(bufs[j], dev, blockno) then j else |bufs|
  }

  // At most one buffer per block of a real device.  (All buffers start as
  // block 0 of device 0, which is no real device.)
  ghost predicate Unique(bufs: seq<Buf>) {
    forall i, j {:trigger Twins(bufs, i, j)} :: 0 <= i < j < |bufs| ==> !Twins(bufs, i, j)
  }

  predicate Twins(bufs: seq<Buf>, i: nat, j: nat)
    requires i < |bufs| && j < |bufs|
  {
    bufs[i].dev != 0 && Holds(bufs[j], bufs[i].dev, bufs[i].blockno)
  }

  lemma UniqueAt(bufs: seq<Buf>, i: nat, j: nat)
    requires Unique(bufs) && i < |bufs| && j < |bufs| && Twins(bufs, i, j)
    ensures i == j
  {
    assert Twins(bufs, j, i);
  }

  // A buffer keeps its block, or gets one that no buffer holds.
  lemma UniqueKept(bufs: seq<Buf>, b: nat, nb: Buf)
    requires Unique(bufs) && b < |bufs|
    requires Holds(nb, bufs[b].dev, bufs[b].blockno) || Lookup(bufs, nb.dev, nb.blockno) == |bufs|
    ensures Unique(bufs[b := nb])
  {
    var bufs' := bufs[b := nb];
    forall i, j | 0 <= i < j < |bufs| ensures !Twins(bufs', i, j) {
      assert !Twins(bufs, i, j);
    }
  }

  lemma LookupUnique(bufs: seq<Buf>, dev: nat, blockno: nat, i: nat)
    requires Unique(bufs) && dev != 0
    requires i < |bufs| && Holds(bufs[i], dev, blockno)
    ensures Lookup(bufs, dev, blockno) == i
  {
    UniqueAt(bufs, i, Lookup(bufs, dev, blockno));
  }

  ghost predicate HasFree(bufs: seq<Buf>) {
    exists i :: 0 <= i < |bufs| && bufs[i].refcnt == 0
  }

  // Every buffer from position k of the list on is in use.
  ghost predicate InUseFrom(bufs: seq<Buf>, order: seq<nat>, k: nat) {
    forall j :: k <= j < |order| ==> order[j] < |bufs| && bufs[order[j]].refcnt > 0
  }

  lemma AllInUse(bufs: seq<Buf>, order: seq<nat>)
    requires InUseFrom(bufs, order, 0)
    requires forall i :: 0 <= i < |bufs| ==> i in order
    ensures !HasFree(bufs)
  {
    forall i | 0 <= i < |bufs| ensures bufs[i].refcnt > 0 {
      assert i in order;
    }
  }

  // A reference for the lock holder plus `others`; contents or references only
  // for a block of this disk.
  ghost predicate BufOk(b: Buf, dev: nat, blocks: nat, others: nat) {
    && b.refcnt == B2N(b.locked) + others
    && b.dev in {0, dev}
    && (b.valid || b.refcnt > 0 ==> b.dev == dev && b.blockno < blocks)
  }

  class Cache {
    const dev: nat
    var disk: Image
    // The disk image after each block write so far.
    ghost var trace: seq<Image>

    var bufs: seq<Buf>
    var next: seq<nat>
    var prev: seq<nat>
    // Buffers by time of last release, latest first.
    ghost var order: seq<nat>
    // References that are not the lock holder's: bget callers still waiting for
    // the lock, and pins.
    var waiting: seq<nat>
    ghost var pins: seq<nat>

    ghost predicate Valid()
      reads this
    {
      && dev != 0
      && |bufs| == |waiting| == |pins| == NBUF
      && Linked(next, prev, order)
      && (forall i :: 0 <= i < NBUF ==> i in order)
      && Unique(bufs)
      && (forall i :: 0 <= i < NBUF ==> BufOk(bufs[i], dev, |disk|, waiting[i] + pins[i]))
    }

    // What bread needs: the block's buffer is not held by anyone else, or some
    // buffer can be recycled for it.
    ghost predicate CanRead(blockno: nat)
      reads this
    {
      && blockno < |disk|
      && var i := Lookup(bufs, dev, blockno);
         if i < |bufs| then !bufs[i].locked else HasFree(bufs)
    }

    // binit
    constructor (dev: nat, disk: Image)
      requires dev != 0
      ensures Valid() && this.dev == dev && this.disk == disk && trace == []
      ensures forall i :: 0 <= i < NBUF ==> bufs[i].refcnt == 0 && !bufs[i].valid
    {
      this.dev := dev;
      this.disk := disk;
      trace := [];
      bufs := seq(NBUF, _ => Buf(false, 0, 0, 0, false, ZERO_BLOCK));
      waiting := seq(NBUF, _ => 0);
      pins := seq(NBUF, _ => 0);
      var n: seq<nat> := seq(NBUF + 1, _ => HEAD);
      var p: seq<nat> := seq(NBUF + 1, _ => HEAD);
      ghost var o: seq<nat> := [];
      var b := 0;
      while b < NBUF
        invariant b <= NBUF
        invariant Linked(n, p, o)
        invariant forall i :: i in o <==> 0 <= i < b
      {
        PushFront(n, p, o, b);
        n, p := FrontLinks(n, p, b).0, FrontLinks(n, p, b).1;
        o := [b] + o;
        b := b + 1;
      }
      next, prev, order := n, p, o;
    }

    // The first scan of bget: is the block cached?
    method FindCached(blockno: nat) returns (b: nat)
      requires Valid()
      ensures b == Lookup(bufs, dev, blockno)
    {
      b := next[HEAD];
      ghost var k := 0;
      if |order| > 0 { RingNeighbours(next, prev, order, 0); }
      while b != HEAD
        invariant 0 <= k <= |order|
        invariant b == if k < |order| then order[k] else HEAD
        invariant forall j :: 0 <= j < k ==> !Holds(bufs[order[j]], dev, blockno)
        decreases |order| - k
      {
        if bufs[b].dev == dev && bufs[b].blockno == blockno {
          LookupUnique(bufs, dev, blockno, b);
          return;
        }
        RingNeighbours(next, prev, order, k);
        b := next[b];
        k := k + 1;
      }
      forall i | 0 <= i < NBUF ensures !Holds(bufs[i], dev, blockno) {
        assert i in order;
      }
    }

    // The second scan of bget: the least recently released unused buffer.
    method FindUnused() returns (b: nat)
      requires Valid()
      ensures b == NBUF <==> !HasFree(bufs)
      ensures b <= NBUF
      ensures b < NBUF ==> bufs[b].refcnt == 0
      ensures b < NBUF ==> InUseFrom(bufs, order, Find(order, b) + 1)
    {
      b := prev[HEAD];
      ghost var k := |order|;
      if |order| > 0 { RingNeighbours(next, prev, order, 0); }
      while b != HEAD
        invariant 0 <= k <= |order|
        invariant b == if k > 0 then order[k - 1] else HEAD
        invariant InUseFrom(bufs, order, k)
        decreases k
      {
        if bufs[b].refcnt == 0 {
          FindUnique(order, k - 1);
          return;
        }
        RingNeighbours(next, prev, order, k - 1);
        b := prev[b];
        k := k - 1;
      }
      AllInUse(bufs, order);
    }

    method TakeReference(b: nat)
      requires Valid() && b < NBUF && bufs[b].dev == dev && bufs[b].blockno < |disk|
      modifies `bufs, `waiting
      ensures Valid()
      ensures bufs == old(bufs)[b := old(bufs)[b].(refcnt := old(bufs)[b].refcnt + 1)]
      ensures waiting == old(waiting)[b := old(waiting)[b] + 1]
    {
      UniqueKept(bufs, b, bufs[b].(refcnt := bufs[b].refcnt + 1));
      bufs := bufs[b := bufs[b].(refcnt := bufs[b].refcnt + 1)];
      waiting := waiting[b := waiting[b] + 1];
    }

    method Recycle(b: nat, blockno: nat)
      requires Valid() && b < NBUF && bufs[b].refcnt == 0
      requires blockno < |disk| && Lookup(bufs, dev, blockno) == NBUF
      modifies `bufs, `waiting
      ensures Valid()
      ensures bufs == old(bufs)[b := Buf(false, dev, blockno, 1, false, old(bufs)[b].data)]
      ensures waiting == old(waiting)[b := 1]
    {
      UniqueKept(bufs, b, bufs[b].(dev := dev, blockno := blockno, valid := false, refcnt := 1));
      bufs := bufs[b := bufs[b].(dev := dev, blockno := blockno, valid := false, refcnt := 1)];
      waiting := waiting[b := waiting[b] + 1];
    }

    /** bget up to the lock: find or recycle a buffer and take a reference on it.
        NBUF stands for the source's panic, which happens exactly when the block is
        not cached and every buffer is in use. */
    method Ref(blockno: nat) returns (b: nat)
      requires Valid() && blockno < |disk|
      modifies `bufs, `waiting
      ensures Valid()
      ensures b == NBUF <==> old(Lookup(bufs, dev, blockno)) == NBUF && !old(HasFree(bufs))
      ensures b == NBUF ==> bufs == old(bufs) && waiting == old(waiting)
      ensures b <= NBUF
      ensures b < NBUF ==> waiting == old(waiting)[b := old(waiting)[b] + 1]
      ensures b < NBUF && old(Lookup(bufs, dev, blockno)) < NBUF ==>
                && b == old(Lookup(bufs, dev, blockno))
                && bufs == old(bufs)[b := old(bufs)[b].(refcnt := old(bufs)[b].refcnt + 1)]
      ensures b < NBUF && old(Lookup(bufs, dev, blockno)) == NBUF ==>
                && old(bufs)[b].refcnt == 0
                && InUseFrom(old(bufs), order, Find(order, b) + 1)
                && bufs == old(bufs)[b := Buf(false, dev, blockno, 1, false, old(bufs)[b].data)]
    {
      b := FindCached(blockno);
      if b != HEAD {
        TakeReference(b);
        return;
      }
      b := FindUnused();
      if b != HEAD {
        Recycle(b, blockno);
      }
    }

    /** The end of bget and the rest of bread: take the lock of a referenced buffer
        and fill it from the disk if it has no contents yet. */
    method LockAndFill(b: nat)
      requires Valid() && b < NBUF && waiting[b] > 0 && !bufs[b].locked
      modifies `bufs, `waiting
      ensures Valid()
      ensures waiting == old(waiting)[b := old(waiting)[b] - 1]
      ensures bufs == old(bufs)[b := old(bufs)[b].(locked := true, valid := true,
                        data := if old(bufs)[b].valid then old(bufs)[b].data else disk[old(bufs)[b].blockno])]
    {
      waiting := waiting[b := waiting[b] - 1];
      UniqueKept(bufs, b, bufs[b].(locked := true, valid := true, data := if bufs[b].valid then bufs[b].data else disk[bufs[b].blockno]));
      bufs := bufs[b := bufs[b].(locked := true)];
      if !bufs[b].valid {
        bufs := bufs[b := bufs[b].(data := disk[bufs[b].blockno], valid := true)];
      }
      assert bufs == old(bufs)[b := old(bufs)[b].(locked := true, valid := true,
                       data := if old(bufs)[b].valid then old(bufs)[b].data else disk[old(bufs)[b].blockno])];
    }

    // The buffer bread leaves for a block.
    ghost function ReadBuf(blockno: nat): (r: Buf)
      requires Valid() && CanRead(blockno)
      reads this
    {
      var i := Lookup(bufs, dev, blockno);
      if i < NBUF then
        bufs[i].(refcnt := bufs[i].refcnt + 1, locked := true, valid := true,
                 data := if bufs[i].valid then bufs[i].data else disk[blockno])
      else Buf(true, dev, blockno, 1, true, disk[blockno])
    }

    method Bread(blockno: nat) returns (b: nat)
      requires Valid() && CanRead(blockno)
      modifies `bufs, `waiting
      ensures Valid() && waiting == old(waiting)
      ensures b < NBUF
      ensures old(Lookup(bufs, dev, blockno)) < NBUF ==> b == old(Lookup(bufs, dev, blockno))
      ensures old(Lookup(bufs, dev, blockno)) == NBUF ==> old(bufs)[b].refcnt == 0
      ensures bufs == old(bufs)[b := old(ReadBuf(blockno))]
    {
      b := Ref(blockno);
      LockAndFill(b);
      assert waiting == old(waiting);
    }

    // Whether bread would go through without waiting for a lock and without a panic.
    method Readable(blockno: nat) returns (r: bool)
      requires Valid() && blockno < |disk|
      ensures r <==> CanRead(blockno)
    {
      var b := FindCached(blockno);
      if b < NBUF {
        r := !bufs[b].locked;
      } else {
        b := FindUnused();
        r := b < NBUF;
      }
    }

    method Bwrite(b: nat)
      requires Valid() && b < NBUF && bufs[b].locked
      modifies `disk, `trace
      ensures Valid()
      ensures disk == old(disk)[bufs[b].blockno := bufs[b].data]
      ensures trace == old(trace) + [disk]
    {
      disk := disk[bufs[b].blockno := bufs[b].data];
      trace := trace + [disk];
    }

    method MoveToFront(b: nat)
      requires Linked(next, prev, order) && b in order
      modifies `next, `prev, `order
      ensures Linked(next, prev, order)
      ensures order == MovedToFront(old(order), b)
    {
      MoveToFrontLinks(next, prev, order, b);
      ghost var (n1, p1) := UnlinkedLinks(next, prev, b);
      ghost var (n2, p2) := FrontLinks(n1, p1, b);
      UnlinkSelf(b);
      assert next == n1 && prev == p1;
      next := next[b := next[HEAD]];
      prev := prev[b := HEAD];
      prev := prev[next[HEAD] := b];
      next := next[HEAD := b];
      assert next == n2 && prev == p2;
      order := MovedToFront(order, b);
    }

    method UnlinkSelf(b: nat)
      requires |next| == |prev| == NBUF + 1 && b < NBUF && next[b] <= NBUF && prev[b] <= NBUF
      modifies `next, `prev
      ensures (next, prev) == UnlinkedLinks(old(next), old(prev), b)
    {
      prev := prev[next[b] := prev[b]];
      next := next[prev[b] := next[b]];
    }

    method Brelse(b: nat)
      requires Valid() && b < NBUF && bufs[b].locked
      modifies `bufs, `next, `prev, `order
      ensures Valid()
      ensures bufs == old(bufs)[b := old(bufs)[b].(locked := false, refcnt := old(bufs)[b].refcnt - 1)]
      ensures order == if bufs[b].refcnt == 0 then MovedToFront(old(order), b) else old(order)
    {
      DropReference(b);
      if bufs[b].refcnt == 0 {
        MoveToFront(b);
      }
    }

    method DropReference(b: nat)
      requires Valid() && b < NBUF && bufs[b].locked
      modifies `bufs
      ensures Valid()
      ensures bufs == old(bufs)[b := old(bufs)[b].(locked := false, refcnt := old(bufs)[b].refcnt - 1)]
    {
      UniqueKept(bufs, b, bufs[b].(locked := false, refcnt := bufs[b].refcnt - 1));
      bufs := bufs[b := bufs[b].(locked := false)];
      bufs := bufs[b := bufs[b].(refcnt := bufs[b].refcnt - 1)];
      assert bufs == old(bufs)[b := old(bufs)[b].(locked := false, refcnt := old(bufs)[b].refcnt - 1)];
    }

    method Bpin(b: nat)
      requires Valid() && b < NBUF && bufs[b].refcnt > 0
      modifies `bufs, `pins
      ensures Valid()
      ensures bufs == old(bufs)[b := old(bufs)[b].(refcnt := old(bufs)[b].refcnt + 1)]
      ensures pins == old(pins)[b := old(pins)[b] + 1]
    {
      UniqueKept(bufs, b, bufs[b].(refcnt := bufs[b].refcnt + 1));
      bufs := bufs[b := bufs[b].(refcnt := bufs[b].refcnt + 1)];
      pins := pins[b := pins[b] + 1];
    }

    method Bunpin(b: nat)
      requires Valid() && b < NBUF && pins[b] > 0
      modifies `bufs, `pins
      ensures Valid()
      ensures bufs == old(bufs)[b := old(bufs)[b].(refcnt := old(bufs)[b].refcnt - 1)]
      ensures pins == old(pins)[b := old(pins)[b] - 1]
    {
      UniqueKept(bufs, b, bufs[b].(refcnt := bufs[b].refcnt - 1));
      bufs := bufs[b := bufs[b].(refcnt := bufs[b].refcnt - 1)];
      pins := pins[b := pins[b] - 1];
    }
  }
}
