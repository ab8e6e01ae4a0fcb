/** malloc and free of umalloc.c: Kernighan and Ritchie's allocator over header-sized
    units (section 8.7 of The C Programming Language, 2nd edition).

    A unit is named by its address, counted in units; `base` is unit 0.  Units from
    `start` on come from sbrk. */
module Heap {

  const HEADER := 16
  const BASE := 0

  datatype Header = Header(ptr: nat, size: nat)

  // ---- The invariant ------------------------------------------------------------------------

  /** ptr leads to the next free block in address order, or from the last back to base. */
  ghost predicate Succ(mem: seq<Header>, free: set<nat>, p: nat)
    requires p < |mem|
  {
    var q := mem[p].ptr;
    q in free && if q > p then forall x :: x in free ==> x <= p || q <= x else q == BASE && forall x :: x in free ==> x <= p
  }

  ghost predicate Block(free: set<nat>, live: map<nat, nat>, b: nat) {
    (b in free && b != BASE) || b in live
  }

  // A block of the heap: its header gives a size that keeps it inside.
  ghost predicate Sized(start: nat, mem: seq<Header>, b: nat) {
    start <= b < |mem| && 1 <= mem[b].size && b + mem[b].size <= |mem|
  }

  // A free block is linked to the next and does not touch it.
  ghost predicate FreeOk(start: nat, mem: seq<Header>, free: set<nat>, p: nat) {
    && p < |mem| && Succ(mem, free, p)
    && (if p == BASE then mem[p].size == 0 else Sized(start, mem, p) && p + mem[p].size !in free)
  }

  ghost predicate LiveOk(start: nat, mem: seq<Header>, free: set<nat>, live: map<nat, nat>, b: nat) {
    b in live && b !in free && Sized(start, mem, b) && mem[b].size == live[b]
  }

  ghost predicate Inside(mem: seq<Header>, b: nat, u: nat) {
    b < |mem| && b <= u < b + mem[b].size
  }

  ghost predicate OwnerOk(mem: seq<Header>, free: set<nat>, live: map<nat, nat>, owner: seq<nat>, u: nat) {
    u < |owner| && Block(free, live, owner[u]) && Inside(mem, owner[u], u)
  }

  ghost predicate OwnsAll(mem: seq<Header>, owner: seq<nat>, b: nat) {
    forall u :: 0 <= u < |owner| && Inside(mem, b, u) ==> owner[u] == b
  }

  /** The free blocks form one cycle through base, ascending but for the step back to
      base, and no two of them touch.  Free and live blocks tile the heap: each unit from
      start on lies in exactly one of them. */
  ghost predicate Ok(start: nat, mem: seq<Header>, free: set<nat>, live: map<nat, nat>, owner: seq<nat>) {
    && 1 <= start <= |mem| && |owner| == |mem| && BASE in free
    && (forall p {:trigger FreeOk(start, mem, free, p)} :: p in free ==> FreeOk(start, mem, free, p))
    && (forall b {:trigger LiveOk(start, mem, free, live, b)} :: b in live ==> LiveOk(start, mem, free, live, b))
    && (forall u {:trigger OwnerOk(mem, free, live, owner, u)} :: start <= u < |mem| ==> OwnerOk(mem, free, live, owner, u))
    && (forall b {:trigger OwnsAll(mem, owner, b)} :: Block(free, live, b) ==> OwnsAll(mem, owner, b))
  }

  // Units lo..hi now belong to block b.
  function Claim(owner: seq<nat>, lo: nat, hi: nat, b: nat): (r: seq<nat>)
    ensures |r| == |owner| && forall u :: 0 <= u < |r| ==> r[u] == if lo <= u < hi then b else owner[u]
  {
    seq(|owner|, u requires 0 <= u < |owner| => if lo <= u < hi then b else owner[u])
  }

  // base, then k links on.
  function Follow(mem: seq<Header>, k: nat): nat {
    if k == 0 then BASE else
      var p := Follow(mem, k - 1);
      if p < |mem| then mem[p].ptr else p
  }

  /** One cycle: every free block is reached from base, through ever higher addresses. */
  lemma OneCycle(start: nat, mem: seq<Header>, free: set<nat>, live: map<nat, nat>, owner: seq<nat>, x: nat) returns (k: nat)
    requires Ok(start, mem, free, live, owner) && x in free
    ensures Follow(mem, k) == x && forall i :: 0 <= i < k ==> Follow(mem, i) in free && Follow(mem, i) < Follow(mem, i + 1)
  {
    var p := BASE;
    k := 0;
    while p != x
      invariant p in free && p <= x && Follow(mem, k) == p
      invariant forall i :: 0 <= i < k ==> Follow(mem, i) in free && Follow(mem, i) < Follow(mem, i + 1)
      decreases x - p
    {
      assert FreeOk(start, mem, free, p);
      p := mem[p].ptr;
      assert Follow(mem, k + 1) == p;
      k := k + 1;
    }
  }

  // The sizes in the headers of these blocks, added up.
  ghost function Total(mem: seq<Header>, bs: set<nat>): nat {
    if bs == {} then 0 else
      var b :| b in bs;
      (if b < |mem| then mem[b].size else 0) + Total(mem, bs - {b})
  }

  // How many of the units a..b belong to blocks in bs.
  function Count(owner: seq<nat>, a: nat, b: nat, bs: set<nat>): nat
    requires a <= b <= |owner|
    decreases b - a
  {
    if a == b then 0 else Count(owner, a, b - 1, bs) + if owner[b - 1] in bs then 1 else 0
  }

  /** Conservation: the sizes of the free blocks and of the live blocks together are all
      that sbrk gave. */
  lemma Conserved(start: nat, mem: seq<Header>, free: set<nat>, live: map<nat, nat>, owner: seq<nat>)
    requires Ok(start, mem, free, live, owner)
    ensures Total(mem, free - {BASE}) + Total(mem, live.Keys) == |mem| - start
  {
    forall u | start <= u < |mem| ensures owner[u] in free - {BASE} <==> owner[u] !in live {
      assert OwnerOk(mem, free, live, owner, u);
      assert owner[u] in live ==> LiveOk(start, mem, free, live, owner[u]);
    }
    CountBoth(owner, start, |mem|, free - {BASE}, live.Keys);
    CountTotal(start, mem, free, live, owner, free - {BASE});
    CountTotal(start, mem, free, live, owner, live.Keys);
  }

  // Units counted by their owner, and blocks added up by their headers.
  lemma {:induction false} CountTotal(start: nat, mem: seq<Header>, free: set<nat>, live: map<nat, nat>, owner: seq<nat>, bs: set<nat>)
    requires Ok(start, mem, free, live, owner) && forall b :: b in bs ==> Block(free, live, b)
    ensures Count(owner, start, |mem|, bs) == Total(mem, bs)
  {
    if bs == {} {
      CountNone(owner, start, |mem|, bs);
    } else {
      var b :| b in bs && Total(mem, bs) == (if b < |mem| then mem[b].size else 0) + Total(mem, bs - {b});
      BlockSized(start, mem, free, live, owner, b);
      CountOne(start, mem, free, live, owner, b, |mem|);
      CountTotal(start, mem, free, live, owner, bs - {b});
      CountSplit(owner, start, |mem|, b, bs);
    }
  }

  lemma {:induction false} CountNone(owner: seq<nat>, a: nat, b: nat, bs: set<nat>)
    requires a <= b <= |owner| && bs == {}
    ensures Count(owner, a, b, bs) == 0
    decreases b - a
  {
    if a < b {
      CountNone(owner, a, b - 1, bs);
    }
  }

  lemma {:induction false} CountSplit(owner: seq<nat>, a: nat, b: nat, x: nat, bs: set<nat>)
    requires a <= b <= |owner| && x in bs
    ensures Count(owner, a, b, bs) == Count(owner, a, b, {x}) + Count(owner, a, b, bs - {x})
    decreases b - a
  {
    if a < b {
      CountSplit(owner, a, b - 1, x, bs);
    }
  }

  // A block owns as many units as its header says.
  lemma {:induction false} CountOne(start: nat, mem: seq<Header>, free: set<nat>, live: map<nat, nat>, owner: seq<nat>, x: nat, b: nat)
    requires Ok(start, mem, free, live, owner) && Block(free, live, x) && Sized(start, mem, x) && start <= b <= |mem|
    ensures Count(owner, start, b, {x}) == if b <= x then 0 else if b <= x + mem[x].size then b - x else mem[x].size
    decreases b
  {
    if start < b {
      CountOne(start, mem, free, live, owner, x, b - 1);
      assert OwnerOk(mem, free, live, owner, b - 1) && OwnsAll(mem, owner, x);
      assert Inside(mem, x, b - 1) <==> owner[b - 1] == x;
    }
  }

  lemma {:induction false} CountBoth(owner: seq<nat>, a: nat, b: nat, xs: set<nat>, ys: set<nat>)
    requires a <= b <= |owner| && forall u :: a <= u < b ==> (owner[u] in xs <==> owner[u] !in ys)
    ensures Count(owner, a, b, xs) + Count(owner, a, b, ys) == b - a
    decreases b - a
  {
    if a < b {
      CountBoth(owner, a, b - 1, xs, ys);
    }
  }

  // The units of the blocks in `live` are theirs as before, with the same contents.
  ghost predicate LiveKept(start: nat, mem: seq<Header>, mem': seq<Header>, live: map<nat, nat>, owner: seq<nat>, owner': seq<nat>) {
    && |owner| == |mem| <= |mem'| == |owner'|
    && forall u :: start <= u < |mem'| && owner'[u] in live ==> u < |mem| && owner[u] == owner'[u] && mem'[u] == mem[u]
  }

  // A header that belongs to no block in `live` may change.
  lemma HeaderKept(start: nat, mem: seq<Header>, free: set<nat>, live: map<nat, nat>, owner: seq<nat>, b: nat)
    requires Ok(start, mem, free, live, owner) && Block(free, live, b)
    ensures b < |mem| && owner[b] == b
  {
    BlockSized(start, mem, free, live, owner, b);
    assert OwnsAll(mem, owner, b) && Inside(mem, b, b);
  }

  // ---- free ------------------------------------------------------------------------------------

  // p is the free block after which bp goes.
  ghost predicate Before(mem: seq<Header>, free: set<nat>, p: nat, bp: nat)
    requires p < |mem|
  {
    p in free && p < bp && (bp < mem[p].ptr || mem[p].ptr <= p)
  }

  // Two different blocks do not overlap.
  lemma Disjoint(start: nat, mem: seq<Header>, free: set<nat>, live: map<nat, nat>, owner: seq<nat>, a: nat, b: nat)
    requires Ok(start, mem, free, live, owner) && Block(free, live, a) && Block(free, live, b) && a < b
    ensures b < |mem| && a + mem[a].size <= b
  {
    BlockSized(start, mem, free, live, owner, a);
    BlockSized(start, mem, free, live, owner, b);
    assert OwnsAll(mem, owner, a) && OwnsAll(mem, owner, b);
    assert Inside(mem, b, b) && owner[b] == b;
    assert !Inside(mem, a, b);
  }

  lemma BlockSized(start: nat, mem: seq<Header>, free: set<nat>, live: map<nat, nat>, owner: seq<nat>, b: nat)
    requires Ok(start, mem, free, live, owner) && Block(free, live, b)
    ensures Sized(start, mem, b)
  {
    assert b in free ==> FreeOk(start, mem, free, b);
    assert b in live ==> LiveOk(start, mem, free, live, b);
  }

  lemma Neighbours(start: nat, mem: seq<Header>, free: set<nat>, live: map<nat, nat>, owner: seq<nat>, p: nat, bp: nat)
    requires Ok(start, mem, free, live, owner) && bp in live && p < |mem| && Before(mem, free, p, bp)
    ensures Sized(start, mem, bp) && bp !in free && FreeOk(start, mem, free, p) && p + mem[p].size <= bp
    ensures forall x :: x in free ==> x <= p || bp < x
    ensures var q := mem[p].ptr;
            && q in free && (q != BASE ==> q > bp && bp + mem[bp].size <= q)
            && forall x :: x in free && bp < x ==> q != BASE && q <= x
  {
    assert FreeOk(start, mem, free, p) && LiveOk(start, mem, free, live, bp);
    if p != BASE {
      Disjoint(start, mem, free, live, owner, p, bp);
    }
    var q := mem[p].ptr;
    if q != BASE {
      Disjoint(start, mem, free, live, owner, bp, q);
    }
  }

  // A live block bp and the free block after which it goes.
  ghost predicate Freeing(start: nat, mem: seq<Header>, free: set<nat>, live: map<nat, nat>, owner: seq<nat>, p: nat, bp: nat) {
    Ok(start, mem, free, live, owner) && bp in live && bp < |mem| && p < |mem| && Before(mem, free, p, bp)
  }

  // No neighbour touches: bp joins the cycle.
  lemma InsertAlone(start: nat, mem: seq<Header>, free: set<nat>, live: map<nat, nat>, owner: seq<nat>, p: nat, bp: nat)
    requires Freeing(start, mem, free, live, owner, p, bp)
    requires bp + mem[bp].size != mem[p].ptr && p + mem[p].size != bp
    ensures var mem' := mem[bp := Header(mem[p].ptr, mem[bp].size)][p := Header(bp, mem[p].size)];
            Ok(start, mem', free + {bp}, live - {bp}, owner) && LiveKept(start, mem, mem', live - {bp}, owner, owner) && owner[bp] == bp
  {
    HeaderKept(start, mem, free, live, owner, bp);
    if p != BASE {
      HeaderKept(start, mem, free, live, owner, p);
    }
    Neighbours(start, mem, free, live, owner, p, bp);
    var mem', free', live' := mem[bp := Header(mem[p].ptr, mem[bp].size)][p := Header(bp, mem[p].size)], free + {bp}, live - {bp};
    InsertFree(start, mem, free, live, owner, p, bp);
    forall b ensures Block(free', live', b) <==> Block(free, live, b) {
    }
    forall b | b in live' ensures b !in free' && b < |mem| && mem[b].size == live'[b] {
      assert LiveOk(start, mem, free, live, b);
    }
    SameBlocks(start, mem, mem', free, free', live, live', owner);
  }

  lemma InsertFree(start: nat, mem: seq<Header>, free: set<nat>, live: map<nat, nat>, owner: seq<nat>, p: nat, bp: nat)
    requires Freeing(start, mem, free, live, owner, p, bp)
    requires bp + mem[bp].size != mem[p].ptr && p + mem[p].size != bp
    ensures var mem', free' := mem[bp := Header(mem[p].ptr, mem[bp].size)][p := Header(bp, mem[p].size)], free + {bp};
            forall x :: x in free' ==> FreeOk(start, mem', free', x)
  {
    Neighbours(start, mem, free, live, owner, p, bp);
    var mem', free' := mem[bp := Header(mem[p].ptr, mem[bp].size)][p := Header(bp, mem[p].size)], free + {bp};
    forall x | x in free' ensures FreeOk(start, mem', free', x) {
      if x != bp {
        assert FreeOk(start, mem, free, x);
        if x != BASE && x < p {
          Disjoint(start, mem, free, live, owner, x, p);
        }
      }
    }
  }

  // Only the links and the free/live status of blocks changed.
  lemma SameBlocks(start: nat, mem: seq<Header>, mem': seq<Header>, free: set<nat>, free': set<nat>, live: map<nat, nat>, live': map<nat, nat>, owner: seq<nat>)
    requires Ok(start, mem, free, live, owner) && |mem'| == |mem| && BASE in free'
    requires forall p {:trigger FreeOk(start, mem', free', p)} :: p in free' ==> FreeOk(start, mem', free', p)
    requires forall b :: Block(free', live', b) <==> Block(free, live, b)
    requires forall b :: b in live' ==> b !in free' && b < |mem| && mem[b].size == live'[b]
    requires forall b :: 0 <= b < |mem| ==> mem'[b].size == mem[b].size
    ensures Ok(start, mem', free', live', owner)
  {
    forall b | b in live' ensures LiveOk(start, mem', free', live', b) {
      assert Block(free, live, b);
      BlockSized(start, mem, free, live, owner, b);
    }
    forall u | start <= u < |mem'| ensures OwnerOk(mem', free', live', owner, u) {
      assert OwnerOk(mem, free, live, owner, u);
    }
    forall b | Block(free', live', b) ensures OwnsAll(mem', owner, b) {
      assert OwnsAll(mem, owner, b);
      forall u | 0 <= u < |owner| && Inside(mem', b, u) ensures owner[u] == b {
        assert Inside(mem, b, u);
      }
    }
  }

  // Block c, which b touches, becomes part of b.
  lemma Absorbed(start: nat, mem: seq<Header>, mem': seq<Header>, free: set<nat>, free': set<nat>, live: map<nat, nat>, live': map<nat, nat>,
                 owner: seq<nat>, b: nat, c: nat)
    requires Ok(start, mem, free, live, owner) && |mem'| == |mem| && BASE in free'
    requires Block(free, live, b) && Block(free, live, c) && b < |mem| && c < |mem| && b + mem[b].size == c
    requires forall p {:trigger FreeOk(start, mem', free', p)} :: p in free' ==> FreeOk(start, mem', free', p)
    requires forall x :: Block(free', live', x) <==> Block(free, live, x) && x != c
    requires forall x :: x in live' ==> x !in free' && x < |mem| && mem'[x].size == live'[x]
    requires forall x :: 0 <= x < |mem| && x != b && x != c ==> mem'[x].size == mem[x].size
    requires mem'[b].size == mem[b].size + mem[c].size
    ensures Ok(start, mem', free', live', Claim(owner, c, c + mem[c].size, b))
  {
    var owner' := Claim(owner, c, c + mem[c].size, b);
    BlockSized(start, mem, free, live, owner, b);
    BlockSized(start, mem, free, live, owner, c);
    assert OwnsAll(mem, owner, b) && OwnsAll(mem, owner, c);
    forall x | x in live' ensures LiveOk(start, mem', free', live', x) {
      assert Block(free', live', x);
      BlockSized(start, mem, free, live, owner, x);
    }
    forall u | start <= u < |mem'| ensures OwnerOk(mem', free', live', owner', u) {
      assert OwnerOk(mem, free, live, owner, u);
      assert Block(free, live, owner'[u]);
      if c <= u < c + mem[c].size {
        assert Inside(mem', b, u);
      } else {
        assert owner[u] != c;
        assert Inside(mem', owner[u], u);
      }
    }
    forall x | Block(free', live', x) ensures OwnsAll(mem', owner', x) {
      assert OwnsAll(mem, owner, x);
      forall u | 0 <= u < |owner'| && Inside(mem', x, u) ensures owner'[u] == x {
        assert c <= u < c + mem[c].size <==> Inside(mem, c, u);
        assert Inside(mem, c, u) ==> owner[u] == c;
        assert x == b || Inside(mem, x, u);
        assert x == b && u < c ==> Inside(mem, b, u);
      }
    }
  }

  // Taking q out of the cycle keeps the rest linked.
  lemma Unlinked(start: nat, mem: seq<Header>, mem': seq<Header>, free: set<nat>, prev: nat, q: nat)
    requires forall p {:trigger FreeOk(start, mem, free, p)} :: p in free ==> FreeOk(start, mem, free, p)
    requires |mem'| == |mem| && prev in free && prev < |mem| && q == mem[prev].ptr && q in free && q < |mem| && q != BASE
    requires forall x :: x in free && x < |mem| && x != q && x != prev ==> mem'[x] == mem[x]
    requires mem'[prev] == Header(mem[q].ptr, mem[prev].size)
    ensures prev != q && forall x :: x in free - {q} ==> FreeOk(start, mem', free - {q}, x)
  {
    assert FreeOk(start, mem, free, prev) && FreeOk(start, mem, free, q);
    forall x | x in free - {q} ensures FreeOk(start, mem', free - {q}, x) {
      assert FreeOk(start, mem, free, x);
      assert Succ(mem, free, x) && Succ(mem, free, prev) && Succ(mem, free, q);
    }
  }

  // The right neighbour touches: it becomes part of bp, which is still live.
  lemma AbsorbRight(start: nat, mem: seq<Header>, free: set<nat>, live: map<nat, nat>, owner: seq<nat>, p: nat, bp: nat, q: nat)
    requires Freeing(start, mem, free, live, owner, p, bp) && q == mem[p].ptr && q < |mem| && bp + mem[bp].size == q
    ensures var n := mem[bp].size + mem[q].size;
            var mem' := mem[bp := Header(mem[q].ptr, n)][p := Header(mem[q].ptr, mem[p].size)];
            && Freeing(start, mem', free - {q}, live[bp := n], Claim(owner, q, q + mem[q].size, bp), p, bp)
            && LiveKept(start, mem, mem', live - {bp}, owner, Claim(owner, q, q + mem[q].size, bp)) && bp + n != mem'[p].ptr
  {
    Neighbours(start, mem, free, live, owner, p, bp);
    HeaderKept(start, mem, free, live, owner, bp);
    if p != BASE {
      HeaderKept(start, mem, free, live, owner, p);
    }
    assert p in live ==> LiveOk(start, mem, free, live, p);
    assert FreeOk(start, mem, free, q);
    RightJoined(start, mem, free, live, owner, p, bp, q);
  }

  lemma RightJoined(start: nat, mem: seq<Header>, free: set<nat>, live: map<nat, nat>, owner: seq<nat>, p: nat, bp: nat, q: nat)
    requires Freeing(start, mem, free, live, owner, p, bp) && q == mem[p].ptr && q < |mem| && bp + mem[bp].size == q
    ensures var n := mem[bp].size + mem[q].size;
            var mem' := mem[bp := Header(mem[q].ptr, n)][p := Header(mem[q].ptr, mem[p].size)];
            p != bp && Ok(start, mem', free - {q}, live[bp := n], Claim(owner, q, q + mem[q].size, bp))
  {
    Neighbours(start, mem, free, live, owner, p, bp);
    var n := mem[bp].size + mem[q].size;
    var mem' := mem[bp := Header(mem[q].ptr, n)][p := Header(mem[q].ptr, mem[p].size)];
    var free', live' := free - {q}, live[bp := n];
    assert FreeOk(start, mem, free, q);
    Unlinked(start, mem, mem', free, p, q);
    RightBlocks(start, mem, free, live, owner, bp, q, n);
    RightSizes(start, mem, free, live, owner, p, bp, q, n);
    Absorbed(start, mem, mem', free, free', live, live', owner, bp, q);
  }

  lemma RightSizes(start: nat, mem: seq<Header>, free: set<nat>, live: map<nat, nat>, owner: seq<nat>, p: nat, bp: nat, q: nat, n: nat)
    requires Ok(start, mem, free, live, owner) && bp in live && p in free && q in free && bp < |mem| && p < |mem| && q < |mem|
    ensures var mem', live' := mem[bp := Header(mem[q].ptr, n)][p := Header(mem[q].ptr, mem[p].size)], live[bp := n];
            forall x :: x in live' ==> x !in free - {q} && x < |mem| && mem'[x].size == live'[x]
  {
    var mem', live' := mem[bp := Header(mem[q].ptr, n)][p := Header(mem[q].ptr, mem[p].size)], live[bp := n];
    forall x | x in live' ensures x !in free - {q} && x < |mem| && mem'[x].size == live'[x] {
      assert LiveOk(start, mem, free, live, x);
    }
  }

  lemma RightBlocks(start: nat, mem: seq<Header>, free: set<nat>, live: map<nat, nat>, owner: seq<nat>, bp: nat, q: nat, n: nat)
    requires Ok(start, mem, free, live, owner) && bp in live && q in free
    ensures forall x :: Block(free - {q}, live[bp := n], x) <==> Block(free, live, x) && x != q
  {
    forall x ensures Block(free - {q}, live[bp := n], x) <==> Block(free, live, x) && x != q {
      assert x in live ==> LiveOk(start, mem, free, live, x);
    }
  }

  // The left neighbour touches: bp becomes part of it.
  lemma AbsorbLeft(start: nat, mem: seq<Header>, free: set<nat>, live: map<nat, nat>, owner: seq<nat>, p: nat, bp: nat, h: Header)
    requires Freeing(start, mem, free, live, owner, p, bp) && bp + mem[bp].size != mem[p].ptr && p + mem[p].size == bp
    ensures var mem' := mem[bp := h][p := Header(mem[p].ptr, mem[p].size + mem[bp].size)];
            var owner' := Claim(owner, bp, bp + mem[bp].size, p);
            Ok(start, mem', free, live - {bp}, owner') && LiveKept(start, mem, mem', live - {bp}, owner, owner') && owner'[bp] == p
  {
    HeaderKept(start, mem, free, live, owner, bp);
    if p != BASE {
      HeaderKept(start, mem, free, live, owner, p);
    }
    Neighbours(start, mem, free, live, owner, p, bp);
    var mem' := mem[bp := h][p := Header(mem[p].ptr, mem[p].size + mem[bp].size)];
    var live' := live - {bp};
    forall x | x in free ensures FreeOk(start, mem', free, x) {
      assert FreeOk(start, mem, free, x);
    }
    forall x ensures Block(free, live', x) <==> Block(free, live, x) && x != bp {
    }
    forall x | x in live' ensures x !in free && x < |mem| && mem'[x].size == live'[x] {
      assert LiveOk(start, mem, free, live, x);
    }
    Absorbed(start, mem, mem', free, free, live, live', owner, p, bp);
  }

  // ---- malloc ----------------------------------------------------------------------------------

  // The whole block is handed out.
  lemma TakeWhole(start: nat, mem: seq<Header>, free: set<nat>, live: map<nat, nat>, owner: seq<nat>, prev: nat, p: nat)
    requires Ok(start, mem, free, live, owner) && prev in free && p in free && p != BASE && prev < |mem| && p < |mem| && mem[prev].ptr == p
    ensures prev != p
    ensures Ok(start, mem[prev := Header(mem[p].ptr, mem[prev].size)], free - {p}, live[p := mem[p].size], owner)
  {
    var mem', free', live' := mem[prev := Header(mem[p].ptr, mem[prev].size)], free - {p}, live[p := mem[p].size];
    Unlinked(start, mem, mem', free, prev, p);
    forall b ensures Block(free', live', b) <==> Block(free, live, b) {
    }
    forall b | b in live' ensures b !in free' && b < |mem| && mem[b].size == live'[b] {
      assert b in live ==> LiveOk(start, mem, free, live, b);
    }
    SameBlocks(start, mem, mem', free, free', live, live', owner);
  }

  // The last n units of a larger block, from r on, are handed out.
  lemma TakeTail(start: nat, mem: seq<Header>, free: set<nat>, live: map<nat, nat>, owner: seq<nat>, p: nat, n: nat, r: nat)
    requires Ok(start, mem, free, live, owner) && p in free && p < |mem| && 1 <= n < mem[p].size && r == p + (mem[p].size - n)
    ensures r < |mem| && r !in free && r !in live
    ensures Ok(start, mem[p := Header(mem[p].ptr, mem[p].size - n)][r := Header(mem[r].ptr, n)], free, live[r := n], Claim(owner, r, r + n, r))
  {
    assert FreeOk(start, mem, free, p);
    NotABlock(start, mem, free, live, owner, p, r);
    var mem' := mem[p := Header(mem[p].ptr, mem[p].size - n)][r := Header(mem[r].ptr, n)];
    var live', owner' := live[r := n], Claim(owner, r, r + n, r);
    TailSized(start, mem, mem', free, live, live', owner, p, n, r);
    TailOwned(start, mem, mem', free, live, live', owner, owner', p, n, r);
  }

  lemma TailSized(start: nat, mem: seq<Header>, mem': seq<Header>, free: set<nat>, live: map<nat, nat>, live': map<nat, nat>, owner: seq<nat>,
                  p: nat, n: nat, r: nat)
    requires Ok(start, mem, free, live, owner) && p in free && p != BASE && p < |mem| && 1 <= n < mem[p].size && r == p + (mem[p].size - n) < |mem|
    requires r !in free && r !in live && r + n <= |mem| && start <= r
    requires mem' == mem[p := Header(mem[p].ptr, mem[p].size - n)][r := Header(mem[r].ptr, n)] && live' == live[r := n]
    ensures forall x {:trigger FreeOk(start, mem', free, x)} :: x in free ==> FreeOk(start, mem', free, x)
    ensures forall x {:trigger LiveOk(start, mem', free, live', x)} :: x in live' ==> LiveOk(start, mem', free, live', x)
  {
    forall x | x in free ensures FreeOk(start, mem', free, x) {
      assert FreeOk(start, mem, free, x);
    }
    forall x | x in live' ensures LiveOk(start, mem', free, live', x) {
      assert x != r ==> LiveOk(start, mem, free, live, x);
    }
  }

  lemma TailOwned(start: nat, mem: seq<Header>, mem': seq<Header>, free: set<nat>, live: map<nat, nat>, live': map<nat, nat>,
                  owner: seq<nat>, owner': seq<nat>, p: nat, n: nat, r: nat)
    requires Ok(start, mem, free, live, owner) && p in free && p != BASE && p < |mem| && 1 <= n < mem[p].size && r == p + (mem[p].size - n) < |mem|
    requires r !in free && r !in live
    requires mem' == mem[p := Header(mem[p].ptr, mem[p].size - n)][r := Header(mem[r].ptr, n)]
    requires live' == live[r := n] && owner' == Claim(owner, r, r + n, r)
    ensures forall u {:trigger OwnerOk(mem', free, live', owner', u)} :: start <= u < |mem'| ==> OwnerOk(mem', free, live', owner', u)
    ensures forall x {:trigger OwnsAll(mem', owner', x)} :: Block(free, live', x) ==> OwnsAll(mem', owner', x)
  {
    assert OwnsAll(mem, owner, p);
    forall u | start <= u < |mem'| ensures OwnerOk(mem', free, live', owner', u) {
      assert OwnerOk(mem, free, live, owner, u);
      if r <= u < r + n {
        assert Inside(mem', r, u);
      } else {
        assert owner[u] == p ==> Inside(mem', p, u);
        assert Inside(mem', owner[u], u);
      }
    }
    forall x | Block(free, live', x) ensures OwnsAll(mem', owner', x) {
      assert x != r ==> OwnsAll(mem, owner, x);
      forall u | 0 <= u < |owner'| && Inside(mem', x, u) ensures owner'[u] == x {
        if x != r {
          assert Inside(mem, x, u) && owner[u] == x;
          assert x == p ==> u < r;
          assert Inside(mem, p, u) ==> owner[u] == p;
        }
      }
    }
  }

  // Inside a block no other begins.
  lemma NotABlock(start: nat, mem: seq<Header>, free: set<nat>, live: map<nat, nat>, owner: seq<nat>, b: nat, u: nat)
    requires Ok(start, mem, free, live, owner) && Block(free, live, b) && b < |mem| && b < u < b + mem[b].size
    ensures !Block(free, live, u) && u < |mem|
  {
    BlockSized(start, mem, free, live, owner, b);
    if Block(free, live, u) {
      Disjoint(start, mem, free, live, owner, b, u);
    }
  }

  // sbrk adds n units at the end, as one live block.
  lemma Extended(start: nat, mem: seq<Header>, free: set<nat>, live: map<nat, nat>, owner: seq<nat>, more: seq<Header>)
    requires Ok(start, mem, free, live, owner) && |more| >= 1 && more[0].size == |more|
    ensures |mem| !in free && |mem| !in live
    ensures Ok(start, mem + more, free, live[|mem| := |more|], owner + seq(|more|, _ => |mem|))
  {
    var mem', live', owner' := mem + more, live[|mem| := |more|], owner + seq(|more|, _ => |mem|);
    assert |mem| in free ==> FreeOk(start, mem, free, |mem|);
    assert |mem| in live ==> LiveOk(start, mem, free, live, |mem|);
    forall x | x in free ensures FreeOk(start, mem', free, x) {
      assert FreeOk(start, mem, free, x);
    }
    forall x | x in live' ensures LiveOk(start, mem', free, live', x) {
      assert x in live ==> LiveOk(start, mem, free, live, x);
    }
    forall u | start <= u < |mem'| ensures OwnerOk(mem', free, live', owner', u) {
      if u < |mem| {
        assert OwnerOk(mem, free, live, owner, u);
        assert Inside(mem', owner[u], u);
      } else {
        assert Inside(mem', |mem|, u);
      }
    }
    forall x | Block(free, live', x) ensures OwnsAll(mem', owner', x) {
      if x != |mem| {
        assert OwnsAll(mem, owner, x);
        BlockSized(start, mem, free, live, owner, x);
      }
      forall u | 0 <= u < |owner'| && Inside(mem', x, u) ensures owner'[u] == x {
        assert x != |mem| ==> Inside(mem, x, u);
      }
    }
  }

  // A unit that holds no header may change.
  lemma StoreOk(start: nat, mem: seq<Header>, free: set<nat>, live: map<nat, nat>, owner: seq<nat>, u: nat, h: Header)
    requires Ok(start, mem, free, live, owner) && start <= u < |mem| && owner[u] != u
    ensures Ok(start, mem[u := h], free, live, owner)
  {
    var mem' := mem[u := h];
    forall b | Block(free, live, b) ensures b != u {
      HeaderKept(start, mem, free, live, owner, b);
    }
    forall x | x in free ensures FreeOk(start, mem', free, x) {
      assert FreeOk(start, mem, free, x) && (x == BASE || Block(free, live, x));
    }
    forall b | b in live ensures LiveOk(start, mem', free, live, b) {
      assert LiveOk(start, mem, free, live, b) && Block(free, live, b);
    }
    forall v | start <= v < |mem| ensures OwnerOk(mem', free, live, owner, v) {
      assert OwnerOk(mem, free, live, owner, v);
    }
    forall b | Block(free, live, b) ensures OwnsAll(mem', owner, b) {
      assert OwnsAll(mem, owner, b);
      forall v | 0 <= v < |owner| && Inside(mem', b, v) ensures owner[v] == b {
        assert Inside(mem, b, v);
      }
    }
  }

  // ---- The search ---------------------------------------------------------------------------------

  // x lies on the way from freep to p.
  predicate Passed(freep: nat, p: nat, x: nat) {
    if p > freep then freep < x < p else x > freep || x < p
  }

  // Steps' worth of addresses from p on to freep.
  function Remaining(n: nat, freep: nat, p: nat): int {
    if p > freep then n - p + freep + 1 else freep - p
  }

  ghost predicate AllSmall(mem: seq<Header>, free: set<nat>, freep: nat, p: nat, n: nat) {
    forall x :: x in free && Passed(freep, p, x) ==> x < |mem| && mem[x].size < n
  }

  lemma SearchStarts(start: nat, mem: seq<Header>, free: set<nat>, live: map<nat, nat>, owner: seq<nat>, freep: nat, n: nat)
    requires Ok(start, mem, free, live, owner) && freep in free
    ensures freep < |mem| && mem[freep].ptr in free && AllSmall(mem, free, freep, mem[freep].ptr, n)
  {
    assert FreeOk(start, mem, free, freep);
  }

  lemma SearchMoves(start: nat, mem: seq<Header>, free: set<nat>, live: map<nat, nat>, owner: seq<nat>, freep: nat, p: nat, n: nat)
    requires Ok(start, mem, free, live, owner) && freep in free && p in free && p != freep && AllSmall(mem, free, freep, p, n)
    ensures p < |mem| && mem[p].ptr in free && mem[p].ptr < |mem|
    ensures mem[p].size < n ==> AllSmall(mem, free, freep, mem[p].ptr, n)
    ensures 0 <= Remaining(|mem|, freep, mem[p].ptr) < Remaining(|mem|, freep, p)
  {
    assert FreeOk(start, mem, free, p) && FreeOk(start, mem, free, freep);
    assert FreeOk(start, mem, free, mem[p].ptr);
  }

  // Back at freep, every free block has been seen.
  lemma SearchEnds(mem: seq<Header>, free: set<nat>, freep: nat, n: nat)
    requires AllSmall(mem, free, freep, freep, n) && freep < |mem| && mem[freep].size < n
    ensures forall x :: x in free ==> x < |mem| && mem[x].size < n
  {
  }

  class Arena {
    const start: nat
    var mem: seq<Header>
    var freep: nat
    var ready: bool
    ghost var free: set<nat>
    ghost var live: map<nat, nat>
    ghost var owner: seq<nat>

    ghost predicate Valid()
      reads this
    {
      if ready then Ok(start, mem, free, live, owner) && freep in free
      else 1 <= start == |mem| && live == map[]
    }

    // The data segment holds base; the heap is empty and freep is null.
    constructor (data: seq<Header>)
      requires |data| >= 1
      ensures Valid() && !ready && mem == data && live == map[]
    {
      start, mem, freep, ready := |data|, data, 0, false;
      free, live, owner := {}, map[], [];
    }

    // The loop of free: the free block after which bp goes.
    method FindSlot(bp: nat) returns (p: nat)
      requires Valid() && ready && bp in live
      ensures Freeing(start, mem, free, live, owner, p, bp)
    {
      p := freep;
      assert FreeOk(start, mem, free, p) && LiveOk(start, mem, free, live, bp);
      while !(bp > p && bp < mem[p].ptr) && !(p >= mem[p].ptr && (bp > p || bp < mem[p].ptr))
        invariant p in free && p < |mem|
        decreases p > bp, if p > bp then |mem| - p else bp - p
      {
        assert FreeOk(start, mem, free, p);
        p := mem[p].ptr;
        assert FreeOk(start, mem, free, p);
      }
      assert FreeOk(start, mem, free, p);
    }

    // The rest of free: bp joins the cycle after p, merged with what it touches.
    method Link(bp: nat, p: nat)
      requires ready && Freeing(start, mem, free, live, owner, p, bp)
      modifies `mem, `free, `live, `owner
      ensures Ok(start, mem, free, live, owner) && p in free && live == old(live) - {bp} && |mem| == |old(mem)|
      ensures LiveKept(start, old(mem), mem, live, old(owner), owner) && InFree(mem, free, owner, bp, old(mem[bp].size))
    {
      var q := mem[p].ptr;
      ghost var mem1 := JoinRight(bp, p, q);
      if p + mem[p].size == bp {
        AbsorbLeft(start, mem1, free, live, owner, p, bp, mem[bp]);
        owner := Claim(owner, bp, bp + mem[bp].size, p);
        mem := mem[p := Header(mem[bp].ptr, mem[p].size + mem[bp].size)];
      } else {
        InsertAlone(start, mem1, free, live, owner, p, bp);
        free := free + {bp};
        mem := mem[p := Header(bp, mem[p].size)];
      }
      assert mem == mem1[bp := mem[bp]][p := mem[p]];
      live := live - {bp};
    }

    // Its first half: bp takes in the right neighbour it touches.  mem1 is the heap with
    // that neighbour also unlinked from p.
    method JoinRight(bp: nat, p: nat, q: nat) returns (ghost mem1: seq<Header>)
      requires ready && Freeing(start, mem, free, live, owner, p, bp) && q == mem[p].ptr
      modifies `mem, `free, `live, `owner
      ensures Freeing(start, mem1, free, live, owner, p, bp) && |mem| == |old(mem)|
      ensures live - {bp} == old(live) - {bp} && mem1[bp].size >= old(mem[bp].size)
      ensures LiveKept(start, old(mem), mem1, live - {bp}, old(owner), owner)
      ensures mem == mem1[bp := Header(mem1[p].ptr, mem1[bp].size)][p := old(mem)[p]] && mem1[p].size == mem[p].size
      ensures bp + mem1[bp].size != mem1[p].ptr
    {
      Neighbours(start, mem, free, live, owner, p, bp);
      assert FreeOk(start, mem, free, q);
      if bp + mem[bp].size == q {
        AbsorbRight(start, mem, free, live, owner, p, bp, q);
        mem1 := mem[bp := Header(mem[q].ptr, mem[bp].size + mem[q].size)][p := Header(mem[q].ptr, mem[p].size)];
        live := live[bp := mem[bp].size + mem[q].size];
        owner := Claim(owner, q, q + mem[q].size, bp);
        free := free - {q};
        mem := mem[bp := Header(mem[q].ptr, mem[bp].size + mem[q].size)];
      } else {
        mem1 := mem;
        mem := mem[bp := Header(q, mem[bp].size)];
      }
    }

    /** free: the block goes, no other block of the program is touched, and the free blocks
        are again one ascending cycle without two that touch. */
    method Free(ap: nat)
      requires Valid() && 1 <= ap && ap - 1 in live
      modifies `mem, `freep, `free, `live, `owner
      ensures Valid() && live == old(live) - {ap - 1} && |mem| == |old(mem)| && ready
      ensures LiveKept(start, old(mem), mem, live, old(owner), owner)
      ensures ap - 1 < |mem| && InFree(mem, free, owner, ap - 1, old(live)[ap - 1])
    {
      var bp := ap - 1;
      assert LiveOk(start, mem, free, live, bp);
      var p := FindSlot(bp);
      Link(bp, p);
      freep := p;
    }

    /** The program may write what it likes into the units it was given, headers apart. */
    method Store(u: nat, h: Header)
      requires Valid() && ready && start <= u < |mem| && owner[u] in live && owner[u] != u
      modifies `mem
      ensures Valid() && mem == old(mem)[u := h]
    {
      StoreOk(start, mem, free, live, owner, u, h);
      mem := mem[u := h];
    }

    // Hands out n units of free block p, from its end.
    method Take(prev: nat, p: nat, n: nat) returns (r: nat)
      requires Ok(start, mem, free, live, owner) && prev in free && p in free && prev < |mem| && p < |mem|
      requires mem[prev].ptr == p && 1 <= n <= mem[p].size
      modifies `mem, `free, `live, `owner
      ensures Ok(start, mem, free, live, owner) && prev in free && |mem| == |old(mem)|
      ensures r !in old(live) && live == old(live)[r := n] && LiveKept(start, old(mem), mem, old(live), old(owner), owner)
    {
      assert FreeOk(start, mem, free, p) && FreeOk(start, mem, free, prev);
      assert p in live ==> LiveOk(start, mem, free, live, p);
      HeaderKept(start, mem, free, live, owner, p);
      if prev != BASE {
        HeaderKept(start, mem, free, live, owner, prev);
      }
      assert prev in live ==> LiveOk(start, mem, free, live, prev);
      if mem[p].size == n {
        TakeWhole(start, mem, free, live, owner, prev, p);
        mem := mem[prev := Header(mem[p].ptr, mem[prev].size)];
        r := p;
        free, live := free - {p}, live[p := n];
      } else {
        r := Split(p, n);
      }
    }

    method Split(p: nat, n: nat) returns (r: nat)
      requires Ok(start, mem, free, live, owner) && p in free && p < |mem| && 1 <= n < mem[p].size
      modifies `mem, `live, `owner
      ensures Ok(start, mem, free, live, owner) && |mem| == |old(mem)|
      ensures r !in old(live) && live == old(live)[r := n] && LiveKept(start, old(mem), mem, old(live), old(owner), owner)
    {
      assert FreeOk(start, mem, free, p) && OwnsAll(mem, owner, p);
      assert p in live ==> LiveOk(start, mem, free, live, p);
      HeaderKept(start, mem, free, live, owner, p);
      var rest := mem[p].size - n;
      r := p + rest;
      TakeTail(start, mem, free, live, owner, p, n, r);
      assert Inside(mem, p, r);
      mem := mem[p := Header(mem[p].ptr, rest)];
      mem := mem[r := Header(mem[r].ptr, n)];
      live, owner := live[r := n], Claim(owner, r, r + n, r);
    }

    // morecore, when sbrk succeeds and its new units hold `junk`.
    method Morecore(n: nat, junk: Header)
      requires Valid() && ready
      modifies `mem, `freep, `free, `live, `owner
      ensures Valid() && live == old(live) && |mem| == |old(mem)| + MoreUnits(n)
      ensures LiveKept(start, old(mem), mem, live, old(owner), owner) && exists x :: x in free && x < |mem| && mem[x].size >= n
    {
      var nu := MoreUnits(n);
      var more := seq(nu, _ => junk)[0 := Header(junk.ptr, nu)];
      var hp := |mem|;
      Extended(start, mem, free, live, owner, more);
      ghost var live0 := live;
      mem := mem + more;
      live, owner := live[hp := nu], owner + seq(nu, _ => hp);
      Free(hp + 1);
      assert live == live0;
      assert owner[hp] in free && mem[owner[hp]].size >= n;
    }

    // The first call makes base a cycle of its own.
    method Start()
      requires Valid() && !ready
      modifies this
      ensures Valid() && ready && live == map[] && |mem| == |old(mem)| && forall n :: n >= 1 ==> NoneFits(mem, free, n)
    {
      mem := mem[BASE := Header(BASE, 0)];
      freep, ready := BASE, true;
      free, owner := {BASE}, seq(|mem|, _ => 0);
      assert FreeOk(start, mem, free, BASE);
    }

    // malloc's loop is at p, after prev, and the heap was (mem0, free0, live0, owner0).
    ghost predicate Searching(prev: nat, p: nat, n: nat, grown: bool, mem0: seq<Header>, free0: set<nat>, live0: map<nat, nat>, owner0: seq<nat>)
      reads this
    {
      && Valid() && ready && prev in free && prev < |mem| && mem[prev].ptr == p && p in free && p < |mem| && freep < |mem|
      && AllSmall(mem, free, freep, p, n) && live == live0 && LiveKept(start, mem0, mem, live, owner0, owner)
      && if grown then NoneFits(mem0, free0, n) && !NoneFits(mem, free, n) else mem == mem0 && free == free0
    }

    /** malloc, given whether sbrk would succeed.  A block of enough units for nbytes and a
        header is handed out, disjoint from every live block and touching none; sbrk is
        asked only when no free block is large enough, and null is returned only when it
        then refuses.  `short` stands for sbrk giving less than the new block is going to
        claim, after which there is no saying what the heap is: exactly for requests beyond
        MOST that no free block fits. */
    method Malloc(nbytes: nat, sbrkOk: bool, junk: Header) returns (r: nat, short: bool)
      requires Valid() && nbytes < 0x1_0000_0000
      modifies this
      ensures Valid() && ready && nbytes <= (Units(nbytes) - 1) * HEADER
      ensures old(ready) ==> LiveKept(start, old(mem), mem, old(live), old(owner), owner)
      ensures short <==> sbrkOk && nbytes > MOST && (old(ready) ==> NoneFits(old(mem), old(free), Units(nbytes)))
      ensures r == 0 ==> (short || !sbrkOk) && live == old(live) && |mem| == |old(mem)| && NoneFits(mem, free, Units(nbytes))
      ensures r != 0 ==> !short && r - 1 !in old(live) && live == old(live)[r - 1 := Units(nbytes)]
      ensures old(ready) && |mem| > |old(mem)| ==> NoneFits(old(mem), old(free), Units(nbytes))
    {
      if !ready {
        Start();
      }
      AskedInFullIff(nbytes);
      r, short := Search(Units(nbytes), sbrkOk, junk);
    }

    method Search(n: nat, sbrkOk: bool, junk: Header) returns (r: nat, short: bool)
      requires Valid() && ready && n >= 1
      modifies `mem, `freep, `free, `live, `owner
      ensures Valid() && LiveKept(start, old(mem), mem, old(live), old(owner), owner)
      ensures short <==> sbrkOk && !InFull(n) && NoneFits(old(mem), old(free), n)
      ensures r == 0 ==> (short || !sbrkOk) && live == old(live) && |mem| == |old(mem)| && NoneFits(mem, free, n)
      ensures r != 0 ==> !short && r - 1 !in old(live) && live == old(live)[r - 1 := n]
      ensures |mem| > |old(mem)| ==> NoneFits(old(mem), old(free), n)
    {
      short := false;
      var prev := freep;
      SearchStarts(start, mem, free, live, owner, freep, n);
      var p := mem[prev].ptr;
      assert FreeOk(start, mem, free, p);
      ghost var grown := false;
      while mem[p].size < n
        invariant Searching(prev, p, n, grown, old(mem), old(free), old(live), old(owner)) && (grown ==> InFull(n))
        decreases !grown, Remaining(|mem|, freep, p)
      {
        if p == freep {
          SearchEnds(mem, free, freep, n);
          assert !grown;
          if !sbrkOk {
            return 0, false;
          }
          if !InFull(n) {
            return 0, true;
          }
          prev, p := Restart(n, junk);
          grown := true;
        } else {
          SearchMoves(start, mem, free, live, owner, freep, p, n);
          prev, p := p, mem[p].ptr;
          assert FreeOk(start, mem, free, p);
        }
      }
      assert !grown ==> !NoneFits(old(mem), old(free), n);
      r := HandOut(prev, p, n, grown, old(mem), old(free), old(live), old(owner));
    }

    // No block fits: there are more now, and the search goes on from freep.
    method Restart(n: nat, junk: Header) returns (prev: nat, p: nat)
      requires Valid() && ready && NoneFits(mem, free, n)
      modifies `mem, `freep, `free, `live, `owner
      ensures Searching(prev, p, n, true, old(mem), old(free), old(live), old(owner))
    {
      Morecore(n, junk);
      SearchStarts(start, mem, free, live, owner, freep, n);
      prev, p := freep, mem[freep].ptr;
      assert FreeOk(start, mem, free, p);
    }

    // The end of the search: the block at p is large enough.
    method HandOut(prev: nat, p: nat, n: nat, ghost grown: bool, ghost mem0: seq<Header>, ghost free0: set<nat>,
                   ghost live0: map<nat, nat>, ghost owner0: seq<nat>) returns (r: nat)
      requires Searching(prev, p, n, grown, mem0, free0, live0, owner0) && mem[p].size >= n >= 1
      modifies `mem, `freep, `free, `live, `owner
      ensures Valid() && LiveKept(start, mem0, mem, live0, owner0, owner) && |mem| == |old(mem)|
      ensures r > 0 && r - 1 !in live0 && live == live0[r - 1 := n]
    {
      ghost var mem1, owner1 := mem, owner;
      r := Take(prev, p, n);
      KeptTwice(start, mem0, mem1, mem, live0, owner0, owner1, owner);
      freep := prev;
      r := r + 1;
    }
  }

  lemma KeptTwice(start: nat, mem0: seq<Header>, mem1: seq<Header>, mem2: seq<Header>, live: map<nat, nat>,
                  owner0: seq<nat>, owner1: seq<nat>, owner2: seq<nat>)
    requires LiveKept(start, mem0, mem1, live, owner0, owner1) && LiveKept(start, mem1, mem2, live, owner1, owner2)
    ensures LiveKept(start, mem0, mem2, live, owner0, owner2)
  {
  }

  // Units for nbytes bytes and a header.
  function Units(nbytes: nat): nat {
    (nbytes + HEADER - 1) / HEADER + 1
  }

  // morecore asks for at least 4096 units.
  function MoreUnits(n: nat): nat {
    if n < 4096 then 4096 else n
  }

  // A 64-bit product passed as sbrk's 32-bit int.
  function AsInt(n: nat): int {
    var low := n % 0x1_0000_0000;
    if low < 0x8000_0000 then low else low - 0x1_0000_0000
  }

  // sbrk is asked for all that the new block claims.
  predicate InFull(n: nat) {
    AsInt(MoreUnits(n) * HEADER) == MoreUnits(n) * HEADER
  }

  // The largest request that sbrk can be asked for.
  const MOST: nat := 0x7FFF_FFE0

  /** sbrk is asked for the memory the new block claims exactly for requests up to MOST;
      a larger one, if no free block fits it, asks for less than a block of its own, or to
      give memory back. */
  lemma AskedInFullIff(nbytes: nat)
    requires nbytes < 0x1_0000_0000
    ensures var bytes := MoreUnits(Units(nbytes)) * HEADER;
            if nbytes <= MOST then InFull(Units(nbytes)) else AsInt(bytes) <= HEADER < bytes
  {
  }

  // No free block has n units.
  ghost predicate NoneFits(mem: seq<Header>, free: set<nat>, n: nat) {
    forall x :: x in free && x < |mem| ==> mem[x].size < n
  }

  // The n units from b on are part of a free block.
  ghost predicate InFree(mem: seq<Header>, free: set<nat>, owner: seq<nat>, b: nat, n: nat) {
    b < |owner| && owner[b] in free && owner[b] < |mem| && mem[owner[b]].size >= n
  }
}
