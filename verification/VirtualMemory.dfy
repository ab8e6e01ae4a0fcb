/** kalloc and kfree, and the page-table operations of vm.c: walk, mappages, uvmunmap,
    uvmalloc, uvmdealloc, uvmcopy, freewalk, uvmfree, copyout and copyin. */
module VirtualMemory {
  import opened Basics
  import opened PageTable

  // Index of virtual page vpn's PTE at a level; PX(level, va) is this modulo 512.
  function Idx(vpn: nat, level: nat): nat {
    if level == 2 then vpn / 512 / 512 else if level == 1 then vpn / 512 else vpn
  }

  // The translations of all tables are the same in both.
  ghost predicate SameLeaves(vm: Vm, vm': Vm, roots: map<nat, nat>) {
    forall root, i :: root in roots && 0 <= i < Span(0) ==> At(vm', root, 0, i) == At(vm, root, 0, i)
  }

  ghost predicate Sized(frames: map<nat, seq<Byte>>) {
    forall p :: p in frames ==> |frames[p]| == PGSIZE
  }

  class Memory {
    // The allocatable pages.
    const pages: set<nat>
    var free: seq<nat>
    var tables: map<nat, seq<Pte>>
    var frames: map<nat, seq<Byte>>
    // The page tables, each with the number of virtual pages whose frames it owns.
    ghost var roots: map<nat, nat>
    ghost var owner: map<nat, Slot>

    ghost function State(): Vm
      reads this
    {
      Vm(free, tables, frames)
    }

    ghost predicate Valid()
      reads this
    {
      Owned(State(), pages, roots, owner) && Sized(frames) && forall r :: r in roots ==> roots[r] <= MAXVPN
    }

    // kinit, given the pages in the order in which freerange frees them.
    constructor (order: seq<nat>)
      requires forall i, j :: 0 <= i < j < |order| ==> order[i] != order[j]
      ensures Valid() && fresh(this) && roots == map[] && tables == map[] && frames == map[]
      ensures forall p :: p in free <==> p in order
    {
      pages := set p | p in order;
      tables, frames, roots, owner := map[], map[], map[], map[];
      var l: seq<nat> := [];
      var i := 0;
      while i < |order|
        invariant i <= |order|
        invariant forall p :: p in l <==> p in order[..i]
        invariant forall a, b :: 0 <= a < b < |l| ==> l[a] != l[b]
      {
        assert order[i] !in order[..i];
        l := [order[i]] + l;
        i := i + 1;
      }
      assert order[..i] == order;
      free := l;
    }

    // kalloc.
    method Kalloc(junk: seq<Byte>) returns (ok: bool, p: nat)
      requires Valid() && |junk| == PGSIZE
      modifies `free, `frames
      ensures Valid() && (ok <==> old(free) != [])
      ensures !ok ==> State() == old(State())
      ensures ok ==> p == old(free)[0] && State() == Allocated(old(State()), junk) && FreeFrame(State(), owner, p)
    {
      if free == [] {
        return false, 0;
      }
      AllocOwned(State(), pages, roots, owner, junk);
      p := free[0];
      free := free[1..];
      frames := frames[p := junk];
      ok := true;
    }

    // kfree of a frame.
    method Kfree(p: nat)
      requires Valid() && FreeFrame(State(), owner, p)
      modifies `free, `frames
      ensures Valid() && State() == Freed(old(State()), p)
    {
      FreeOwned(State(), pages, roots, owner, p);
      free := [p] + free;
      frames := frames - {p};
    }

    /** walk.  The page that holds the leaf PTE of vpn.  No translation of any table
        changes; without alloc nothing changes at all and the walk fails exactly when a
        page-table page is missing; with alloc it fails only when no page is free. */
    method Walk(root: nat, vpn: nat, alloc: bool) returns (ok: bool, t: nat)
      requires Valid() && root in roots && vpn < MAXVPN
      modifies `free, `tables, `owner
      ensures Valid() && SameLeaves(old(State()), State(), roots)
      ensures ok ==> NodePte(State(), root, 0, vpn).v && t == NodePte(State(), root, 0, vpn).ppn
      ensures ok ==> t in tables && |tables[t]| == ENTRIES && tables[t][vpn % 512] == At(State(), root, 0, vpn)
      ensures !alloc ==> State() == old(State()) && owner == old(owner) && (ok <==> NodePte(State(), root, 0, vpn).v)
      ensures alloc && !ok ==> free == []
      ensures OwnerGrows(old(owner), owner)
    {
      t := root;
      var level := 2;
      while level > 0
        invariant level <= 2 && Valid() && SameLeaves(old(State()), State(), roots) && OwnerGrows(old(owner), owner)
        invariant level < 2 ==> NodePte(State(), root, level, Idx(vpn, level)).v
        invariant t == Holder(State(), root, level, Idx(vpn, level))
        invariant !alloc ==> State() == old(State()) && owner == old(owner)
      {
        ok, t := WalkStep(root, vpn, level, t, alloc);
        if !ok {
          return;
        }
        level := level - 1;
      }
      ok := true;
      HolderIsTable(State(), pages, roots, owner, root, 0, vpn);
    }

    method WalkStep(root: nat, vpn: nat, level: nat, t: nat, alloc: bool) returns (ok: bool, t': nat)
      requires Valid() && root in roots && vpn < MAXVPN && 1 <= level <= 2
      requires level < 2 ==> NodePte(State(), root, level, Idx(vpn, level)).v
      requires t == Holder(State(), root, level, Idx(vpn, level))
      modifies `free, `tables, `owner
      ensures Valid() && SameLeaves(old(State()), State(), roots) && OwnerGrows(old(owner), owner)
      ensures ok ==> NodePte(State(), root, level - 1, Idx(vpn, level - 1)).v && t' == Holder(State(), root, level - 1, Idx(vpn, level - 1))
      ensures !ok ==> State() == old(State()) && owner == old(owner) && !At(State(), root, level, Idx(vpn, level)).v && (alloc ==> free == [])
      ensures !alloc ==> State() == old(State()) && owner == old(owner)
    {
      var i := Idx(vpn, level);
      HolderIsTable(State(), pages, roots, owner, root, level, i);
      var pte := tables[t][i % 512];
      if pte.v {
        return true, pte.ppn;
      }
      if !alloc || free == [] {
        return false, 0;
      }
      var n := free[0];
      LinkOwned(State(), pages, roots, owner, root, level, i, n);
      LinkSameLeaves(State(), pages, roots, owner, root, level, i, n);
      NotOwnedIfFree(State(), pages, roots, owner, n);
      free := free[1..];
      tables := tables[n := ZeroTable()];
      tables := tables[t := tables[t][i % 512 := Pte(n, true, false, false, false, false)]];
      owner := owner[n := Slot(root, level, i)];
      ok, t' := true, n;
    }

    /** One round of mappages: the translation of vpn becomes pte and no other changes, or
        the walk runs out of pages and none changes. */
    method MapPage(root: nat, vpn: nat, pte: Pte) returns (ok: bool)
      requires Valid() && root in roots && vpn < MAXVPN && !At(State(), root, 0, vpn).v
      requires pte.v && pte.Leaf() && (vpn < roots[root] ==> FreeFrame(State(), owner, pte.ppn))
      modifies `free, `tables, `owner
      ensures Valid()
      ensures ok ==> At(State(), root, 0, vpn) == pte && LeavesExcept(old(State()), State(), roots, root, vpn, vpn + 1)
      ensures ok ==> OwnerGrows(if vpn < roots[root] then old(owner)[pte.ppn := Slot(root, 0, vpn)] else old(owner), owner)
      ensures !ok ==> SameLeaves(old(State()), State(), roots) && OwnerGrows(old(owner), owner) && free == []
    {
      var t;
      ok, t := Walk(root, vpn, true);
      if ok {
        ghost var vm1, owner1 := State(), owner;
        StillFree(vm1, old(owner), owner, pages, roots, pte.ppn);
        SetPte(root, vpn, t, pte);
        SameThenExcept(old(State()), vm1, State(), roots, root, vpn, vpn + 1);
        if vpn < roots[root] {
          GrowsWith(old(owner), owner1, pte.ppn, Slot(root, 0, vpn));
        }
      }
    }

    /** mappages: the pages map to frames in a row and no other translation changes; when
        page-table pages run out, only a first part of them is mapped.  Pages below
        roots[root] become the table's own, so nothing may own their frames yet. */
    method MapPages(root: nat, vpn: nat, end: nat, pte: Pte) returns (ok: bool, done: nat)
      requires Valid() && root in roots && vpn <= end <= MAXVPN && Vacant(State(), root, vpn, end) && pte.v && pte.Leaf()
      requires ToCome(root, vpn, vpn, end, pte)
      modifies `free, `tables, `owner
      ensures vpn <= done <= end && InRow(old(State()), root, vpn, done, pte)
      ensures if ok then done == end else done < end && free == []
    {
      done := vpn;
      while done < end
        invariant vpn <= done <= end && InRow(old(State()), root, vpn, done, pte) && ToCome(root, vpn, done, end, pte)
      {
        var next := done + 1;
        ok := MapNext(root, vpn, done, next, end, pte, old(State()));
        if !ok {
          return;
        }
        done := next;
      }
      ok := true;
    }

    // Since vm0, root's pages lo..a have been mapped to frames in a row, from pte's on.
    ghost predicate InRow(vm0: Vm, root: nat, lo: nat, a: nat, pte: Pte)
      reads this
    {
      && lo <= a && Valid() && LeavesExcept(vm0, State(), roots, root, lo, a)
      && forall i :: lo <= i < a ==> At(State(), root, 0, i) == pte.(ppn := pte.ppn + (i - lo))
    }

    // Of the pages a..end, those that root will own are to be given frames without owner.
    ghost predicate ToCome(root: nat, lo: nat, a: nat, end: nat, pte: Pte)
      requires root in roots && lo <= a
      reads this
    {
      FreeRow(State(), owner, pte.ppn + (a - lo), pte.ppn + (end - lo), pte.ppn + (roots[root] - lo))
    }

    method MapNext(root: nat, lo: nat, a: nat, next: nat, ghost end: nat, pte: Pte, ghost vm0: Vm) returns (ok: bool)
      requires root in roots && lo <= a < end <= MAXVPN && next == a + 1 && Vacant(vm0, root, lo, end) && pte.v && pte.Leaf()
      requires InRow(vm0, root, lo, a, pte) && ToCome(root, lo, a, end, pte)
      modifies `free, `tables, `owner
      ensures if ok then InRow(vm0, root, lo, next, pte) && ToCome(root, lo, next, end, pte) else InRow(vm0, root, lo, a, pte) && free == []
    {
      ghost var vm1 := State();
      assert At(vm1, root, 0, a) == At(vm0, root, 0, a);
      assert a < roots[root] ==> FreeFrame(vm1, owner, pte.ppn + (a - lo));
      ok := MapPage(root, a, pte.(ppn := pte.ppn + (a - lo)));
      if ok {
        RowGrown(vm0, vm1, root, lo, a, next, pte);
        FramesLeft(old(owner), vm1, root, lo, a, next, end, pte);
      } else {
        RowStays(vm0, vm1, root, lo, a, pte);
      }
    }

    lemma RowGrown(vm0: Vm, vm1: Vm, root: nat, lo: nat, a: nat, next: nat, pte: Pte)
      requires Valid() && root in roots && lo <= a && next == a + 1
      requires LeavesExcept(vm0, vm1, roots, root, lo, a) && LeavesExcept(vm1, State(), roots, root, a, next)
      requires forall i :: lo <= i < a ==> At(vm1, root, 0, i) == pte.(ppn := pte.ppn + (i - lo))
      requires At(State(), root, 0, a) == pte.(ppn := pte.ppn + (a - lo)) && a < Span(0)
      ensures InRow(vm0, root, lo, next, pte)
    {
      ExceptThenExcept(vm0, vm1, State(), roots, root, lo, a, next);
      forall i | lo <= i < next ensures At(State(), root, 0, i) == pte.(ppn := pte.ppn + (i - lo)) {
        assert i < a ==> At(State(), root, 0, i) == At(vm1, root, 0, i);
      }
    }

    lemma RowStays(vm0: Vm, vm1: Vm, root: nat, lo: nat, a: nat, pte: Pte)
      requires Valid() && root in roots && lo <= a <= Span(0)
      requires LeavesExcept(vm0, vm1, roots, root, lo, a) && SameLeaves(vm1, State(), roots)
      requires forall i :: lo <= i < a ==> At(vm1, root, 0, i) == pte.(ppn := pte.ppn + (i - lo))
      ensures InRow(vm0, root, lo, a, pte)
    {
      forall i | lo <= i < a ensures At(State(), root, 0, i) == At(vm1, root, 0, i) {
      }
    }

    // The frames for the pages after a have no owner still.
    lemma FramesLeft(owner0: map<nat, Slot>, vm1: Vm, root: nat, lo: nat, a: nat, next: nat, end: nat, pte: Pte)
      requires Valid() && root in roots && lo <= a && next == a + 1 && vm1.frames == frames
      requires OwnerGrows(if a < roots[root] then owner0[pte.ppn + (a - lo) := Slot(root, 0, a)] else owner0, owner)
      requires FreeRow(vm1, owner0, pte.ppn + (a - lo), pte.ppn + (end - lo), pte.ppn + (roots[root] - lo))
      ensures ToCome(root, lo, next, end, pte)
    {
      var owner1 := if a < roots[root] then owner0[pte.ppn + (a - lo) := Slot(root, 0, a)] else owner0;
      forall p | pte.ppn + (next - lo) <= p < pte.ppn + (end - lo) && p < pte.ppn + (roots[root] - lo) ensures FreeFrame(State(), owner, p) {
        assert FreeFrame(vm1, owner0, p);
        StillFree(State(), owner1, owner, pages, roots, p);
      }
    }

    method SetPte(root: nat, vpn: nat, t: nat, pte: Pte)
      requires Valid() && root in roots && vpn < MAXVPN && !At(State(), root, 0, vpn).v
      requires NodePte(State(), root, 0, vpn).v && t == NodePte(State(), root, 0, vpn).ppn
      requires pte.v && pte.Leaf() && (vpn < roots[root] ==> FreeFrame(State(), owner, pte.ppn))
      modifies `tables, `owner
      ensures Valid() && At(State(), root, 0, vpn) == pte && LeavesExcept(old(State()), State(), roots, root, vpn, vpn + 1)
      ensures owner == if vpn < roots[root] then old(owner)[pte.ppn := Slot(root, 0, vpn)] else old(owner)
    {
      MapLeaf(State(), pages, roots, owner, root, vpn, pte);
      LeafChanges(State(), pages, roots, owner, root, vpn, pte);
      tables := tables[t := tables[t][vpn % 512 := pte]];
      if vpn < roots[root] {
        owner := owner[pte.ppn := Slot(root, 0, vpn)];
      }
    }

    /** One round of uvmunmap on a mapped page: its PTE is cleared and, with doFree, its
        frame returns to the free list. */
    method UnmapPage(root: nat, vpn: nat, doFree: bool)
      requires Valid() && root in roots && vpn < MAXVPN && At(State(), root, 0, vpn).v && (doFree <==> vpn < roots[root])
      modifies `free, `tables, `frames, `owner
      ensures Valid() && !At(State(), root, 0, vpn).v && LeavesExcept(old(State()), State(), roots, root, vpn, vpn + 1)
      ensures var f := old(At(State(), root, 0, vpn).ppn);
              && owner == (if doFree then old(owner) - {f} else old(owner))
              && frames == (if doFree then old(frames) - {f} else old(frames))
              && free == (if doFree then [f] + old(free) else old(free))
    {
      ghost var vm := State();
      var ok, t := Walk(root, vpn, false);
      UnmapLeaf(vm, pages, roots, owner, root, vpn, doFree);
      LeafChanges(vm, pages, roots, owner, root, vpn, INVALID);
      var f := tables[t][vpn % 512].ppn;
      if doFree {
        free := [f] + free;
        frames := frames - {f};
        owner := owner - {f};
      }
      tables := tables[t := tables[t][vpn % 512 := INVALID]];
      assert State() == Unmapped(vm, t, vpn % 512, f, doFree);
      UnmappedLeaves(vm, t, vpn % 512, f, doFree, roots);
    }

    /** uvmunmap of the end - vpn mapped pages from vpn on: exactly their translations go and, with
        doFree, exactly their frames return to the free list. */
    method UvmUnmap(root: nat, vpn: nat, end: nat, doFree: bool)
      requires Valid() && root in roots && vpn <= end <= MAXVPN
      requires if doFree then end <= roots[root] else roots[root] <= vpn
      requires Mapped(State(), root, vpn, end)
      modifies `free, `tables, `frames, `owner
      ensures Removed(old(State()), old(owner), root, vpn, end)
    {
      var a := vpn;
      NoneRemoved(owner, frames, root, vpn);
      while a < end
        invariant a <= end && Removed(old(State()), old(owner), root, vpn, a)
      {
        var next := a + 1;
        UnmapNext(root, vpn, a, next, end, doFree, old(State()), old(owner));
        a := next;
      }
      assert a == end;
    }

    // Since vm0, exactly root's pages lo..a have been unmapped.
    ghost predicate Removed(vm0: Vm, owner0: map<nat, Slot>, root: nat, lo: nat, a: nat)
      reads this
    {
      && lo <= a && Valid() && LeavesExcept(vm0, State(), roots, root, lo, a) && Vacant(State(), root, lo, a)
      && owner == OwnersExcept(owner0, root, lo, a)
      && frames == FramesExcept(vm0.frames, owner0, root, lo, a)
    }

    method UnmapNext(root: nat, lo: nat, a: nat, ghost next: nat, ghost hi: nat, doFree: bool, ghost vm0: Vm, ghost owner0: map<nat, Slot>)
      requires Removed(vm0, owner0, root, lo, a) && Owned(vm0, pages, roots, owner0)
      requires root in roots && lo <= a < hi <= MAXVPN && next == a + 1 && Mapped(vm0, root, lo, hi) && (doFree <==> a < roots[root])
      modifies `free, `tables, `frames, `owner
      ensures Removed(vm0, owner0, root, lo, next)
    {
      ghost var vm1 := State();
      assert At(vm1, root, 0, a) == At(vm0, root, 0, a);
      OneMoreRemoved(vm0, pages, roots, owner0, root, lo, a, next);
      UnmapPage(root, a, doFree);
      ExceptThenExcept(vm0, vm1, State(), roots, root, lo, a, next);
      StillUnmapped(vm1, State(), roots, root, lo, a, next);
    }

    /** A round of uvmalloc and of uvmcopy: allocate a frame, fill it, and map it at vpn;
        when no page is left for the frame or for the walk, give the frame back. */
    method AddPage(root: nat, vpn: nat, flags: Pte, content: seq<Byte>) returns (ok: bool)
      requires Valid() && root in roots && vpn < roots[root] && !At(State(), root, 0, vpn).v && flags.v && flags.Leaf() && |content| == PGSIZE
      modifies `free, `tables, `frames, `owner
      ensures Valid()
      ensures ok ==>
                var p := At(State(), root, 0, vpn).ppn;
                && At(State(), root, 0, vpn) == flags.(ppn := p)
                && p !in old(frames) && p !in old(owner) && frames == old(frames)[p := content]
                && LeavesExcept(old(State()), State(), roots, root, vpn, vpn + 1)
                && OwnerGrows(old(owner)[p := Slot(root, 0, vpn)], owner)
      ensures !ok ==> SameLeaves(old(State()), State(), roots) && frames == old(frames) && OwnerGrows(old(owner), owner)
    {
      var p;
      ok, p := Kalloc(content);
      if !ok {
        return;
      }
      ghost var vm1 := State();
      AllocatedLeaves(old(State()), content, roots);
      ok := MapPage(root, vpn, flags.(ppn := p));
      if ok {
        SameThenExcept(old(State()), vm1, State(), roots, root, vpn, vpn + 1);
      } else {
        ghost var vm2 := State();
        StillFree(vm2, old(owner), owner, pages, roots, p);
        TakenBack(old(frames), p, content);
        Kfree(p);
        FreedLeaves(vm2, p, roots);
      }
    }

    /** uvmalloc.  Success maps a zeroed frame of its own at every page from oldsz up to
        newsz; failure leaves every translation and every frame as before. */
    method UvmAlloc(root: nat, oldsz: nat, newsz: nat, flags: Pte) returns (ok: bool, r: nat)
      requires Valid() && root in roots && PgUp(newsz) <= roots[root] && flags.v && flags.Leaf()
      requires Vacant(State(), root, PgUp(oldsz), PgUp(newsz))
      modifies `free, `tables, `frames, `owner
      ensures Valid()
      ensures newsz < oldsz ==> ok && r == oldsz && State() == old(State())
      ensures newsz >= oldsz && ok ==> r == newsz && Growing(old(State()), old(owner), root, PgUp(oldsz), PgUp(newsz), flags)
      ensures !ok ==> r == 0 && SameMapping(old(State()), State(), roots) && frames == old(frames)
    {
      if newsz < oldsz {
        return true, oldsz;
      }
      PgUpMonotone(oldsz, newsz);
      ok := GrowLoop(root, PgUp(oldsz), PgUp(newsz), flags);
      r := if ok then newsz else 0;
    }

    method GrowLoop(root: nat, lo: nat, hi: nat, flags: Pte) returns (ok: bool)
      requires Valid() && root in roots && lo <= hi <= roots[root] && flags.v && flags.Leaf()
      requires Vacant(State(), root, lo, hi)
      modifies `free, `tables, `frames, `owner
      ensures ok ==> Growing(old(State()), old(owner), root, lo, hi, flags)
      ensures !ok ==> Valid() && SameMapping(old(State()), State(), roots) && frames == old(frames)
    {
      var a := lo;
      GrownNothing(State(), owner, roots, root, lo);
      while a < hi
        invariant a <= hi && Growing(old(State()), old(owner), root, lo, a, flags)
      {
        var next := a + 1;
        ok := GrowOne(root, lo, a, next, hi, flags, old(State()), old(owner));
        if !ok {
          return;
        }
        a := next;
      }
      assert a == hi;
      ok := true;
    }

    // uvmalloc has mapped pages lo..a.
    ghost predicate Growing(vm0: Vm, owner0: map<nat, Slot>, root: nat, lo: nat, a: nat, flags: Pte)
      reads this
    {
      && lo <= a && Valid() && Grown(vm0, owner0, State(), owner, roots, root, lo, a)
      && Filled(State(), root, lo, a, flags, ZeroPage())
    }

    method GrowOne(root: nat, lo: nat, a: nat, ghost next: nat, ghost n: nat, flags: Pte, ghost vm0: Vm, ghost owner0: map<nat, Slot>) returns (ok: bool)
      requires root in roots && a < n <= roots[root] && n <= MAXVPN && next == a + 1 && flags.v && flags.Leaf() && Owned(vm0, pages, roots, owner0)
      requires Growing(vm0, owner0, root, lo, a, flags) && Vacant(vm0, root, lo, n)
      modifies `free, `tables, `frames, `owner
      ensures ok ==> Growing(vm0, owner0, root, lo, next, flags)
      ensures !ok ==> Valid() && SameMapping(vm0, State(), roots) && frames == vm0.frames
    {
      ghost var vm1, owner1 := State(), owner;
      assert At(vm1, root, 0, a) == At(vm0, root, 0, a);
      ok := AddPage(root, a, flags, ZeroPage());
      if ok {
        GrownMore(vm0, owner0, vm1, owner1, State(), owner, roots, root, lo, a, next);
        FilledMore(vm1, State(), roots, root, lo, a, next, flags, ZeroPage());
      } else {
        GrownSame(vm0, owner0, vm1, owner1, State(), owner, roots, root, lo, a);
        UndoGrowth(root, lo, a, vm0, owner0);
      }
    }

    /** uvmdealloc: the pages from newsz up to oldsz go and their frames are freed. */
    method UvmDealloc(root: nat, oldsz: nat, newsz: nat) returns (r: nat)
      requires Valid() && root in roots && PgUp(oldsz) <= roots[root] && Mapped(State(), root, PgUp(newsz), PgUp(oldsz))
      modifies `free, `tables, `frames, `owner
      ensures Valid()
      ensures newsz >= oldsz ==> r == oldsz && State() == old(State())
      ensures newsz < oldsz ==> r == newsz && Removed(old(State()), old(owner), root, PgUp(newsz), PgUp(oldsz))
    {
      if newsz >= oldsz {
        return oldsz;
      }
      PgUpMonotone(newsz, oldsz);
      if PgUp(newsz) < PgUp(oldsz) {
        UvmUnmap(root, PgUp(newsz), PgUp(oldsz), true);
      } else {
        NoneRemoved(owner, frames, root, PgUp(newsz));
      }
      r := newsz;
    }

    // uvmunmap of pages lo..hi that were added after vm0.
    method UndoGrowth(root: nat, lo: nat, hi: nat, ghost vm0: Vm, ghost owner0: map<nat, Slot>)
      requires Valid() && root in roots && lo <= hi <= roots[root] && Owned(vm0, pages, roots, owner0)
      requires Vacant(vm0, root, lo, hi)
      requires Grown(vm0, owner0, State(), owner, roots, root, lo, hi)
      modifies `free, `tables, `frames, `owner
      ensures Valid() && SameMapping(vm0, State(), roots) && frames == vm0.frames
    {
      ghost var vm1, owner1 := State(), owner;
      UvmUnmap(root, lo, hi, true);
      Undone(vm0, owner0, vm1, owner1, State(), pages, roots, root, lo, hi);
    }

    /** uvmcopy.  Success gives every page of the parent below sz a copy in the child: the
        same flags, the same bytes, and a frame the parent does not have.  Failure leaves
        every translation and every frame as before. */
    method UvmCopy(src: nat, dst: nat, sz: nat) returns (ok: bool)
      requires Valid() && src in roots && dst in roots && src != dst && PgUp(sz) <= roots[src] && PgUp(sz) <= roots[dst]
      requires Mapped(State(), src, 0, PgUp(sz)) && Vacant(State(), dst, 0, PgUp(sz))
      modifies `free, `tables, `frames, `owner
      ensures ok ==> Copying(old(State()), old(owner), src, dst, PgUp(sz))
      ensures !ok ==> Valid() && SameMapping(old(State()), State(), roots) && frames == old(frames)
    {
      var a, n := 0, PgUp(sz);
      GrownNothing(State(), owner, roots, dst, 0);
      while a < n
        invariant a <= n && Copying(old(State()), old(owner), src, dst, a)
      {
        var next := a + 1;
        ok := CopyOne(src, dst, a, next, n, old(State()), old(owner));
        if !ok {
          return;
        }
        a := next;
      }
      assert a == n;
      ok := true;
    }

    // uvmcopy has copied the first a pages.
    ghost predicate Copying(vm0: Vm, owner0: map<nat, Slot>, src: nat, dst: nat, a: nat)
      reads this
    {
      && Valid() && Grown(vm0, owner0, State(), owner, roots, dst, 0, a)
      && Copied(vm0, State(), src, dst, a)
    }

    method CopyOne(src: nat, dst: nat, a: nat, ghost next: nat, ghost n: nat, ghost vm0: Vm, ghost owner0: map<nat, Slot>) returns (ok: bool)
      requires src in roots && dst in roots && src != dst && a < n <= roots[src] && n <= roots[dst] && n <= MAXVPN && next == a + 1 && Owned(vm0, pages, roots, owner0)
      requires Copying(vm0, owner0, src, dst, a) && Mapped(vm0, src, 0, n) && Vacant(vm0, dst, 0, n)
      modifies `free, `tables, `frames, `owner
      ensures ok ==> Copying(vm0, owner0, src, dst, next)
      ensures !ok ==> Valid() && SameMapping(vm0, State(), roots) && frames == vm0.frames
    {
      ghost var vm1, owner1 := State(), owner;
      assert At(vm1, dst, 0, a) == At(vm0, dst, 0, a) && At(vm1, src, 0, a) == At(vm0, src, 0, a);
      assert PteOk(vm1, roots, owner1, src, 0, a) && PteOk(vm0, roots, owner0, src, 0, a);
      var pte := LeafOf(src, a);
      ok := AddPage(dst, a, pte, frames[pte.ppn]);
      if ok {
        GrownMore(vm0, owner0, vm1, owner1, State(), owner, roots, dst, 0, a, next);
        CopiedMore(vm0, vm1, State(), roots, src, dst, a, next);
      } else {
        GrownSame(vm0, owner0, vm1, owner1, State(), owner, roots, dst, 0, a);
        UndoGrowth(dst, 0, a, vm0, owner0);
      }
    }

    // walk without alloc, and the PTE it finds; no page-table page reads as invalid.
    method LeafOf(root: nat, vpn: nat) returns (pte: Pte)
      requires Valid() && root in roots && vpn < MAXVPN
      modifies `free, `tables, `owner
      ensures State() == old(State()) && owner == old(owner) && pte == At(State(), root, 0, vpn)
    {
      var ok, t := Walk(root, vpn, false);
      pte := if ok then tables[t][vpn % 512] else INVALID;
    }

    // ---- Freeing a table -----------------------------------------------------------------

    // freewalk's loop over the entries of page t, the PTEs (level, 512 * i + k): every
    // child is freed and its entry cleared.
    method FreeChildren(t: nat, ghost root: nat, level: nat, ghost i: nat)
      requires Valid() && root in roots && IsNode(State(), root, level, i, t) && NoLeaves(State(), root)
      modifies `free, `tables, `owner
      ensures Valid() && IsNode(State(), root, level, i, t) && NoLeaves(State(), root)
      ensures EmptyTable(State(), t) && SameAbove(old(State()), State(), roots, root, level)
      ensures Shrinks(old(owner), owner)
      decreases level, 2
    {
      StartFreeing(root, level, i, t);
      var k := 0;
      while k < ENTRIES
        invariant k <= ENTRIES && Freeing(old(State()), old(owner), root, level, i, t, k)
      {
        var next := k + 1;
        FreeEntry(t, root, level, i, k, next, old(State()), old(owner));
        k := next;
      }
    }

    lemma StartFreeing(root: nat, level: nat, i: nat, t: nat)
      requires Valid() && root in roots && IsNode(State(), root, level, i, t) && NoLeaves(State(), root)
      ensures Freeing(State(), owner, root, level, i, t, 0)
    {
      NodeIsTable(State(), pages, roots, owner, root, level, i, t);
    }

    ghost predicate Freeing(vm0: Vm, owner0: map<nat, Slot>, root: nat, level: nat, i: nat, t: nat, k: nat)
      reads this
    {
      Sized(frames) && (forall r :: r in roots ==> roots[r] <= MAXVPN) && FirstFreed(vm0, owner0, State(), pages, roots, owner, root, level, i, t, k)
    }

    method FreeEntry(t: nat, ghost root: nat, level: nat, ghost i: nat, k: nat, ghost next: nat, ghost vm0: Vm, ghost owner0: map<nat, Slot>)
      requires root in roots && k < ENTRIES && next == k + 1 && Freeing(vm0, owner0, root, level, i, t, k)
      modifies `free, `tables, `owner
      ensures Freeing(vm0, owner0, root, level, i, t, next)
      decreases level, 1
    {
      if tables[t][k].v {
        FreeChild(t, root, level, i, k, next, vm0, owner0);
      }
    }

    // One child: free its subtree and its page, then clear the entry.
    method FreeChild(t: nat, ghost root: nat, level: nat, ghost i: nat, k: nat, ghost next: nat, ghost vm0: Vm, ghost owner0: map<nat, Slot>)
      requires root in roots && k < ENTRIES && next == k + 1 && Freeing(vm0, owner0, root, level, i, t, k) && tables[t][k].v
      modifies `free, `tables, `owner
      ensures Freeing(vm0, owner0, root, level, i, t, next)
      decreases level, 0
    {
      var c := tables[t][k].ppn;
      ghost var vm1 := State();
      EntryPosition(vm1, pages, roots, owner, root, level, i, t, k);
      FreeChildren(c, root, level - 1, 512 * i + k);
      ghost var vm2 := State();
      ChildFreed(vm0, owner0, vm1, vm2, pages, roots, old(owner), owner, root, level, i, t, k, next, c);
      ClearChild(t, k, c);
    }

    method ClearChild(t: nat, k: nat, c: nat)
      requires t in tables && k < |tables[t]| && t != c
      modifies `free, `tables, `owner
      ensures State() == Dropped(old(State()), t, k, c) && owner == old(owner) - {c}
    {
      free := [c] + free;
      tables := tables - {c};
      tables := tables[t := tables[t][k := INVALID]];
      owner := owner - {c};
    }

    // uvmcreate: an empty table on a page of its own.
    method UvmCreate(ghost top: nat) returns (ok: bool, root: nat)
      requires Valid() && top <= MAXVPN
      modifies `free, `tables, `roots
      ensures Valid() && (ok <==> old(free) != []) && (!ok ==> State() == old(State()) && roots == old(roots))
      ensures ok ==> root !in old(roots) && roots == old(roots)[root := top] && NoLeaves(State(), root)
      ensures ok ==> SameLeaves(old(State()), State(), old(roots))
    {
      if free == [] {
        return false, 0;
      }
      CreateOwned(State(), pages, roots, owner, top);
      root := free[0];
      free := free[1..];
      tables := tables[root := ZeroTable()];
      roots := roots[root := top];
      ok := true;
    }

    // freewalk of a whole table without leaves.
    method FreeWalk(root: nat)
      requires Valid() && root in roots && NoLeaves(State(), root)
      modifies `free, `tables, `owner, `roots
      ensures Valid() && roots == old(roots) - {root} && root !in tables
      ensures SameLeaves(old(State()), State(), roots)
      ensures Shrinks(old(owner), owner) && forall p :: p in owner ==> owner[p].root != root
    {
      FreeChildren(root, root, 2, 0);
      FreeRoot(root);
    }

    method FreeRoot(root: nat)
      requires Valid() && root in roots && EmptyTable(State(), root)
      modifies `free, `tables, `roots
      ensures Valid() && roots == old(roots) - {root} && root !in tables
      ensures SameLeaves(old(State()), State(), roots) && forall p :: p in owner ==> owner[p].root != root
    {
      ghost var vm1 := State();
      DropRootOwned(vm1, pages, roots, owner, root);
      free := [root] + free;
      tables := tables - {root};
      roots := roots - {root};
      assert State() == DropTable(vm1, root);
    }

    /** uvmfree: every frame and every page-table page of the table goes back to the free
        list, and nothing else changes. */
    method UvmFree(root: nat, sz: nat)
      requires Valid() && root in roots && PgUp(sz) <= roots[root]
      requires forall i :: 0 <= i < Span(0) ==> (At(State(), root, 0, i).v <==> i < PgUp(sz))
      modifies `free, `tables, `frames, `owner, `roots
      ensures Valid() && roots == old(roots) - {root} && root !in tables
      ensures SameLeaves(old(State()), State(), roots)
      ensures forall p :: p in old(owner) && old(owner)[p].root == root ==> p in free
      ensures root in free && frames == FramesExcept(old(frames), old(owner), root, 0, PgUp(sz))
    {
      UvmUnmap(root, 0, PgUp(sz), true);
      ghost var vm1 := State();
      EmptiedLeaves(old(State()), vm1, roots, root, PgUp(sz));
      FreeWalk(root);
      AllReturned(old(State()), State(), pages, old(roots), roots, old(owner), owner, root, PgUp(sz));
    }
  }

  ghost predicate Shrinks(owner: map<nat, Slot>, owner': map<nat, Slot>) {
    forall p :: p in owner' ==> p in owner && owner'[p] == owner[p]
  }

  // Whatever a table owned is on the free list once it owns nothing.
  lemma AllReturned(vm: Vm, vm': Vm, pages: set<nat>, roots: map<nat, nat>, roots': map<nat, nat>,
                    owner: map<nat, Slot>, owner': map<nat, Slot>, root: nat, n: nat)
    requires Owned(vm, pages, roots, owner) && Owned(vm', pages, roots', owner')
    requires root in roots && roots' == roots - {root} && Shrinks(owner, owner') && root !in vm'.tables
    requires forall p :: p in owner' ==> owner'[p].root != root
    requires forall i :: 0 <= i < Span(0) ==> (At(vm, root, 0, i).v <==> i < n)
    requires vm'.frames == FramesExcept(vm.frames, owner, root, 0, n)
    ensures root in vm'.free && forall p :: p in owner && owner[p].root == root ==> p in vm'.free
  {
    forall p | p in owner && owner[p].root == root ensures p in vm'.free {
      assert OwnerOk(vm, roots, owner, p) && PteOk(vm, roots, owner, root, owner[p].level, owner[p].i);
      assert p in vm.frames || p in vm.tables;
      assert p !in owner' && p != root;
      assert p in vm.frames ==> owner[p].level == 0 && InRange(owner, p, root, 0, n);
    }
    assert root in vm.tables;
  }

  lemma EmptiedLeaves(vm: Vm, vm1: Vm, roots: map<nat, nat>, root: nat, n: nat)
    requires root in roots && LeavesExcept(vm, vm1, roots, root, 0, n)
    requires forall i :: 0 <= i < n ==> !At(vm1, root, 0, i).v
    requires forall i :: 0 <= i < Span(0) ==> (At(vm, root, 0, i).v <==> i < n)
    ensures NoLeaves(vm1, root) && SameLeaves(vm, vm1, roots - {root})
  {
    forall i | 0 <= i < Span(0) ensures !At(vm1, root, 0, i).v {
      assert i >= n ==> At(vm1, root, 0, i) == At(vm, root, 0, i);
    }
  }

  // t is the page whose entries are the PTEs (level, 512 * i + k) of root's table.
  ghost predicate IsNode(vm: Vm, root: nat, level: nat, i: nat, t: nat) {
    && level <= 2
    && if level == 2 then i == 0 && t == root
       else i < Span(level + 1) && At(vm, root, level + 1, i).v && At(vm, root, level + 1, i).ppn == t
  }

  ghost predicate NoLeaves(vm: Vm, root: nat) {
    forall i :: 0 <= i < Span(0) ==> !At(vm, root, 0, i).v
  }

  // The PTEs of other tables, and root's above a level, are the same.
  ghost predicate SameAbove(vm: Vm, vm': Vm, roots: map<nat, nat>, root: nat, level: nat) {
    forall root', l, i :: root' in roots && 0 <= l <= 2 && 0 <= i < Span(l) && (root' != root || l > level) ==>
      At(vm', root', l, i) == At(vm, root', l, i)
  }

  lemma AboveTwice(vm: Vm, vm1: Vm, vm2: Vm, roots: map<nat, nat>, root: nat, level: nat)
    requires 1 <= level && SameAbove(vm, vm1, roots, root, level - 1) && SameAbove(vm1, vm2, roots, root, level)
    ensures SameAbove(vm, vm2, roots, root, level)
  {
    forall root', l, i | root' in roots && 0 <= l <= 2 && 0 <= i < Span(l) && (root' != root || l > level)
      ensures At(vm2, root', l, i) == At(vm, root', l, i)
    {
      assert At(vm1, root', l, i) == At(vm, root', l, i);
    }
  }

  lemma NodeIsTable(vm: Vm, pages: set<nat>, roots: map<nat, nat>, owner: map<nat, Slot>, root: nat, level: nat, i: nat, t: nat)
    requires Owned(vm, pages, roots, owner) && root in roots && IsNode(vm, root, level, i, t)
    ensures t in vm.tables && |vm.tables[t]| == ENTRIES
    ensures 512 * i + 511 < Span(level)
    ensures forall k :: 0 <= k < ENTRIES ==> vm.tables[t][k] == At(vm, root, level, 512 * i + k)
  {
    if level < 2 {
      assert PteOk(vm, roots, owner, root, level + 1, i);
    }
    forall k | 0 <= k < ENTRIES ensures vm.tables[t][k] == At(vm, root, level, 512 * i + k) {
      assert (512 * i + k) / 512 == i && (512 * i + k) % 512 == k;
    }
  }

  // A valid entry below the leaves leads to a child node.
  lemma EntryPosition(vm: Vm, pages: set<nat>, roots: map<nat, nat>, owner: map<nat, Slot>, root: nat, level: nat, i: nat, t: nat, k: nat)
    requires Owned(vm, pages, roots, owner) && root in roots && IsNode(vm, root, level, i, t) && NoLeaves(vm, root)
    requires k < ENTRIES && t in vm.tables && |vm.tables[t]| == ENTRIES && vm.tables[t][k].v
    ensures level >= 1 && 512 * i + k < Span(level) && At(vm, root, level, 512 * i + k) == vm.tables[t][k]
    ensures IsNode(vm, root, level - 1, 512 * i + k, vm.tables[t][k].ppn)
    ensures Holder(vm, root, level, 512 * i + k) == t && (512 * i + k) % 512 == k
  {
    NodeIsTable(vm, pages, roots, owner, root, level, i, t);
    assert (512 * i + k) / 512 == i && (512 * i + k) % 512 == k;
  }

  // While everything from a level on stays, a node's entries stay.
  lemma RowKept(vm: Vm, vm1: Vm, pages: set<nat>, roots: map<nat, nat>, owner: map<nat, Slot>, owner1: map<nat, Slot>,
                root: nat, level: nat, i: nat, t: nat)
    requires Owned(vm, pages, roots, owner) && Owned(vm1, pages, roots, owner1) && root in roots && 1 <= level
    requires IsNode(vm, root, level, i, t) && SameAbove(vm, vm1, roots, root, level - 1)
    ensures IsNode(vm1, root, level, i, t) && t in vm.tables && t in vm1.tables && vm1.tables[t] == vm.tables[t]
  {
    NodeIsTable(vm, pages, roots, owner, root, level, i, t);
    assert IsNode(vm1, root, level, i, t);
    NodeIsTable(vm1, pages, roots, owner1, root, level, i, t);
    forall k | 0 <= k < ENTRIES ensures vm1.tables[t][k] == vm.tables[t][k] {
      assert At(vm1, root, level, 512 * i + k) == At(vm, root, level, 512 * i + k);
    }
  }

  // vm1 before the child's subtree was freed, vm2 after it: then the child goes.
  lemma ChildFreed(vm0: Vm, owner0: map<nat, Slot>, vm1: Vm, vm2: Vm, pages: set<nat>, roots: map<nat, nat>,
                   owner1: map<nat, Slot>, owner2: map<nat, Slot>, root: nat, level: nat, i: nat, t: nat, k: nat, next: nat, c: nat)
    requires FirstFreed(vm0, owner0, vm1, pages, roots, owner1, root, level, i, t, k)
    requires Owned(vm2, pages, roots, owner2) && root in roots && k < ENTRIES && next == k + 1 && 1 <= level
    requires SameAbove(vm1, vm2, roots, root, level - 1) && NoLeaves(vm2, root) && Shrinks(owner1, owner2)
    requires 512 * i + k < Span(level) && At(vm1, root, level, 512 * i + k) == vm1.tables[t][k]
    requires vm1.tables[t][k].v && vm1.tables[t][k].ppn == c && EmptyTable(vm2, c)
    ensures t in vm2.tables && |vm2.tables[t]| == ENTRIES && t != c
    ensures FirstFreed(vm0, owner0, Dropped(vm2, t, k, c), pages, roots, owner2 - {c}, root, level, i, t, next)
  {
    ChildGone(vm0, vm1, vm2, pages, roots, owner1, owner2, root, level, i, t, k, c);
    RowCleared(vm1, vm2, t, k, next, c);
    ShrinksTwice(owner0, owner1, owner2, c);
  }

  lemma ShrinksTwice(owner0: map<nat, Slot>, owner1: map<nat, Slot>, owner2: map<nat, Slot>, c: nat)
    requires Shrinks(owner0, owner1) && Shrinks(owner1, owner2)
    ensures Shrinks(owner0, owner2 - {c})
  {
  }

  lemma RowCleared(vm1: Vm, vm2: Vm, t: nat, k: nat, next: nat, c: nat)
    requires t in vm1.tables && t in vm2.tables && vm2.tables[t] == vm1.tables[t] && |vm1.tables[t]| == ENTRIES && t != c
    requires k < ENTRIES && next == k + 1 && forall x :: 0 <= x < k && x < ENTRIES ==> !vm1.tables[t][x].v
    ensures var vm3 := Dropped(vm2, t, k, c);
            && t in vm3.tables && |vm3.tables[t]| == ENTRIES
            && forall x :: 0 <= x < next && x < ENTRIES ==> !vm3.tables[t][x].v
  {
  }

  lemma ChildGone(vm0: Vm, vm1: Vm, vm2: Vm, pages: set<nat>, roots: map<nat, nat>, owner1: map<nat, Slot>, owner2: map<nat, Slot>,
                  root: nat, level: nat, i: nat, t: nat, k: nat, c: nat)
    requires Owned(vm1, pages, roots, owner1) && Owned(vm2, pages, roots, owner2) && root in roots && k < ENTRIES
    requires 1 <= level && IsNode(vm1, root, level, i, t) && t in vm1.tables && |vm1.tables[t]| == ENTRIES
    requires SameAbove(vm0, vm1, roots, root, level) && SameAbove(vm1, vm2, roots, root, level - 1) && NoLeaves(vm2, root)
    requires 512 * i + k < Span(level) && At(vm1, root, level, 512 * i + k) == vm1.tables[t][k]
    requires vm1.tables[t][k].v && vm1.tables[t][k].ppn == c && EmptyTable(vm2, c)
    ensures t in vm2.tables && |vm2.tables[t]| == ENTRIES && vm2.tables[t] == vm1.tables[t] && t != c
    ensures var vm3 := Dropped(vm2, t, k, c);
            && Owned(vm3, pages, roots, owner2 - {c}) && SameAbove(vm0, vm3, roots, root, level)
            && NoLeaves(vm3, root) && IsNode(vm3, root, level, i, t)
  {
    RowKept(vm1, vm2, pages, roots, owner1, owner2, root, level, i, t);
    assert At(vm2, root, level, 512 * i + k) == At(vm1, root, level, 512 * i + k);
    ChildDropped(vm2, pages, roots, owner2, root, level, i, t, k);
    DropKeeps(vm2, pages, roots, owner2, root, level, i, t, k);
    AboveTwice(vm1, vm2, Dropped(vm2, t, k, c), roots, root, level);
    AboveTrans(vm0, vm1, Dropped(vm2, t, k, c), roots, root, level);
  }

  // The first k entries of page t are clear, and nothing above or elsewhere changed.
  ghost predicate FirstFreed(vm0: Vm, owner0: map<nat, Slot>, vm: Vm, pages: set<nat>, roots: map<nat, nat>, owner: map<nat, Slot>,
                             root: nat, level: nat, i: nat, t: nat, k: nat) {
    && Owned(vm, pages, roots, owner) && t in vm.tables && IsNode(vm, root, level, i, t) && NoLeaves(vm, root)
    && |vm.tables[t]| == ENTRIES && (forall x :: 0 <= x < k && x < ENTRIES ==> !vm.tables[t][x].v)
    && SameAbove(vm0, vm, roots, root, level) && Shrinks(owner0, owner)
  }

  lemma AboveTrans(vm: Vm, vm1: Vm, vm2: Vm, roots: map<nat, nat>, root: nat, level: nat)
    requires SameAbove(vm, vm1, roots, root, level) && SameAbove(vm1, vm2, roots, root, level)
    ensures SameAbove(vm, vm2, roots, root, level)
  {
    forall root', l, i | root' in roots && 0 <= l <= 2 && 0 <= i < Span(l) && (root' != root || l > level)
      ensures At(vm2, root', l, i) == At(vm, root', l, i)
    {
      assert At(vm1, root', l, i) == At(vm, root', l, i);
    }
  }

  lemma ChildDropped(vm: Vm, pages: set<nat>, roots: map<nat, nat>, owner: map<nat, Slot>, root: nat, level: nat, i: nat, t: nat, k: nat)
    requires Owned(vm, pages, roots, owner) && root in roots && IsNode(vm, root, level, i, t)
    requires k < ENTRIES && 1 <= level && 512 * i + k < Span(level)
    requires At(vm, root, level, 512 * i + k).v && EmptyTable(vm, At(vm, root, level, 512 * i + k).ppn)
    ensures t in vm.tables && |vm.tables[t]| == ENTRIES && t != At(vm, root, level, 512 * i + k).ppn
    ensures var c := At(vm, root, level, 512 * i + k).ppn;
            Owned(Dropped(vm, t, k, c), pages, roots, owner - {c})
  {
    assert (512 * i + k) / 512 == i && (512 * i + k) % 512 == k;
    DropOwned(vm, pages, roots, owner, root, level, 512 * i + k);
  }

  lemma DropKeeps(vm: Vm, pages: set<nat>, roots: map<nat, nat>, owner: map<nat, Slot>, root: nat, level: nat, i: nat, t: nat, k: nat)
    requires Owned(vm, pages, roots, owner) && root in roots && IsNode(vm, root, level, i, t) && NoLeaves(vm, root)
    requires k < ENTRIES && 1 <= level && 512 * i + k < Span(level)
    requires At(vm, root, level, 512 * i + k).v && EmptyTable(vm, At(vm, root, level, 512 * i + k).ppn)
    requires t in vm.tables && |vm.tables[t]| == ENTRIES && t != At(vm, root, level, 512 * i + k).ppn
    ensures var vm' := Dropped(vm, t, k, At(vm, root, level, 512 * i + k).ppn);
            SameAbove(vm, vm', roots, root, level) && NoLeaves(vm', root) && IsNode(vm', root, level, i, t)
  {
    var j := 512 * i + k;
    assert j / 512 == i && j % 512 == k;
    var vm' := Dropped(vm, t, k, At(vm, root, level, j).ppn);
    forall root', l, x | root' in roots && 0 <= l <= 2 && 0 <= x < Span(l) && (root' != root || l > level)
      ensures At(vm', root', l, x) == At(vm, root', l, x)
    {
      DropChange(vm, pages, roots, owner, root, level, j, root', l, x);
    }
    forall x | 0 <= x < Span(0) ensures !At(vm', root, 0, x).v {
      DropChange(vm, pages, roots, owner, root, level, j, root, 0, x);
    }
  }

  // First page number at or above byte address sz: PGROUNDUP(sz) / PGSIZE.
  function PgUp(sz: nat): nat {
    (sz + PGSIZE - 1) / PGSIZE
  }

  function ZeroPage(): (r: seq<Byte>)
    ensures |r| == PGSIZE
  {
    seq(PGSIZE, _ => 0)
  }

  lemma PgUpMonotone(a: nat, b: nat)
    ensures a <= b ==> PgUp(a) <= PgUp(b)
  {
  }

  // The frames from lo up to the lesser of two numbers have no owner.
  ghost predicate FreeRow(vm: Vm, owner: map<nat, Slot>, lo: nat, hi: int, hi': int) {
    forall p :: lo <= p < hi && p < hi' ==> FreeFrame(vm, owner, p)
  }

  ghost predicate Vacant(vm: Vm, root: nat, lo: nat, hi: nat) {
    forall i :: lo <= i < hi ==> !At(vm, root, 0, i).v
  }

  ghost predicate Mapped(vm: Vm, root: nat, lo: nat, hi: nat) {
    forall i :: lo <= i < hi ==> At(vm, root, 0, i).v
  }

  // The same virtual pages are mapped, to the same place.
  ghost predicate SameMapping(vm: Vm, vm': Vm, roots: map<nat, nat>) {
    forall root, i :: root in roots && 0 <= i < Span(0) ==>
      && (At(vm', root, 0, i).v <==> At(vm, root, 0, i).v)
      && (At(vm, root, 0, i).v ==> At(vm', root, 0, i) == At(vm, root, 0, i))
  }

  /** Since vm0, root's pages lo..hi have been mapped, each to a frame of its own, and
      apart from those frames and page-table pages nothing was added or changed. */
  ghost predicate Grown(vm0: Vm, owner0: map<nat, Slot>, vm: Vm, owner: map<nat, Slot>, roots: map<nat, nat>, root: nat, lo: nat, hi: nat) {
    && LeavesExcept(vm0, vm, roots, root, lo, hi)
    && (forall i :: lo <= i < hi ==>
          At(vm, root, 0, i).v && At(vm, root, 0, i).ppn in vm.frames && At(vm, root, 0, i).ppn !in vm0.frames)
    && GrownFrames(vm0.frames, owner0, vm.frames, owner, root, lo, hi)
  }

  lemma TakenBack(frames: map<nat, seq<Byte>>, p: nat, content: seq<Byte>)
    requires p !in frames
    ensures frames[p := content] - {p} == frames
  {
  }

  ghost predicate GrownFrames(frames0: map<nat, seq<Byte>>, owner0: map<nat, Slot>, frames: map<nat, seq<Byte>>, owner: map<nat, Slot>,
                              root: nat, lo: nat, hi: nat) {
    && (forall p :: p in frames0 ==> p in frames && frames[p] == frames0[p])
    && (forall p :: p in frames && p !in frames0 ==> InRange(owner, p, root, lo, hi))
    && (forall p :: p in owner0 ==> p in owner && owner[p] == owner0[p])
    && (forall p :: p in owner && p !in owner0 ==> owner[p].level > 0 || (InRange(owner, p, root, lo, hi) && p !in frames0))
  }

  ghost predicate Filled(vm: Vm, root: nat, lo: nat, hi: nat, flags: Pte, content: seq<Byte>) {
    forall i :: lo <= i < hi ==>
      && At(vm, root, 0, i) == flags.(ppn := At(vm, root, 0, i).ppn)
      && At(vm, root, 0, i).ppn in vm.frames && vm.frames[At(vm, root, 0, i).ppn] == content
  }

  lemma GrownNothing(vm: Vm, owner: map<nat, Slot>, roots: map<nat, nat>, root: nat, lo: nat)
    ensures Grown(vm, owner, vm, owner, roots, root, lo, lo)
  {
  }

  // AddPage at the end of the stretch.
  lemma GrownMore(vm0: Vm, owner0: map<nat, Slot>, vm1: Vm, owner1: map<nat, Slot>, vm2: Vm, owner2: map<nat, Slot>,
                  roots: map<nat, nat>, root: nat, lo: nat, a: nat, next: nat)
    requires Grown(vm0, owner0, vm1, owner1, roots, root, lo, a) && lo <= a < Span(0) && next == a + 1 && root in roots
    requires At(vm2, root, 0, a).v && LeavesExcept(vm1, vm2, roots, root, a, a + 1)
    requires var p := At(vm2, root, 0, a).ppn;
             && p !in vm1.frames && p !in owner1 && p in vm2.frames && vm2.frames == vm1.frames[p := vm2.frames[p]]
             && OwnerGrows(owner1[p := Slot(root, 0, a)], owner2)
    ensures Grown(vm0, owner0, vm2, owner2, roots, root, lo, next)
  {
    ExceptThenExcept(vm0, vm1, vm2, roots, root, lo, a, next);
    forall i | lo <= i < a
      ensures At(vm2, root, 0, i).v && At(vm2, root, 0, i).ppn in vm2.frames && At(vm2, root, 0, i).ppn !in vm0.frames
    {
      assert At(vm2, root, 0, i) == At(vm1, root, 0, i);
    }
    var p := At(vm2, root, 0, a).ppn;
    FramesGrownMore(vm0.frames, owner0, vm1.frames, owner1, vm2.frames, owner2, root, lo, a, next, p);
  }

  lemma FramesGrownMore(frames0: map<nat, seq<Byte>>, owner0: map<nat, Slot>, frames1: map<nat, seq<Byte>>, owner1: map<nat, Slot>,
                        frames2: map<nat, seq<Byte>>, owner2: map<nat, Slot>, root: nat, lo: nat, a: nat, next: nat, p: nat)
    requires GrownFrames(frames0, owner0, frames1, owner1, root, lo, a) && lo <= a && next == a + 1
    requires p !in frames1 && p !in owner1 && p in frames2 && frames2 == frames1[p := frames2[p]]
    requires OwnerGrows(owner1[p := Slot(root, 0, a)], owner2)
    ensures GrownFrames(frames0, owner0, frames2, owner2, root, lo, next)
  {
    assert owner2[p] == owner1[p := Slot(root, 0, a)][p];
    forall q | q in owner1 && InRange(owner1, q, root, lo, a) ensures InRange(owner2, q, root, lo, next) {
      assert owner2[q] == owner1[q := owner1[q]][q];
    }
  }

  // A round that failed.
  lemma GrownSame(vm0: Vm, owner0: map<nat, Slot>, vm1: Vm, owner1: map<nat, Slot>, vm2: Vm, owner2: map<nat, Slot>,
                  roots: map<nat, nat>, root: nat, lo: nat, a: nat)
    requires Grown(vm0, owner0, vm1, owner1, roots, root, lo, a) && a <= Span(0) && root in roots
    requires SameLeaves(vm1, vm2, roots) && vm2.frames == vm1.frames && OwnerGrows(owner1, owner2)
    ensures Grown(vm0, owner0, vm2, owner2, roots, root, lo, a)
  {
    forall i | lo <= i < a
      ensures At(vm2, root, 0, i).v && At(vm2, root, 0, i).ppn in vm2.frames && At(vm2, root, 0, i).ppn !in vm0.frames
    {
      assert At(vm2, root, 0, i) == At(vm1, root, 0, i);
    }
  }

  lemma FilledMore(vm1: Vm, vm2: Vm, roots: map<nat, nat>, root: nat, lo: nat, a: nat, next: nat, flags: Pte, content: seq<Byte>)
    requires Filled(vm1, root, lo, a, flags, content) && lo <= a < Span(0) && next == a + 1 && root in roots
    requires LeavesExcept(vm1, vm2, roots, root, a, a + 1)
    requires var p := At(vm2, root, 0, a).ppn;
             At(vm2, root, 0, a) == flags.(ppn := p) && vm2.frames == vm1.frames[p := content] && p !in vm1.frames
    ensures Filled(vm2, root, lo, next, flags, content)
  {
    forall i | lo <= i < a ensures At(vm2, root, 0, i) == At(vm1, root, 0, i) {
    }
  }

  ghost predicate Copied(vm0: Vm, vm: Vm, src: nat, dst: nat, n: nat) {
    forall i :: 0 <= i < n ==>
      && At(vm, dst, 0, i) == At(vm0, src, 0, i).(ppn := At(vm, dst, 0, i).ppn)
      && At(vm, dst, 0, i).ppn in vm.frames && At(vm0, src, 0, i).ppn in vm0.frames
      && vm.frames[At(vm, dst, 0, i).ppn] == vm0.frames[At(vm0, src, 0, i).ppn]
  }

  lemma CopiedMore(vm0: Vm, vm1: Vm, vm2: Vm, roots: map<nat, nat>, src: nat, dst: nat, a: nat, next: nat)
    requires Copied(vm0, vm1, src, dst, a) && a < Span(0) && next == a + 1 && dst in roots && At(vm0, src, 0, a).ppn in vm0.frames
    requires LeavesExcept(vm1, vm2, roots, dst, a, a + 1)
    requires var p := At(vm2, dst, 0, a).ppn;
             && At(vm2, dst, 0, a) == At(vm0, src, 0, a).(ppn := p) && p !in vm1.frames
             && vm2.frames == vm1.frames[p := vm0.frames[At(vm0, src, 0, a).ppn]]
    ensures Copied(vm0, vm2, src, dst, next)
  {
    forall i | 0 <= i < a ensures At(vm2, dst, 0, i) == At(vm1, dst, 0, i) {
    }
  }

  // Unmapping what was added restores the mapping and the frames.
  lemma Undone(vm0: Vm, owner0: map<nat, Slot>, vm1: Vm, owner1: map<nat, Slot>, vm2: Vm,
               pages: set<nat>, roots: map<nat, nat>, root: nat, lo: nat, hi: nat)
    requires Owned(vm0, pages, roots, owner0) && root in roots && lo <= hi <= Span(0)
    requires Vacant(vm0, root, lo, hi)
    requires Grown(vm0, owner0, vm1, owner1, roots, root, lo, hi)
    requires LeavesExcept(vm1, vm2, roots, root, lo, hi) && forall i :: lo <= i < hi ==> !At(vm2, root, 0, i).v
    requires vm2.frames == FramesExcept(vm1.frames, owner1, root, lo, hi)
    ensures SameMapping(vm0, vm2, roots) && vm2.frames == vm0.frames
  {
    forall p | p in vm0.frames ensures !InRange(owner1, p, root, lo, hi) {
      if p in owner0 {
        assert OwnerOk(vm0, roots, owner0, p);
      }
    }
    forall root', i | root' in roots && 0 <= i < Span(0)
      ensures At(vm2, root', 0, i).v <==> At(vm0, root', 0, i).v
      ensures At(vm0, root', 0, i).v ==> At(vm2, root', 0, i) == At(vm0, root', 0, i)
    {
      if !(root' == root && lo <= i < hi) {
        assert At(vm1, root', 0, i) == At(vm0, root', 0, i);
      }
    }
  }

  lemma AllocatedLeaves(vm: Vm, junk: seq<Byte>, roots: map<nat, nat>)
    requires vm.free != []
    ensures SameLeaves(vm, Allocated(vm, junk), roots)
  {
    forall root, i | root in roots && 0 <= i < Span(0) ensures At(Allocated(vm, junk), root, 0, i) == At(vm, root, 0, i) {
      SameTables(vm, Allocated(vm, junk), root, 0, i);
    }
  }

  lemma FreedLeaves(vm: Vm, p: nat, roots: map<nat, nat>)
    ensures SameLeaves(vm, Freed(vm, p), roots)
  {
    forall root, i | root in roots && 0 <= i < Span(0) ensures At(Freed(vm, p), root, 0, i) == At(vm, root, 0, i) {
      SameTables(vm, Freed(vm, p), root, 0, i);
    }
  }

  ghost predicate InRange(owner: map<nat, Slot>, p: nat, root: nat, lo: nat, hi: nat) {
    p in owner && owner[p].root == root && owner[p].level == 0 && lo <= owner[p].i < hi
  }

  // Owners and frames without those of root's pages lo..hi.
  ghost function OwnersExcept(owner: map<nat, Slot>, root: nat, lo: nat, hi: nat): map<nat, Slot> {
    map p | p in owner && !InRange(owner, p, root, lo, hi) :: owner[p]
  }

  ghost function FramesExcept(frames: map<nat, seq<Byte>>, owner: map<nat, Slot>, root: nat, lo: nat, hi: nat): map<nat, seq<Byte>> {
    map p | p in frames && !InRange(owner, p, root, lo, hi) :: frames[p]
  }

  lemma NoneRemoved(owner: map<nat, Slot>, frames: map<nat, seq<Byte>>, root: nat, lo: nat)
    ensures OwnersExcept(owner, root, lo, lo) == owner && FramesExcept(frames, owner, root, lo, lo) == frames
  {
  }

  lemma OneMoreRemoved(vm: Vm, pages: set<nat>, roots: map<nat, nat>, owner: map<nat, Slot>, root: nat, lo: nat, a: nat, next: nat)
    requires Owned(vm, pages, roots, owner) && root in roots && lo <= a < Span(0) && next == a + 1 && At(vm, root, 0, a).v
    ensures var f := At(vm, root, 0, a).ppn;
            if a < roots[root] then
              && OwnersExcept(owner, root, lo, next) == OwnersExcept(owner, root, lo, a) - {f}
              && FramesExcept(vm.frames, owner, root, lo, next) == FramesExcept(vm.frames, owner, root, lo, a) - {f}
            else
              && OwnersExcept(owner, root, lo, next) == OwnersExcept(owner, root, lo, a)
              && FramesExcept(vm.frames, owner, root, lo, next) == FramesExcept(vm.frames, owner, root, lo, a)
  {
    assert PteOk(vm, roots, owner, root, 0, a);
    var f := At(vm, root, 0, a).ppn;
    forall p ensures InRange(owner, p, root, lo, next) <==> InRange(owner, p, root, lo, a) || (a < roots[root] && p == f) {
      assert p in owner ==> OwnerOk(vm, roots, owner, p);
    }
    RangesDiffer(owner, vm.frames, root, lo, a, next, if a < roots[root] then {f} else {});
  }

  lemma RangesDiffer(owner: map<nat, Slot>, frames: map<nat, seq<Byte>>, root: nat, lo: nat, a: nat, next: nat, fs: set<nat>)
    requires forall p :: InRange(owner, p, root, lo, next) <==> InRange(owner, p, root, lo, a) || p in fs
    ensures OwnersExcept(owner, root, lo, next) == OwnersExcept(owner, root, lo, a) - fs
    ensures FramesExcept(frames, owner, root, lo, next) == FramesExcept(frames, owner, root, lo, a) - fs
  {
  }

  lemma StillUnmapped(vm1: Vm, vm2: Vm, roots: map<nat, nat>, root: nat, lo: nat, a: nat, next: nat)
    requires root in roots && a < Span(0) && next == a + 1 && LeavesExcept(vm1, vm2, roots, root, a, a + 1) && !At(vm2, root, 0, a).v
    requires Vacant(vm1, root, lo, a)
    ensures Vacant(vm2, root, lo, next)
  {
    forall i | lo <= i < a ensures !At(vm2, root, 0, i).v {
      assert At(vm2, root, 0, i) == At(vm1, root, 0, i);
    }
  }

  lemma ExceptThenExcept(vm: Vm, vm1: Vm, vm2: Vm, roots: map<nat, nat>, root: nat, lo: nat, a: nat, next: nat)
    requires lo <= a && next == a + 1
    requires LeavesExcept(vm, vm1, roots, root, lo, a) && LeavesExcept(vm1, vm2, roots, root, a, a + 1)
    ensures LeavesExcept(vm, vm2, roots, root, lo, next)
  {
  }

  // No translation differs except those of root's pages lo..hi.
  ghost predicate LeavesExcept(vm: Vm, vm': Vm, roots: map<nat, nat>, root: nat, lo: nat, hi: nat) {
    forall root', i :: root' in roots && 0 <= i < Span(0) && !(root' == root && lo <= i < hi) ==>
      At(vm', root', 0, i) == At(vm, root', 0, i)
  }

  lemma LeafChanges(vm: Vm, pages: set<nat>, roots: map<nat, nat>, owner: map<nat, Slot>, root: nat, i: nat, p: Pte)
    requires Owned(vm, pages, roots, owner) && root in roots && i < Span(0) && NodePte(vm, root, 0, i).v
    ensures var t := NodePte(vm, root, 0, i).ppn;
            && t in vm.tables && |vm.tables[t]| == ENTRIES
            && At(WithPte(vm, t, i % 512, p), root, 0, i) == p
            && LeavesExcept(vm, WithPte(vm, t, i % 512, p), roots, root, i, i + 1)
  {
    LeafChange(vm, pages, roots, owner, root, i, p, root, 0, i);
    var vm' := WithPte(vm, NodePte(vm, root, 0, i).ppn, i % 512, p);
    forall root', i' | root' in roots && 0 <= i' < Span(0) && !(root' == root && i <= i' < i + 1)
      ensures At(vm', root', 0, i') == At(vm, root', 0, i')
    {
      LeafChange(vm, pages, roots, owner, root, i, p, root', 0, i');
    }
  }

  lemma SameThenExcept(vm: Vm, vm1: Vm, vm2: Vm, roots: map<nat, nat>, root: nat, lo: nat, hi: nat)
    requires SameLeaves(vm, vm1, roots) && LeavesExcept(vm1, vm2, roots, root, lo, hi)
    ensures LeavesExcept(vm, vm2, roots, root, lo, hi)
  {
  }

  lemma GrowsWith(owner: map<nat, Slot>, owner': map<nat, Slot>, p: nat, s: Slot)
    requires OwnerGrows(owner, owner') && p !in owner'
    ensures OwnerGrows(owner[p := s], owner'[p := s])
  {
  }

  // Freeing the frame does not touch the tables.
  lemma UnmappedLeaves(vm: Vm, t: nat, k: nat, f: nat, doFree: bool, roots: map<nat, nat>)
    requires t in vm.tables && k < |vm.tables[t]|
    ensures SameLeaves(WithPte(vm, t, k, INVALID), Unmapped(vm, t, k, f, doFree), roots)
  {
    var a, b := WithPte(vm, t, k, INVALID), Unmapped(vm, t, k, f, doFree);
    forall root, i | root in roots && 0 <= i < Span(0) ensures At(b, root, 0, i) == At(a, root, 0, i) {
      SameTables(a, b, root, 0, i);
    }
  }

  // A frame without an owner does not get one while page-table pages are added.
  lemma StillFree(vm: Vm, owner: map<nat, Slot>, owner': map<nat, Slot>, pages: set<nat>, roots: map<nat, nat>, p: nat)
    requires Owned(vm, pages, roots, owner') && OwnerGrows(owner, owner')
    ensures FreeFrame(vm, owner, p) ==> FreeFrame(vm, owner', p)
  {
    if p in owner' && p !in owner {
      assert OwnerOk(vm, roots, owner', p) && PteOk(vm, roots, owner', owner'[p].root, owner'[p].level, owner'[p].i);
    }
  }

  // Pages keep their owners.
  ghost predicate OwnerGrows(owner: map<nat, Slot>, owner': map<nat, Slot>) {
    && (forall p :: p in owner ==> p in owner' && owner'[p] == owner[p])
    && (forall p :: p in owner' && p !in owner ==> owner'[p].level > 0)
  }

  lemma HolderIsTable(vm: Vm, pages: set<nat>, roots: map<nat, nat>, owner: map<nat, Slot>, root: nat, level: nat, i: nat)
    requires Owned(vm, pages, roots, owner) && root in roots && level <= 2 && i < Span(level)
    requires level < 2 ==> NodePte(vm, root, level, i).v
    ensures var h := Holder(vm, root, level, i);
            h in vm.tables && |vm.tables[h]| == ENTRIES && vm.tables[h][i % 512] == At(vm, root, level, i)
  {
    if level < 2 {
      assert PteOk(vm, roots, owner, root, level + 1, i / 512);
    }
  }

  lemma LinkSameLeaves(vm: Vm, pages: set<nat>, roots: map<nat, nat>, owner: map<nat, Slot>, root: nat, level: nat, i: nat, n: nat)
    requires Owned(vm, pages, roots, owner) && root in roots
    requires 1 <= level <= 2 && i < Span(level)
    requires level == 1 ==> NodePte(vm, root, 1, i).v
    requires !At(vm, root, level, i).v && vm.free != [] && n == vm.free[0]
    ensures Holder(vm, root, level, i) in vm.tables && |vm.tables[Holder(vm, root, level, i)]| == ENTRIES
    ensures SameLeaves(vm, Linked(vm, Holder(vm, root, level, i), i % 512, n), roots)
  {
    HolderIsTable(vm, pages, roots, owner, root, level, i);
    forall root', i' | root' in roots && 0 <= i' < Span(0)
      ensures At(Linked(vm, Holder(vm, root, level, i), i % 512, n), root', 0, i') == At(vm, root', 0, i')
    {
      LinkLeaf(vm, pages, roots, owner, root, level, i, n, root', i');
    }
  }
}
