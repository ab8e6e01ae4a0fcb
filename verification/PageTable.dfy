/** Sv39 page tables over physical pages, and who owns each page.

    Pages are numbered.  A page is on the free list, is a page-table page of 512 PTEs,
    or is a frame of bytes.  The PTEs of a table are addressed by (level, index): index
    i at level 2 is entry i of the root, (1, i) is entry i % 512 of the page that
    (2, i / 512) points to, and (0, i) is the PTE of virtual page i. */
module PageTable {
  import opened Basics

  const PGSIZE := 4096
  const ENTRIES := 512
  // Virtual pages below MAXVA = 2^38.
  const MAXVPN := 0x400_0000

  datatype Pte = Pte(ppn: nat, v: bool, r: bool, w: bool, x: bool, u: bool) {
    predicate Leaf() {
      r || w || x
    }
  }

  const INVALID := Pte(0, false, false, false, false, false)

  datatype Vm = Vm(free: seq<nat>, tables: map<nat, seq<Pte>>, frames: map<nat, seq<Byte>>)

  datatype Slot = Slot(root: nat, level: nat, i: nat)

  // ---- Reading PTEs ------------------------------------------------------------------

  // Entry k of the table that p points to.
  function Sub(vm: Vm, p: Pte, k: nat): Pte {
    if p.v then Entry(vm, p.ppn, k) else INVALID
  }

  function Entry(vm: Vm, t: nat, k: nat): Pte {
    if t in vm.tables && k < |vm.tables[t]| then vm.tables[t][k] else INVALID
  }

  function Span(level: nat): nat {
    if level == 2 then 0x200 else if level == 1 then 0x4_0000 else 0x800_0000
  }

  function At(vm: Vm, root: nat, level: nat, i: nat): Pte
    requires level <= 2
  {
    if level == 2 then Entry(vm, root, i)
    else if level == 1 then Sub(vm, Entry(vm, root, i / 512), i % 512)
    else Sub(vm, Sub(vm, Entry(vm, root, i / 512 / 512), i / 512 % 512), i % 512)
  }

  // The table page that holds the PTE (level, i), if there is one.
  function NodePte(vm: Vm, root: nat, level: nat, i: nat): Pte
    requires level < 2
  {
    At(vm, root, level + 1, i / 512)
  }

  /** Who owns what.  Every valid non-leaf PTE points to a page-table page that no other
      PTE points to; every leaf of a root below roots[root] points to a frame that no other
      such leaf points to; every page-table page is a root or is pointed to; and free list,
      table pages and frames partition the allocatable pages.  Leaves from there on map
      pages the table does not own: a user table's trampoline and trapframe, and everything
      in the kernel's table, where roots[root] is 0. */
  ghost predicate Owned(vm: Vm, pages: set<nat>, roots: map<nat, nat>, owner: map<nat, Slot>) {
    && Partition(vm, pages)
    && (forall t :: t in vm.tables ==> |vm.tables[t]| == ENTRIES)
    && (forall t :: t in roots ==> t in vm.tables && t !in owner)
    && (forall t :: t in vm.tables ==> t in roots || t in owner)
    && (forall root, level, i {:trigger PteOk(vm, roots, owner, root, level, i)} ::
          root in roots && 0 <= level <= 2 && 0 <= i < Span(level) && At(vm, root, level, i).v ==> PteOk(vm, roots, owner, root, level, i))
    && (forall p {:trigger OwnerOk(vm, roots, owner, p)} :: p in owner ==> OwnerOk(vm, roots, owner, p))
  }

  // The PTE that a page belongs to points to it.
  ghost predicate OwnerOk(vm: Vm, roots: map<nat, nat>, owner: map<nat, Slot>, p: nat)
    requires p in owner
  {
    var s := owner[p];
    && s.root in roots && s.level <= 2 && s.i < Span(s.level)
    && (s.level == 0 ==> s.i < roots[s.root])
    && At(vm, s.root, s.level, s.i).v && At(vm, s.root, s.level, s.i).ppn == p
  }

  ghost predicate PteOk(vm: Vm, roots: map<nat, nat>, owner: map<nat, Slot>, root: nat, level: nat, i: nat)
    requires level <= 2 && root in roots
  {
    var p := At(vm, root, level, i);
    if level == 0 then p.Leaf() && (i < roots[root] ==> p.ppn in vm.frames && p.ppn in owner && owner[p.ppn] == Slot(root, 0, i))
    else !p.Leaf() && p.ppn in vm.tables && p.ppn in owner && owner[p.ppn] == Slot(root, level, i)
  }

  ghost predicate Partition(vm: Vm, pages: set<nat>) {
    && (forall i, j :: 0 <= i < j < |vm.free| ==> vm.free[i] != vm.free[j])
    && (forall p :: p in vm.free ==> p !in vm.tables && p !in vm.frames)
    && (forall p :: p in vm.tables ==> p !in vm.frames)
    && (forall p :: p in pages <==> p in vm.free || p in vm.tables || p in vm.frames)
  }

  // ---- Changing one PTE ------------------------------------------------------------------

  function WithPte(vm: Vm, t: nat, k: nat, p: Pte): Vm
    requires t in vm.tables && k < |vm.tables[t]|
  {
    vm.(tables := vm.tables[t := vm.tables[t][k := p]])
  }

  // The table page of a PTE is reached from that PTE's position only.
  lemma NodeUnique(vm: Vm, pages: set<nat>, roots: map<nat, nat>, owner: map<nat, Slot>,
                   t: nat, root: nat, level: nat, i: nat, root': nat, level': nat, i': nat)
    requires Owned(vm, pages, roots, owner) && root in roots && root' in roots
    requires level < 2 && level' < 2 && i < Span(level) && i' < Span(level')
    requires NodePte(vm, root, level, i).v && NodePte(vm, root', level', i').v
    requires NodePte(vm, root, level, i).ppn == NodePte(vm, root', level', i').ppn == t
    ensures root == root' && level == level' && i / 512 == i' / 512
  {
    assert PteOk(vm, roots, owner, root, level + 1, i / 512);
    assert PteOk(vm, roots, owner, root', level' + 1, i' / 512);
  }

  // Changing the PTE of virtual page i changes no other PTE, of this or another table.
  lemma LeafChange(vm: Vm, pages: set<nat>, roots: map<nat, nat>, owner: map<nat, Slot>,
                   root: nat, i: nat, p: Pte, root': nat, level': nat, i': nat)
    requires Owned(vm, pages, roots, owner) && root in roots && root' in roots
    requires i < Span(0) && level' <= 2 && i' < Span(level')
    requires NodePte(vm, root, 0, i).v
    ensures var t := NodePte(vm, root, 0, i).ppn;
            && t in vm.tables && |vm.tables[t]| == ENTRIES
            && At(WithPte(vm, t, i % 512, p), root', level', i')
               == if (root', level', i') == (root, 0, i) then p else At(vm, root', level', i')
  {
    var t := NodePte(vm, root, 0, i).ppn;
    assert PteOk(vm, roots, owner, root, 1, i / 512);
    var vm' := WithPte(vm, t, i % 512, p);
    assert t !in roots;
    assert forall k :: Entry(vm', root', k) == Entry(vm, root', k);
    if level' < 2 {
      var q := Entry(vm, root', if level' == 1 then i' / 512 else i' / 512 / 512);
      assert q == At(vm, root', 2, if level' == 1 then i' / 512 else i' / 512 / 512);
      if q.v {
        assert PteOk(vm, roots, owner, root', 2, if level' == 1 then i' / 512 else i' / 512 / 512);
        assert q.ppn != t;
      }
      if level' == 0 {
        var n := NodePte(vm, root', 0, i');
        assert NodePte(vm', root', 0, i') == n;
        if n.v && n.ppn == t {
          NodeUnique(vm, pages, roots, owner, t, root, 0, i, root', 0, i');
        }
      }
    }
  }

  // ---- Mapping and unmapping a virtual page ---------------------------------------------

  ghost predicate FreeFrame(vm: Vm, owner: map<nat, Slot>, p: nat) {
    p in vm.frames && p !in owner
  }

  // mappages storing the PTE of virtual page i.
  lemma MapLeaf(vm: Vm, pages: set<nat>, roots: map<nat, nat>, owner: map<nat, Slot>, root: nat, i: nat, p: Pte)
    requires Owned(vm, pages, roots, owner) && root in roots && i < Span(0)
    requires NodePte(vm, root, 0, i).v && !At(vm, root, 0, i).v
    requires p.v && p.Leaf() && (i < roots[root] ==> FreeFrame(vm, owner, p.ppn))
    ensures var t := NodePte(vm, root, 0, i).ppn;
            && t in vm.tables && |vm.tables[t]| == ENTRIES
            && Owned(WithPte(vm, t, i % 512, p), pages, roots, if i < roots[root] then owner[p.ppn := Slot(root, 0, i)] else owner)
  {
    var t := NodePte(vm, root, 0, i).ppn;
    LeafChange(vm, pages, roots, owner, root, i, p, root, 0, i);
    var vm' := WithPte(vm, t, i % 512, p);
    forall root', level', i' | root' in roots && 0 <= level' <= 2 && 0 <= i' < Span(level')
      ensures At(vm', root', level', i') == if (root', level', i') == (root, 0, i) then p else At(vm, root', level', i')
    {
      LeafChange(vm, pages, roots, owner, root, i, p, root', level', i');
    }
    MappedOk(vm, vm', pages, roots, owner, root, i, t, p);
  }

  lemma MappedOk(vm: Vm, vm': Vm, pages: set<nat>, roots: map<nat, nat>, owner: map<nat, Slot>, root: nat, i: nat, t: nat, p: Pte)
    requires Owned(vm, pages, roots, owner) && root in roots && i < Span(0) && !At(vm, root, 0, i).v
    requires p.v && p.Leaf() && (i < roots[root] ==> FreeFrame(vm, owner, p.ppn)) && t in vm.tables && vm' == WithPte(vm, t, i % 512, p)
    requires forall root', level', i' :: root' in roots && 0 <= level' <= 2 && 0 <= i' < Span(level') ==>
               At(vm', root', level', i') == if (root', level', i') == (root, 0, i) then p else At(vm, root', level', i')
    ensures Owned(vm', pages, roots, if i < roots[root] then owner[p.ppn := Slot(root, 0, i)] else owner)
  {
    var owner' := if i < roots[root] then owner[p.ppn := Slot(root, 0, i)] else owner;
    forall root', level', i' | root' in roots && 0 <= level' <= 2 && 0 <= i' < Span(level') && At(vm', root', level', i').v
      ensures PteOk(vm', roots, owner', root', level', i')
    {
      assert At(vm, root', level', i').v ==> PteOk(vm, roots, owner, root', level', i');
    }
    forall q | q in owner' ensures OwnerOk(vm', roots, owner', q) {
      assert q in owner ==> OwnerOk(vm, roots, owner, q);
    }
  }

  // uvmunmap freeing the frame of virtual page i and clearing its PTE.
  function Unmapped(vm: Vm, t: nat, k: nat, f: nat, doFree: bool): Vm
    requires t in vm.tables && k < |vm.tables[t]|
  {
    var vm' := WithPte(vm, t, k, INVALID);
    if doFree then vm'.(free := [f] + vm.free, frames := vm.frames - {f}) else vm'
  }

  lemma UnmapLeaf(vm: Vm, pages: set<nat>, roots: map<nat, nat>, owner: map<nat, Slot>, root: nat, i: nat, doFree: bool)
    requires Owned(vm, pages, roots, owner) && root in roots && i < Span(0)
    requires NodePte(vm, root, 0, i).v && At(vm, root, 0, i).v && (doFree <==> i < roots[root])
    ensures var t, f := NodePte(vm, root, 0, i).ppn, At(vm, root, 0, i).ppn;
            && t in vm.tables && |vm.tables[t]| == ENTRIES
            && Owned(Unmapped(vm, t, i % 512, f, doFree), pages, roots, if doFree then owner - {f} else owner)
  {
    var t, f := NodePte(vm, root, 0, i).ppn, At(vm, root, 0, i).ppn;
    LeafChange(vm, pages, roots, owner, root, i, INVALID, root, 0, i);
    assert PteOk(vm, roots, owner, root, 0, i);
    var vm' := Unmapped(vm, t, i % 512, f, doFree);
    forall root', level', i' | root' in roots && 0 <= level' <= 2 && 0 <= i' < Span(level')
      ensures At(vm', root', level', i') == if (root', level', i') == (root, 0, i) then INVALID else At(vm, root', level', i')
    {
      LeafChange(vm, pages, roots, owner, root, i, INVALID, root', level', i');
      SameTables(WithPte(vm, t, i % 512, INVALID), vm', root', level', i');
    }
    UnmappedOk(vm, vm', pages, roots, owner, root, i, t, f, doFree);
  }

  lemma UnmappedOk(vm: Vm, vm': Vm, pages: set<nat>, roots: map<nat, nat>, owner: map<nat, Slot>, root: nat, i: nat, t: nat, f: nat, doFree: bool)
    requires Owned(vm, pages, roots, owner) && root in roots && i < Span(0) && At(vm, root, 0, i).v && At(vm, root, 0, i).ppn == f
    requires (doFree <==> i < roots[root]) && t in vm.tables && vm' == Unmapped(vm, t, i % 512, f, doFree)
    requires forall root', level', i' :: root' in roots && 0 <= level' <= 2 && 0 <= i' < Span(level') ==>
               At(vm', root', level', i') == if (root', level', i') == (root, 0, i) then INVALID else At(vm, root', level', i')
    ensures Owned(vm', pages, roots, if doFree then owner - {f} else owner)
  {
    var owner' := if doFree then owner - {f} else owner;
    assert PteOk(vm, roots, owner, root, 0, i);
    forall root', level', i' | root' in roots && 0 <= level' <= 2 && 0 <= i' < Span(level') && At(vm', root', level', i').v
      ensures PteOk(vm', roots, owner', root', level', i')
    {
      assert PteOk(vm, roots, owner, root', level', i');
    }
    UnmappedOwners(vm, vm', roots, owner, owner', root, i, f, doFree);
  }

  lemma UnmappedOwners(vm: Vm, vm': Vm, roots: map<nat, nat>, owner: map<nat, Slot>, owner': map<nat, Slot>, root: nat, i: nat, f: nat, doFree: bool)
    requires root in roots && i < Span(0) && At(vm, root, 0, i).ppn == f && (doFree <==> i < roots[root])
    requires forall p {:trigger OwnerOk(vm, roots, owner, p)} :: p in owner ==> OwnerOk(vm, roots, owner, p)
    requires owner' == if doFree then owner - {f} else owner
    requires forall root', level', i' :: root' in roots && 0 <= level' <= 2 && 0 <= i' < Span(level') ==>
               At(vm', root', level', i') == if (root', level', i') == (root, 0, i) then INVALID else At(vm, root', level', i')
    ensures forall p {:trigger OwnerOk(vm', roots, owner', p)} :: p in owner' ==> OwnerOk(vm', roots, owner', p)
  {
    forall q | q in owner' ensures OwnerOk(vm', roots, owner', q) {
      assert OwnerOk(vm, roots, owner, q);
    }
  }

  // ---- Adding a page-table page ------------------------------------------------------------

  function ZeroTable(): (r: seq<Pte>)
    ensures |r| == ENTRIES && forall k :: 0 <= k < ENTRIES ==> r[k] == INVALID
  {
    seq(ENTRIES, _ => INVALID)
  }

  // The page that holds the PTE (level, i) of a table.
  function Holder(vm: Vm, root: nat, level: nat, i: nat): nat
    requires level <= 2
  {
    if level == 2 then root else NodePte(vm, root, level, i).ppn
  }

  // walk taking the first free page n and linking it, zeroed, from entry k of page h.
  function Linked(vm: Vm, h: nat, k: nat, n: nat): Vm
    requires h in vm.tables && k < |vm.tables[h]| && vm.free != []
  {
    vm.(free := vm.free[1..],
        tables := vm.tables[n := ZeroTable()][h := vm.tables[h][k := Pte(n, true, false, false, false, false)]])
  }

  lemma LinkChange(vm: Vm, pages: set<nat>, roots: map<nat, nat>, owner: map<nat, Slot>,
                   root: nat, level: nat, i: nat, n: nat, root': nat, level': nat, i': nat)
    requires Owned(vm, pages, roots, owner) && root in roots && root' in roots
    requires 1 <= level <= 2 && i < Span(level) && level' <= 2 && i' < Span(level')
    requires level == 1 ==> NodePte(vm, root, 1, i).v
    requires !At(vm, root, level, i).v && vm.free != [] && n == vm.free[0]
    ensures var h := Holder(vm, root, level, i);
            && h in vm.tables && |vm.tables[h]| == ENTRIES && h != n
            && At(Linked(vm, h, i % 512, n), root', level', i')
               == if (root', level', i') == (root, level, i) then Pte(n, true, false, false, false, false) else At(vm, root', level', i')
  {
    var h := Holder(vm, root, level, i);
    assert level == 1 ==> PteOk(vm, roots, owner, root, 2, i / 512);
    assert n !in vm.tables;
    LinkRoot(vm, pages, roots, owner, root, level, i, n, root', if level' == 2 then i' else if level' == 1 then i' / 512 else i' / 512 / 512);
    if level' < 2 {
      LinkMiddle(vm, pages, roots, owner, root, level, i, n, root', if level' == 1 then i' else i' / 512);
    }
    if level' == 0 {
      LinkLeaf(vm, pages, roots, owner, root, level, i, n, root', i');
    }
  }

  lemma LinkRoot(vm: Vm, pages: set<nat>, roots: map<nat, nat>, owner: map<nat, Slot>,
                 root: nat, level: nat, i: nat, n: nat, root': nat, i': nat)
    requires Owned(vm, pages, roots, owner) && root in roots && root' in roots
    requires 1 <= level <= 2 && i < Span(level) && i' < Span(2)
    requires level == 1 ==> NodePte(vm, root, 1, i).v
    requires vm.free != [] && n == vm.free[0]
    ensures var h := Holder(vm, root, level, i);
            && h in vm.tables && |vm.tables[h]| == ENTRIES
            && Entry(Linked(vm, h, i % 512, n), root', i')
               == if (root', 2, i') == (root, level, i) then Pte(n, true, false, false, false, false) else Entry(vm, root', i')
  {
    assert n in vm.free;
    if level == 1 {
      assert PteOk(vm, roots, owner, root, 2, i / 512);
      assert Holder(vm, root, level, i) !in roots;
    }
  }

  lemma LinkMiddle(vm: Vm, pages: set<nat>, roots: map<nat, nat>, owner: map<nat, Slot>,
                   root: nat, level: nat, i: nat, n: nat, root': nat, i': nat)
    requires Owned(vm, pages, roots, owner) && root in roots && root' in roots
    requires 1 <= level <= 2 && i < Span(level) && i' < Span(1)
    requires level == 1 ==> NodePte(vm, root, 1, i).v
    requires !At(vm, root, level, i).v && vm.free != [] && n == vm.free[0]
    ensures var h := Holder(vm, root, level, i);
            && h in vm.tables && |vm.tables[h]| == ENTRIES
            && At(Linked(vm, h, i % 512, n), root', 1, i')
               == if (root', 1, i') == (root, level, i) then Pte(n, true, false, false, false, false) else At(vm, root', 1, i')
  {
    assert n in vm.free;
    LinkRoot(vm, pages, roots, owner, root, level, i, n, root', i' / 512);
    var q := Entry(vm, root', i' / 512);
    assert q == At(vm, root', 2, i' / 512);
    if q.v {
      assert PteOk(vm, roots, owner, root', 2, i' / 512);
    }
    if level == 1 {
      assert PteOk(vm, roots, owner, root, 2, i / 512);
    }
  }

  lemma LinkLeaf(vm: Vm, pages: set<nat>, roots: map<nat, nat>, owner: map<nat, Slot>,
                 root: nat, level: nat, i: nat, n: nat, root': nat, i': nat)
    requires Owned(vm, pages, roots, owner) && root in roots && root' in roots
    requires 1 <= level <= 2 && i < Span(level) && i' < Span(0)
    requires level == 1 ==> NodePte(vm, root, 1, i).v
    requires !At(vm, root, level, i).v && vm.free != [] && n == vm.free[0]
    ensures var h := Holder(vm, root, level, i);
            && h in vm.tables && |vm.tables[h]| == ENTRIES
            && At(Linked(vm, h, i % 512, n), root', 0, i') == At(vm, root', 0, i')
  {
    assert n in vm.free;
    LinkMiddle(vm, pages, roots, owner, root, level, i, n, root', i' / 512);
    var q := At(vm, root', 1, i' / 512);
    if q.v {
      assert PteOk(vm, roots, owner, root', 1, i' / 512);
    }
    if level == 1 {
      assert PteOk(vm, roots, owner, root, 2, i / 512);
    }
  }

  lemma LinkOwned(vm: Vm, pages: set<nat>, roots: map<nat, nat>, owner: map<nat, Slot>, root: nat, level: nat, i: nat, n: nat)
    requires Owned(vm, pages, roots, owner) && root in roots
    requires 1 <= level <= 2 && i < Span(level)
    requires level == 1 ==> NodePte(vm, root, 1, i).v
    requires !At(vm, root, level, i).v && vm.free != [] && n == vm.free[0]
    ensures var h := Holder(vm, root, level, i);
            && h in vm.tables && |vm.tables[h]| == ENTRIES
            && Owned(Linked(vm, h, i % 512, n), pages, roots, owner[n := Slot(root, level, i)])
            && At(Linked(vm, h, i % 512, n), root, level, i) == Pte(n, true, false, false, false, false)
  {
    var h := Holder(vm, root, level, i);
    LinkChange(vm, pages, roots, owner, root, level, i, n, root, level, i);
    var vm', owner' := Linked(vm, h, i % 512, n), owner[n := Slot(root, level, i)];
    HeadOfFree(vm, pages);
    NotOwnedIfFree(vm, pages, roots, owner, n);
    forall root', level', i' | root' in roots && 0 <= level' <= 2 && 0 <= i' < Span(level')
      ensures At(vm', root', level', i')
           == if (root', level', i') == (root, level, i) then Pte(n, true, false, false, false, false) else At(vm, root', level', i')
      ensures At(vm', root', level', i').v ==> PteOk(vm', roots, owner', root', level', i')
    {
      LinkChange(vm, pages, roots, owner, root, level, i, n, root', level', i');
      assert At(vm, root', level', i').v ==> PteOk(vm, roots, owner, root', level', i');
    }
    forall q | q in owner' ensures OwnerOk(vm', roots, owner', q) {
      assert q in owner ==> OwnerOk(vm, roots, owner, q);
    }
  }

  lemma HeadOfFree(vm: Vm, pages: set<nat>)
    requires Partition(vm, pages) && vm.free != []
    ensures forall p :: p in vm.free <==> p == vm.free[0] || p in vm.free[1..]
    ensures vm.free[0] !in vm.free[1..]
  {
  }

  lemma NotOwnedIfFree(vm: Vm, pages: set<nat>, roots: map<nat, nat>, owner: map<nat, Slot>, p: nat)
    requires Owned(vm, pages, roots, owner) && p in vm.free
    ensures p !in owner && p !in roots && p !in vm.tables && p !in vm.frames
  {
    forall q | q in owner ensures q in vm.tables || q in vm.frames {
      assert OwnerOk(vm, roots, owner, q);
      assert PteOk(vm, roots, owner, owner[q].root, owner[q].level, owner[q].i);
    }
  }

  // ---- Frames --------------------------------------------------------------------------

  // Changing only the free list and the frames changes no PTE.
  lemma SameTables(vm: Vm, vm': Vm, root: nat, level: nat, i: nat)
    requires vm.tables == vm'.tables && level <= 2
    ensures At(vm', root, level, i) == At(vm, root, level, i)
  {
  }

  // kalloc: the first free page becomes a frame that nobody owns.
  function Allocated(vm: Vm, junk: seq<Byte>): Vm
    requires vm.free != []
  {
    vm.(free := vm.free[1..], frames := vm.frames[vm.free[0] := junk])
  }

  lemma AllocOwned(vm: Vm, pages: set<nat>, roots: map<nat, nat>, owner: map<nat, Slot>, junk: seq<Byte>)
    requires Owned(vm, pages, roots, owner) && vm.free != []
    ensures Owned(Allocated(vm, junk), pages, roots, owner)
    ensures FreeFrame(Allocated(vm, junk), owner, vm.free[0])
  {
    var vm' := Allocated(vm, junk);
    HeadOfFree(vm, pages);
    NotOwnedIfFree(vm, pages, roots, owner, vm.free[0]);
    FramesOwned(vm, vm', pages, roots, owner);
  }

  // kfree of a frame that nobody owns.
  function Freed(vm: Vm, p: nat): Vm {
    vm.(free := [p] + vm.free, frames := vm.frames - {p})
  }

  lemma FreeOwned(vm: Vm, pages: set<nat>, roots: map<nat, nat>, owner: map<nat, Slot>, p: nat)
    requires Owned(vm, pages, roots, owner) && FreeFrame(vm, owner, p)
    ensures Owned(Freed(vm, p), pages, roots, owner)
  {
    FramesOwned(vm, Freed(vm, p), pages, roots, owner);
  }

  // Frames that no leaf owns may come, go and change.
  lemma FramesOwned(vm: Vm, vm': Vm, pages: set<nat>, roots: map<nat, nat>, owner: map<nat, Slot>)
    requires Owned(vm, pages, roots, owner) && vm'.tables == vm.tables && Partition(vm', pages)
    requires forall p :: p in owner && p in vm.frames ==> p in vm'.frames
    ensures Owned(vm', pages, roots, owner)
  {
    forall root, level, i | root in roots && 0 <= level <= 2 && 0 <= i < Span(level)
      ensures At(vm', root, level, i) == At(vm, root, level, i)
      ensures At(vm', root, level, i).v ==> PteOk(vm', roots, owner, root, level, i)
    {
      SameTables(vm, vm', root, level, i);
      assert At(vm, root, level, i).v ==> PteOk(vm, roots, owner, root, level, i);
    }
    forall q | q in owner ensures OwnerOk(vm', roots, owner, q) {
      assert q in owner ==> OwnerOk(vm, roots, owner, q);
    }
  }

  // A new, empty table: the first free page becomes a zeroed root.
  function Created(vm: Vm): Vm
    requires vm.free != []
  {
    vm.(free := vm.free[1..], tables := vm.tables[vm.free[0] := ZeroTable()])
  }

  lemma CreateOwned(vm: Vm, pages: set<nat>, roots: map<nat, nat>, owner: map<nat, Slot>, top: nat)
    requires Owned(vm, pages, roots, owner) && vm.free != []
    ensures vm.free[0] !in roots
    ensures Owned(Created(vm), pages, roots[vm.free[0] := top], owner)
    ensures forall root, level, i :: root in roots && 0 <= level <= 2 && 0 <= i < Span(level) ==>
              At(Created(vm), root, level, i) == At(vm, root, level, i)
    ensures forall level, i :: 0 <= level <= 2 && 0 <= i < Span(level) ==> !At(Created(vm), vm.free[0], level, i).v
  {
    var n := vm.free[0];
    HeadOfFree(vm, pages);
    NotOwnedIfFree(vm, pages, roots, owner, n);
    forall root, level, i | root in roots && 0 <= level <= 2 && 0 <= i < Span(level)
      ensures At(Created(vm), root, level, i) == At(vm, root, level, i)
    {
      CreatedSame(vm, pages, roots, owner, root, level, i);
    }
    forall level, i | 0 <= level <= 2 && 0 <= i < Span(level) ensures !At(Created(vm), n, level, i).v {
      assert forall k :: !Entry(Created(vm), n, k).v;
    }
    CreatedOk(vm, pages, roots, owner, n, top);
  }

  lemma CreatedOk(vm: Vm, pages: set<nat>, roots: map<nat, nat>, owner: map<nat, Slot>, n: nat, top: nat)
    requires Owned(vm, pages, roots, owner) && vm.free != [] && n == vm.free[0] && n !in roots && n !in owner
    requires forall root, level, i :: root in roots && 0 <= level <= 2 && 0 <= i < Span(level) ==>
               At(Created(vm), root, level, i) == At(vm, root, level, i)
    requires forall level, i :: 0 <= level <= 2 && 0 <= i < Span(level) ==> !At(Created(vm), n, level, i).v
    ensures Owned(Created(vm), pages, roots[n := top], owner)
  {
    var vm', roots' := Created(vm), roots[n := top];
    HeadOfFree(vm, pages);
    forall root, level, i | root in roots' && 0 <= level <= 2 && 0 <= i < Span(level) && At(vm', root, level, i).v
      ensures PteOk(vm', roots', owner, root, level, i)
    {
      assert At(vm', root, level, i) == At(vm, root, level, i);
      assert PteOk(vm, roots, owner, root, level, i);
    }
    forall q | q in owner ensures OwnerOk(vm', roots', owner, q) {
      assert OwnerOk(vm, roots, owner, q);
    }
  }

  lemma CreatedSame(vm: Vm, pages: set<nat>, roots: map<nat, nat>, owner: map<nat, Slot>, root: nat, level: nat, i: nat)
    requires Owned(vm, pages, roots, owner) && vm.free != [] && root in roots && level <= 2 && i < Span(level)
    ensures At(Created(vm), root, level, i) == At(vm, root, level, i)
  {
    NotOwnedIfFree(vm, pages, roots, owner, vm.free[0]);
    if level < 2 {
      var i2 := if level == 1 then i / 512 else i / 512 / 512;
      assert At(vm, root, 2, i2).v ==> PteOk(vm, roots, owner, root, 2, i2);
      assert Entry(Created(vm), root, i2) == At(vm, root, 2, i2);
    }
    if level == 0 {
      assert At(vm, root, 1, i / 512).v ==> PteOk(vm, roots, owner, root, 1, i / 512);
    }
  }

  // ---- Removing a page-table page --------------------------------------------------------

  ghost predicate EmptyTable(vm: Vm, t: nat) {
    t in vm.tables && |vm.tables[t]| == ENTRIES && forall k :: 0 <= k < ENTRIES ==> !vm.tables[t][k].v
  }

  // kfree of the table page t.
  function DropTable(vm: Vm, t: nat): Vm {
    vm.(free := [t] + vm.free, tables := vm.tables - {t})
  }

  // freewalk freeing the empty child c and clearing entry k of page h that pointed to it.
  function Dropped(vm: Vm, h: nat, k: nat, c: nat): Vm
    requires h in vm.tables && k < |vm.tables[h]| && h != c
  {
    WithPte(DropTable(vm, c), h, k, INVALID)
  }

  // Dropping an empty child at (level, i) invalidates that PTE; every PTE that stays
  // valid is as before, and so is every PTE of another table or above that level.
  lemma DropChange(vm: Vm, pages: set<nat>, roots: map<nat, nat>, owner: map<nat, Slot>,
                   root: nat, level: nat, i: nat, root': nat, level': nat, i': nat)
    requires Owned(vm, pages, roots, owner) && root in roots && root' in roots
    requires 1 <= level <= 2 && i < Span(level) && level' <= 2 && i' < Span(level')
    requires At(vm, root, level, i).v && EmptyTable(vm, At(vm, root, level, i).ppn)
    ensures var h, c := Holder(vm, root, level, i), At(vm, root, level, i).ppn;
            && h in vm.tables && |vm.tables[h]| == ENTRIES && h != c
            && var q := At(Dropped(vm, h, i % 512, c), root', level', i');
               if (root', level', i') == (root, level, i) then q == INVALID
               else if root' != root || level' >= level then q == At(vm, root', level', i')
               else (q.v <==> At(vm, root', level', i').v) && (q.v ==> q == At(vm, root', level', i'))
  {
    var h, c := Holder(vm, root, level, i), At(vm, root, level, i).ppn;
    assert PteOk(vm, roots, owner, root, level, i);
    if level == 1 {
      assert PteOk(vm, roots, owner, root, 2, i / 512);
    }
    assert c !in roots;
    var vm' := Dropped(vm, h, i % 512, c);
    var i2 := if level' == 2 then i' else if level' == 1 then i' / 512 else i' / 512 / 512;
    assert At(vm, root', 2, i2).v ==> PteOk(vm, roots, owner, root', 2, i2);
    assert Entry(vm', root', i2) == if (root', 2, i2) == (root, level, i) then INVALID else Entry(vm, root', i2);
    if level' < 2 {
      var i1 := if level' == 1 then i' else i' / 512;
      assert At(vm, root', 1, i1).v ==> PteOk(vm, roots, owner, root', 1, i1);
    }
  }

  lemma DropOwned(vm: Vm, pages: set<nat>, roots: map<nat, nat>, owner: map<nat, Slot>, root: nat, level: nat, i: nat)
    requires Owned(vm, pages, roots, owner) && root in roots && 1 <= level <= 2 && i < Span(level)
    requires At(vm, root, level, i).v && EmptyTable(vm, At(vm, root, level, i).ppn)
    ensures var h, c := Holder(vm, root, level, i), At(vm, root, level, i).ppn;
            && h in vm.tables && |vm.tables[h]| == ENTRIES && h != c
            && Owned(Dropped(vm, h, i % 512, c), pages, roots, owner - {c})
  {
    DropChange(vm, pages, roots, owner, root, level, i, root, level, i);
    var h, c := Holder(vm, root, level, i), At(vm, root, level, i).ppn;
    var vm', owner' := Dropped(vm, h, i % 512, c), owner - {c};
    assert PteOk(vm, roots, owner, root, level, i);
    forall root', level', i' | root' in roots && 0 <= level' <= 2 && 0 <= i' < Span(level')
      ensures At(vm', root', level', i').v ==> PteOk(vm', roots, owner', root', level', i')
      ensures At(vm, root', level', i').v && (root', level', i') != (root, level, i) ==> At(vm', root', level', i') == At(vm, root', level', i')
    {
      DropChange(vm, pages, roots, owner, root, level, i, root', level', i');
      assert At(vm, root', level', i').v ==> PteOk(vm, roots, owner, root', level', i');
    }
    forall q | q in owner' ensures OwnerOk(vm', roots, owner', q) {
      assert q in owner ==> OwnerOk(vm, roots, owner, q);
    }
  }

  // An empty root can be dropped: it owned nothing.
  lemma DropRootOwned(vm: Vm, pages: set<nat>, roots: map<nat, nat>, owner: map<nat, Slot>, root: nat)
    requires Owned(vm, pages, roots, owner) && root in roots && EmptyTable(vm, root)
    ensures Owned(DropTable(vm, root), pages, roots - {root}, owner)
    ensures forall p :: p in owner ==> owner[p].root != root
    ensures forall root', level, i :: root' in roots && root' != root && 0 <= level <= 2 && 0 <= i < Span(level) ==>
              At(DropTable(vm, root), root', level, i) == At(vm, root', level, i)
  {
    var vm' := DropTable(vm, root);
    forall p | p in owner ensures owner[p].root != root {
      assert OwnerOk(vm, roots, owner, p);
    }
    forall root', level, i | root' in roots && root' != root && 0 <= level <= 2 && 0 <= i < Span(level)
      ensures At(vm', root', level, i) == At(vm, root', level, i)
      ensures At(vm', root', level, i).v ==> PteOk(vm', roots - {root}, owner, root', level, i)
    {
      var i2 := if level == 2 then i else if level == 1 then i / 512 else i / 512 / 512;
      assert At(vm, root', 2, i2).v ==> PteOk(vm, roots, owner, root', 2, i2);
      if level < 2 {
        var i1 := if level == 1 then i else i / 512;
        assert At(vm, root', 1, i1).v ==> PteOk(vm, roots, owner, root', 1, i1);
      }
      assert At(vm, root', level, i).v ==> PteOk(vm, roots, owner, root', level, i);
    }
    forall q | q in owner ensures OwnerOk(vm', roots - {root}, owner, q) {
      assert q in owner ==> OwnerOk(vm, roots, owner, q);
    }
  }
}
