/** copyout, copyin and copyinstr of vm.c: moving bytes between the kernel and a user
    address space, page by page. */
module UserCopy {
  import opened Basics
  import opened PageTable
  import opened VirtualMemory

  // The byte at virtual address va of a table; 0 where there is no frame.
  function MemAt(vm: Vm, root: nat, va: nat): Byte {
    var p := At(vm, root, 0, va / PGSIZE).ppn;
    if At(vm, root, 0, va / PGSIZE).v && p in vm.frames && va % PGSIZE < |vm.frames[p]| then vm.frames[p][va % PGSIZE] else 0
  }

  // walkaddr succeeds; copyout also wants the page writable.
  predicate Allowed(vm: Vm, root: nat, vpn: nat, write: bool) {
    vpn < MAXVPN && At(vm, root, 0, vpn).v && At(vm, root, 0, vpn).u && (write ==> At(vm, root, 0, vpn).w)
  }

  // Every page that [va, va + n) touches is allowed.
  ghost predicate AllAllowed(vm: Vm, root: nat, va: nat, n: nat, write: bool) {
    forall v :: va <= v < va + n ==> Allowed(vm, root, v / PGSIZE, write)
  }

  // The pages a user may touch are the table's own.
  ghost predicate UserBelowTop(vm: Vm, root: nat, top: nat) {
    forall i :: top <= i < Span(0) && At(vm, root, 0, i).v ==> !At(vm, root, 0, i).u
  }

  function Min(a: nat, b: nat): nat {
    if a < b then a else b
  }

  // ---- Writing ----------------------------------------------------------------------------

  // memmove of b into frame p at offset off.
  function Poked(vm: Vm, p: nat, off: nat, b: seq<Byte>): Vm
    requires p in vm.frames && off + |b| <= |vm.frames[p]|
  {
    vm.(frames := vm.frames[p := Splice(vm.frames[p], off, b)])
  }

  // Frame p is that of a page which the n bytes from va of root's touch.
  ghost predicate Touched(vm: Vm, root: nat, va: nat, n: nat, p: nat) {
    exists v :: va <= v < va + n && At(vm, root, 0, v / PGSIZE).ppn == p
  }

  /** Of the memory seen through the tables, exactly the first n bytes from va of root's
      have changed, to those of src; no frame has but those of their pages. */
  ghost predicate Wrote(vm0: Vm, vm: Vm, roots: map<nat, nat>, root: nat, va: nat, src: seq<Byte>, n: nat) {
    && n <= |src| && vm.free == vm0.free && vm.tables == vm0.tables && vm.frames.Keys == vm0.frames.Keys
    && OthersKept(vm0, vm, root, va, n)
    && forall root', v :: root' in roots && 0 <= v < roots[root'] * PGSIZE ==>
         MemAt(vm, root', v) == if root' == root && va <= v < va + n then src[v - va] else MemAt(vm0, root', v)
  }

  ghost predicate OthersKept(vm0: Vm, vm: Vm, root: nat, va: nat, n: nat)
    requires vm.frames.Keys == vm0.frames.Keys
  {
    forall p {:trigger Touched(vm0, root, va, n, p)} :: p in vm.frames && !Touched(vm0, root, va, n, p) ==> vm.frames[p] == vm0.frames[p]
  }

  lemma TouchedMore(vm0: Vm, vm: Vm, root: nat, va: nat, done: nat, next: nat, vpn: nat, off: nat, b: seq<Byte>)
    requires vm.frames.Keys == vm0.frames.Keys && vm.tables == vm0.tables && OthersKept(vm0, vm, root, va, done)
    requires done < next && vpn == (va + done) / PGSIZE
    requires At(vm, root, 0, vpn).ppn in vm.frames && off + |b| <= |vm.frames[At(vm, root, 0, vpn).ppn]|
    ensures OthersKept(vm0, Poked(vm, At(vm, root, 0, vpn).ppn, off, b), root, va, next)
  {
    SameTables(vm0, vm, root, 0, vpn);
    var v0 := va + done;
    forall p | p in vm.frames && !Touched(vm0, root, va, next, p) ensures !Touched(vm0, root, va, done, p) && p != At(vm, root, 0, vpn).ppn {
      assert At(vm0, root, 0, v0 / PGSIZE).ppn != p;
    }
  }

  lemma PokedBytes(vm: Vm, pages: set<nat>, roots: map<nat, nat>, owner: map<nat, Slot>, root: nat, vpn: nat, off: nat, b: seq<Byte>,
                   root': nat, v: nat)
    requires Owned(vm, pages, roots, owner) && Sized(vm.frames)
    requires root in roots && root' in roots && vpn < roots[root] && At(vm, root, 0, vpn).v && off + |b| <= PGSIZE && v / PGSIZE < roots[root']
    ensures At(vm, root, 0, vpn).ppn in vm.frames && |vm.frames[At(vm, root, 0, vpn).ppn]| == PGSIZE
    ensures var start := vpn * PGSIZE + off;
            MemAt(Poked(vm, At(vm, root, 0, vpn).ppn, off, b), root', v)
            == if root' == root && start <= v < start + |b| then b[v - start] else MemAt(vm, root', v)
  {
    assert PteOk(vm, roots, owner, root, 0, vpn);
    var p, i := At(vm, root, 0, vpn).ppn, v / PGSIZE;
    SameTables(vm, Poked(vm, p, off, b), root', 0, i);
    if At(vm, root', 0, i).v {
      assert PteOk(vm, roots, owner, root', 0, i);
      if At(vm, root', 0, i).ppn == p {
        assert root' == root && i == vpn;
        assert v == vpn * PGSIZE + v % PGSIZE;
      }
    }
    if root' == root && vpn * PGSIZE + off <= v < vpn * PGSIZE + off + |b| {
      assert v / PGSIZE == vpn;
    }
  }

  lemma PokedOwned(vm: Vm, pages: set<nat>, roots: map<nat, nat>, owner: map<nat, Slot>, p: nat, off: nat, b: seq<Byte>)
    requires Owned(vm, pages, roots, owner) && Sized(vm.frames) && p in vm.frames && off + |b| <= PGSIZE
    ensures Owned(Poked(vm, p, off, b), pages, roots, owner) && Sized(Poked(vm, p, off, b).frames)
  {
    FramesOwned(vm, Poked(vm, p, off, b), pages, roots, owner);
  }

  lemma WroteMore(vm0: Vm, vm: Vm, pages: set<nat>, roots: map<nat, nat>, owner: map<nat, Slot>, root: nat,
                  va: nat, src: seq<Byte>, done: nat, n: nat, next: nat, vpn: nat, off: nat)
    requires Wrote(vm0, vm, roots, root, va, src, done) && Owned(vm, pages, roots, owner) && Sized(vm.frames)
    requires root in roots && vpn < roots[root] && At(vm, root, 0, vpn).v && next == done + n <= |src| && n > 0
    requires vpn * PGSIZE + off == va + done && off + n <= PGSIZE
    ensures At(vm, root, 0, vpn).ppn in vm.frames && |vm.frames[At(vm, root, 0, vpn).ppn]| == PGSIZE
    ensures Wrote(vm0, Poked(vm, At(vm, root, 0, vpn).ppn, off, src[done..next]), roots, root, va, src, next)
  {
    assert PteOk(vm, roots, owner, root, 0, vpn);
    var vm' := Poked(vm, At(vm, root, 0, vpn).ppn, off, src[done..next]);
    TouchedMore(vm0, vm, root, va, done, next, vpn, off, src[done..next]);
    forall root', v | root' in roots && 0 <= v < roots[root'] * PGSIZE
      ensures MemAt(vm', root', v) == if root' == root && va <= v < va + next then src[v - va] else MemAt(vm0, root', v)
    {
      PokedBytes(vm, pages, roots, owner, root, vpn, off, src[done..next], root', v);
    }
  }

  // The first `done` bytes have been copied out since vm0.
  ghost predicate Writing(m: Memory, vm0: Vm, root: nat, va: nat, src: seq<Byte>, done: nat)
    reads m
  {
    m.Valid() && Wrote(vm0, m.State(), m.roots, root, va, src, done) && AllAllowed(vm0, root, va, done, true)
  }

  /** copyout: succeeds exactly when every page of the destination is mapped, writable and
      the user's.  The bytes before the first page that is not are written even so; no
      other byte of any address space changes. */
  method Copyout(m: Memory, root: nat, va: nat, src: seq<Byte>) returns (ok: bool, done: nat)
    requires m.Valid() && root in m.roots && UserBelowTop(m.State(), root, m.roots[root])
    modifies m`free, m`tables, m`frames, m`owner
    ensures Writing(m, old(m.State()), root, va, src, done)
    ensures ok <==> AllAllowed(old(m.State()), root, va, |src|, true)
    ensures if ok then done == |src| else StopsAt(old(m.State()), root, va, done, |src|, true)
  {
    done := 0;
    NothingWritten(m, root, va, src);
    while done < |src|
      invariant done <= |src| && Writing(m, old(m.State()), root, va, src, done)
      decreases |src| - done
    {
      var next;
      ok, next := CopyoutPage(m, root, va, src, done, old(m.State()));
      if !ok {
        NotAll(old(m.State()), root, va, done, |src|, true);
        return;
      }
      done := next;
    }
    ok := true;
    AllDone(m, old(m.State()), root, va, src, done);
  }

  lemma NothingWritten(m: Memory, root: nat, va: nat, src: seq<Byte>)
    requires m.Valid()
    ensures Writing(m, m.State(), root, va, src, 0)
  {
  }

  lemma AllDone(m: Memory, vm0: Vm, root: nat, va: nat, src: seq<Byte>, done: nat)
    requires done == |src| && Writing(m, vm0, root, va, src, done)
    ensures AllAllowed(vm0, root, va, |src|, true)
  {
  }

  // The copy of n bytes gives up at the page of its byte `done`.
  ghost predicate StopsAt(vm: Vm, root: nat, va: nat, done: nat, n: nat, write: bool) {
    done < n && !Allowed(vm, root, (va + done) / PGSIZE, write)
  }

  lemma NotAll(vm: Vm, root: nat, va: nat, done: nat, n: nat, write: bool)
    requires StopsAt(vm, root, va, done, n, write)
    ensures !AllAllowed(vm, root, va, n, write)
  {
    var v := va + done;
    assert !Allowed(vm, root, v / PGSIZE, write);
  }

  lemma AllowedMore(vm: Vm, root: nat, va: nat, done: nat, next: nat, write: bool)
    requires AllAllowed(vm, root, va, done, write) && Allowed(vm, root, (va + done) / PGSIZE, write)
    requires done < next && (va + next - 1) / PGSIZE == (va + done) / PGSIZE
    ensures AllAllowed(vm, root, va, next, write)
  {
    forall v | va + done <= v < va + next ensures v / PGSIZE == (va + done) / PGSIZE {
    }
  }

  // One round: up to the end of the page, or of the data.
  method CopyoutPage(m: Memory, root: nat, va: nat, src: seq<Byte>, done: nat, ghost vm0: Vm) returns (ok: bool, next: nat)
    requires root in m.roots && done < |src| && Writing(m, vm0, root, va, src, done)
    requires UserBelowTop(vm0, root, m.roots[root])
    modifies m`free, m`tables, m`frames, m`owner
    ensures ok ==> done < next <= |src| && Writing(m, vm0, root, va, src, next)
    ensures !ok ==> Writing(m, vm0, root, va, src, done) && StopsAt(vm0, root, va, done, |src|, true)
  {
    var vpn, off := (va + done) / PGSIZE, (va + done) % PGSIZE;
    if vpn >= MAXVPN {
      return false, done;
    }
    SameTables(vm0, m.State(), root, 0, vpn);
    var pte := m.LeafOf(root, vpn);
    if !pte.v || !pte.u || !pte.w {
      return false, done;
    }
    var n := Min(PGSIZE - off, |src| - done);
    next := done + n;
    LastInPage(va + done, n);
    assert vpn < m.roots[root];
    WroteMore(vm0, m.State(), m.pages, m.roots, m.owner, root, va, src, done, n, next, vpn, off);
    PokedOwned(m.State(), m.pages, m.roots, m.owner, pte.ppn, off, src[done..next]);
    AllowedMore(vm0, root, va, done, next, true);
    m.frames := m.frames[pte.ppn := Splice(m.frames[pte.ppn], off, src[done..next])];
    ok := true;
  }

  lemma LastInPage(a: nat, n: nat)
    requires 1 <= n <= PGSIZE - a % PGSIZE
    ensures (a + n - 1) / PGSIZE == a / PGSIZE && a / PGSIZE * PGSIZE + a % PGSIZE == a
  {
  }

  // ---- Reading ----------------------------------------------------------------------------

  ghost predicate Reads(vm: Vm, root: nat, va: nat, dst: seq<Byte>) {
    && AllAllowed(vm, root, va, |dst|, false)
    && forall v :: va <= v < va + |dst| ==> dst[v - va] == MemAt(vm, root, v)
  }

  lemma ReadMore(vm: Vm, root: nat, va: nat, dst: seq<Byte>, vpn: nat, off: nat, b: seq<Byte>)
    requires Reads(vm, root, va, dst) && vpn * PGSIZE + off == va + |dst| && off + |b| <= PGSIZE && Allowed(vm, root, vpn, false)
    requires At(vm, root, 0, vpn).ppn in vm.frames && |vm.frames[At(vm, root, 0, vpn).ppn]| == PGSIZE
    requires b == vm.frames[At(vm, root, 0, vpn).ppn][off..off + |b|]
    ensures Reads(vm, root, va, dst + b)
  {
    forall v | va + |dst| <= v < va + |dst + b|
      ensures v / PGSIZE == vpn && Allowed(vm, root, v / PGSIZE, false) && (dst + b)[v - va] == MemAt(vm, root, v)
    {
      assert v / PGSIZE == vpn && v % PGSIZE == v - vpn * PGSIZE;
    }
  }

  // walkaddr and the frame it leads to.
  method PageOf(m: Memory, root: nat, a: nat) returns (ok: bool, page: seq<Byte>)
    requires m.Valid() && root in m.roots && UserBelowTop(m.State(), root, m.roots[root])
    modifies m`free, m`tables, m`owner
    ensures m.State() == old(m.State()) && m.owner == old(m.owner) && ok == Allowed(m.State(), root, a / PGSIZE, false)
    ensures ok ==> At(m.State(), root, 0, a / PGSIZE).ppn in m.frames && page == m.frames[At(m.State(), root, 0, a / PGSIZE).ppn] && |page| == PGSIZE
  {
    ok, page := false, [];
    if a / PGSIZE < MAXVPN {
      var pte := m.LeafOf(root, a / PGSIZE);
      if pte.v && pte.u {
        assert PteOk(m.State(), m.roots, m.owner, root, 0, a / PGSIZE);
        ok, page := true, m.frames[pte.ppn];
      }
    }
  }

  /** copyin: succeeds exactly when every page of the source is mapped and the user's, and
      then returns the bytes there. */
  method Copyin(m: Memory, root: nat, va: nat, len: nat) returns (ok: bool, dst: seq<Byte>)
    requires m.Valid() && root in m.roots && UserBelowTop(m.State(), root, m.roots[root])
    modifies m`free, m`tables, m`owner
    ensures m.State() == old(m.State()) && m.owner == old(m.owner)
    ensures Reads(m.State(), root, va, dst) && (ok <==> AllAllowed(m.State(), root, va, len, false))
    ensures if ok then |dst| == len else StopsAt(m.State(), root, va, |dst|, len, false)
  {
    dst := [];
    while |dst| < len
      invariant |dst| <= len && m.State() == old(m.State()) && m.owner == old(m.owner) && Reads(m.State(), root, va, dst)
    {
      var page;
      var a := va + |dst|;
      ok, page := PageOf(m, root, a);
      if !ok {
        NotAll(m.State(), root, va, |dst|, len, false);
        return;
      }
      var n := Min(PGSIZE - a % PGSIZE, len - |dst|);
      LastInPage(a, n);
      ReadMore(m.State(), root, va, dst, a / PGSIZE, a % PGSIZE, page[a % PGSIZE..a % PGSIZE + n]);
      dst := dst + page[a % PGSIZE..a % PGSIZE + n];
    }
    ok := true;
  }

  // copyinstr's inner loop: up to n bytes of a page, through the first NUL.
  method CopyToNul(page: seq<Byte>, off: nat, n: nat) returns (got: bool, b: seq<Byte>)
    requires off + n <= |page|
    ensures |b| <= n && b == page[off..off + |b|]
    ensures if got then b != [] && b[|b| - 1] == 0 && 0 !in b[..|b| - 1] else |b| == n && 0 !in b
  {
    b, got := [], false;
    while !got && |b| < n
      invariant |b| <= n && b == page[off..off + |b|]
      invariant if got then b != [] && b[|b| - 1] == 0 && 0 !in b[..|b| - 1] else 0 !in b
      decreases !got, n - |b|
    {
      got := page[off + |b|] == 0;
      assert (b + [page[off + |b|]])[..|b|] == b;
      b := b + [page[off + |b|]];
    }
  }

  // A NUL among the first max bytes, every page up to it readable.
  ghost predicate Terminated(vm: Vm, root: nat, va: nat, max: nat) {
    exists v :: va <= v < va + max && MemAt(vm, root, v) == 0 && AllAllowed(vm, root, va, v - va + 1, false)
  }

  /** copyinstr: succeeds exactly when there is a NUL within max bytes on readable pages,
      and then returns the string through its first NUL. */
  method Copyinstr(m: Memory, root: nat, va: nat, max: nat) returns (ok: bool, dst: seq<Byte>)
    requires m.Valid() && root in m.roots && UserBelowTop(m.State(), root, m.roots[root])
    modifies m`free, m`tables, m`owner
    ensures m.State() == old(m.State()) && m.owner == old(m.owner)
    ensures Reads(m.State(), root, va, dst) && |dst| <= max && (ok <==> Terminated(m.State(), root, va, max))
    ensures ok ==> dst != [] && dst[|dst| - 1] == 0 && 0 !in dst[..|dst| - 1]
  {
    dst, ok := [], false;
    while !ok && |dst| < max
      invariant m.State() == old(m.State()) && m.owner == old(m.owner) && StringSoFar(m.State(), root, va, dst, ok, max)
      decreases !ok, max - |dst|
    {
      var page;
      var a := va + |dst|;
      var there;
      there, page := PageOf(m, root, a);
      if !there {
        Unterminated(m.State(), root, va, dst, max);
        return;
      }
      var n := Min(PGSIZE - a % PGSIZE, max - |dst|);
      LastInPage(a, n);
      var b;
      ok, b := CopyToNul(page, a % PGSIZE, n);
      ReadMore(m.State(), root, va, dst, a / PGSIZE, a % PGSIZE, b);
      StringMore(m.State(), root, va, dst, b, ok, max);
      dst := dst + b;
    }
    if ok {
      TerminatedAt(m.State(), root, va, dst, max);
    } else {
      Unterminated(m.State(), root, va, dst, max);
    }
  }

  ghost predicate StringSoFar(vm: Vm, root: nat, va: nat, dst: seq<Byte>, got: bool, max: nat) {
    && |dst| <= max && Reads(vm, root, va, dst)
    && if got then dst != [] && dst[|dst| - 1] == 0 && 0 !in dst[..|dst| - 1] else 0 !in dst
  }

  lemma StringMore(vm: Vm, root: nat, va: nat, dst: seq<Byte>, b: seq<Byte>, got: bool, max: nat)
    requires StringSoFar(vm, root, va, dst, false, max) && Reads(vm, root, va, dst + b) && |dst + b| <= max
    requires if got then b != [] && b[|b| - 1] == 0 && 0 !in b[..|b| - 1] else 0 !in b
    ensures StringSoFar(vm, root, va, dst + b, got, max)
  {
    if got {
      assert (dst + b)[..|dst + b| - 1] == dst + b[..|b| - 1];
    }
  }

  lemma TerminatedAt(vm: Vm, root: nat, va: nat, dst: seq<Byte>, max: nat)
    requires Reads(vm, root, va, dst) && dst != [] && dst[|dst| - 1] == 0 && |dst| <= max
    ensures Terminated(vm, root, va, max)
  {
    var v := va + |dst| - 1;
    assert MemAt(vm, root, v) == dst[v - va];
  }

  // No NUL so far, and either no more bytes are wanted or the next cannot be read.
  lemma Unterminated(vm: Vm, root: nat, va: nat, dst: seq<Byte>, max: nat)
    requires Reads(vm, root, va, dst) && 0 !in dst && |dst| <= max
    requires |dst| == max || !Allowed(vm, root, (va + |dst|) / PGSIZE, false)
    ensures !Terminated(vm, root, va, max)
  {
    forall v | va <= v < va + |dst| ensures MemAt(vm, root, v) != 0 {
      assert dst[v - va] in dst;
    }
    forall v | va + |dst| <= v < va + max && MemAt(vm, root, v) == 0 ensures !AllAllowed(vm, root, va, v - va + 1, false) {
      NotAll(vm, root, va, |dst|, v - va + 1, false);
    }
  }

  /** What a successful copyout stored, copyin can read and finds again. */
  lemma CopyinAfterCopyout(vm0: Vm, vm: Vm, roots: map<nat, nat>, root: nat, va: nat, src: seq<Byte>, dst: seq<Byte>)
    requires root in roots && UserBelowTop(vm0, root, roots[root])
    requires Wrote(vm0, vm, roots, root, va, src, |src|) && AllAllowed(vm0, root, va, |src|, true)
    requires Reads(vm, root, va, dst) && |dst| <= |src|
    ensures AllAllowed(vm, root, va, |src|, false) && dst == src[..|dst|]
  {
    forall v | va <= v < va + |src|
      ensures Allowed(vm, root, v / PGSIZE, false) && MemAt(vm, root, v) == src[v - va]
    {
      assert Allowed(vm0, root, v / PGSIZE, true);
      assert At(vm, root, 0, v / PGSIZE) == At(vm0, root, 0, v / PGSIZE);
      assert v / PGSIZE < roots[root];
    }
    forall k | 0 <= k < |dst| ensures dst[k] == src[k] {
      assert dst[va + k - va] == MemAt(vm, root, va + k);
    }
  }

  // ---- fork -------------------------------------------------------------------------------

  /** After uvmcopy the child reads what the parent read, the parent still reads it, and
      whatever copyout then writes in the child leaves the parent as it was. */
  lemma ForkSharesNothing(vm0: Vm, vm1: Vm, vm2: Vm, owner0: map<nat, Slot>, owner1: map<nat, Slot>, pages: set<nat>, roots: map<nat, nat>,
                          parent: nat, child: nat, n: nat, va: nat, src: seq<Byte>, done: nat, v: nat)
    requires Owned(vm0, pages, roots, owner0) && parent in roots && child in roots && parent != child && n <= roots[parent] && n <= roots[child] && n <= MAXVPN
    requires Grown(vm0, owner0, vm1, owner1, roots, child, 0, n) && Copied(vm0, vm1, parent, child, n)
    requires Mapped(vm0, parent, 0, n) && v < n * PGSIZE && Wrote(vm1, vm2, roots, child, va, src, done)
    ensures MemAt(vm1, child, v) == MemAt(vm0, parent, v) == MemAt(vm1, parent, v) == MemAt(vm2, parent, v)
  {
    var i := v / PGSIZE;
    assert At(vm1, parent, 0, i) == At(vm0, parent, 0, i);
    assert PteOk(vm0, roots, owner0, parent, 0, i);
    assert At(vm1, child, 0, i) == At(vm0, parent, 0, i).(ppn := At(vm1, child, 0, i).ppn);
  }
}
