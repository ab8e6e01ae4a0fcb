/** The bit layout of virtual addresses and page-table entries (riscv.h), and how the page
    numbers and entry indices of the other modules read it. */
module Sv39 {
  import opened PageTable
  import opened VirtualMemory

  // PA2PTE, PTE2PA and PTE_FLAGS as the shifts and masks they are.
  function PaToPte(pa: bv64): bv64 {
    (pa >> 12) << 10
  }

  function PteToPa(pte: bv64): bv64 {
    (pte >> 10) << 12
  }

  function PteFlags(pte: bv64): bv64 {
    pte & 0x3FF
  }

  /** Storing a page address with its permission bits and reading both back, for every
      page-aligned physical address of the 56 that Sv39 has. */
  lemma WordRoundTrip(pa: bv64, perm: bv64)
    requires pa & 0xFFF == 0 && pa >> 56 == 0 && perm >> 10 == 0
    ensures PteToPa(PaToPte(pa) | perm) == pa && PteFlags(PaToPte(pa) | perm) == perm
  {
  }

  // n >> k and n & ((1 << k) - 1), one bit at a time.
  function ShiftRight(n: nat, k: nat): nat {
    if k == 0 then n else ShiftRight(n / 2, k - 1)
  }

  function LowBits(n: nat, k: nat): nat {
    if k == 0 then 0 else n % 2 + 2 * LowBits(n / 2, k - 1)
  }

  // PX(level, va): nine bits from bit 12 + 9 * level on.
  function Px(level: nat, va: nat): nat
    requires level <= 2
  {
    LowBits(ShiftRight(va, 12 + 9 * level), 9)
  }

  lemma {:induction false} ShiftTwice(n: nat, k: nat, l: nat)
    ensures ShiftRight(ShiftRight(n, k), l) == ShiftRight(n, k + l)
  {
    if k > 0 {
      ShiftTwice(n / 2, k - 1, l);
    }
  }

  // Three bits at a time, as far as the verifier unfolds a definition by itself.
  lemma NineBits(n: nat)
    ensures ShiftRight(n, 9) == n / 512 && LowBits(n, 9) == n % 512
  {
    ThreeBits(n, 9);
    ThreeBits(n / 8, 6);
    ThreeBits(n / 64, 3);
    assert n / 8 / 8 == n / 64 && n / 64 / 8 == n / 512;
  }

  lemma ThreeBits(n: nat, k: nat)
    requires k >= 3
    ensures ShiftRight(n, k) == ShiftRight(n / 8, k - 3)
    ensures LowBits(n, k) == n % 8 + 8 * LowBits(n / 8, k - 3)
  {
    assert n / 2 / 2 == n / 4 && n / 4 / 2 == n / 8;
    assert ShiftRight(n / 2, k - 1) == ShiftRight(n / 4, k - 2) == ShiftRight(n / 8, k - 3);
    assert LowBits(n / 4, k - 2) == n / 4 % 2 + 2 * LowBits(n / 8, k - 3);
    assert LowBits(n / 2, k - 1) == n / 2 % 2 + 2 * LowBits(n / 4, k - 2);
  }

  /** The entry walk looks at is the one the table model indexes. */
  lemma PxIsIndex(level: nat, va: nat)
    requires level <= 2
    ensures Px(level, va) == Idx(va / PGSIZE, level) % 512
  {
    var page := va / PGSIZE;
    assert ShiftRight(va, 12) == page by {
      ThreeBits(va, 12);
      NineBits(va / 8);
    }
    ShiftTwice(va, 12, 9 * level);
    if level == 2 {
      ShiftTwice(page, 9, 9);
      NineBits(page / 512);
    }
    NineBits(page);
    NineBits(ShiftRight(page, 9 * level));
  }

  /** Below MAXVA no two pages share a leaf PTE: the three indices determine the page. */
  lemma PxInjective(va: nat, va': nat)
    requires va < MAXVPN * PGSIZE && va' < MAXVPN * PGSIZE
    requires forall level :: 0 <= level <= 2 ==> Px(level, va) == Px(level, va')
    ensures va / PGSIZE == va' / PGSIZE
  {
    PageOfPx(va);
    PageOfPx(va');
    assert Px(0, va) == Px(0, va') && Px(1, va) == Px(1, va') && Px(2, va) == Px(2, va');
  }

  lemma PageOfPx(va: nat)
    requires va < MAXVPN * PGSIZE
    ensures va / PGSIZE == Px(2, va) * 0x4_0000 + Px(1, va) * 512 + Px(0, va)
  {
    PxIsIndex(0, va);
    PxIsIndex(1, va);
    PxIsIndex(2, va);
  }
}
