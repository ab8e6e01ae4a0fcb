/** The virtio block driver (virtio_disk.c) and a device that follows the virtqueue rules
    (sections 2.6 and 5.2 of Virtio 1.1): eight descriptors, three to a request, an avail
    ring the driver fills and a used ring the device fills, both with 16-bit indices. */
module VirtioDisk {
  import opened Basics

  const NUM := 8
  const WRAP := 0x1_0000

  type Block = seq<int>

  // Where a descriptor points.
  datatype Addr = Null | ToOp(i: nat) | ToData(b: nat) | ToStatus(i: nat)

  datatype Desc = Desc(addr: Addr, next: bool, write: bool, nxt: nat)

  const CLEAR := Desc(Null, false, false, 0)

  datatype Op = Op(write: bool, sector: nat)

  datatype Info = Info(b: int, status: nat)

  datatype Buf = Buf(blockno: nat, data: Block, busy: bool)

  // How far a request has come; the number is its place in the ring concerned.
  datatype Phase = Avail(k: nat) | Taken | Used(k: nat) | Seen

  datatype Req = Req(b: nat, write: bool, d1: nat, d2: nat, phase: Phase)

  // ---- Small facts ------------------------------------------------------------------------------

  lemma WrapNext(k: nat)
    ensures (k % WRAP + 1) % WRAP == (k + 1) % WRAP
  {
  }

  // The sector of a block, computed in 32 bits.
  function Sector(blockno: nat): nat {
    blockno * 2 % 0x1_0000_0000
  }

  // The block that the device finds there.
  function Target(blockno: nat): nat {
    Sector(blockno) / 2
  }

  /** The device is sent to the buffer's own block exactly when its number is below 2^31. */
  lemma OwnBlockIff(blockno: nat)
    ensures Target(blockno) <= blockno
    ensures Target(blockno) == blockno <==> blockno < 0x8000_0000
  {
  }

  // ---- The descriptors ----------------------------------------------------------------------------

  // The three descriptors of request h say what it asks for.
  ghost predicate ChainOk(free: seq<bool>, desc: seq<Desc>, ops: seq<Op>, info: seq<Info>, bufs: map<nat, Buf>, h: nat, r: Req) {
    && |free| == |desc| == |ops| == |info| == NUM && h < NUM && r.d1 < NUM && r.d2 < NUM && h != r.d1 && h != r.d2 && r.d1 != r.d2
    && !free[h] && !free[r.d1] && !free[r.d2] && r.b in bufs
    && desc[h] == Desc(ToOp(h), true, false, r.d1)
    && desc[r.d1] == Desc(ToData(r.b), true, !r.write, r.d2)
    && desc[r.d2] == Desc(ToStatus(h), false, true, 0)
    && ops[h] == Op(r.write, Sector(bufs[r.b].blockno))
    && info[h] == Info(r.b, if r.phase.Used? || r.phase.Seen? then 0 else 0xff)
    && (bufs[r.b].busy <==> !r.phase.Seen?)
  }

  // Which request a descriptor in use belongs to.
  ghost predicate OwnerOk(free: seq<bool>, reqs: map<nat, Req>, owner: seq<nat>, i: nat)
    requires i < |free| && i < |owner|
  {
    free[i] || (owner[i] in reqs && (i == owner[i] || i == reqs[owner[i]].d1 || i == reqs[owner[i]].d2))
  }

  ghost predicate Owns(owner: seq<nat>, h: nat, r: Req) {
    h < |owner| && r.d1 < |owner| && r.d2 < |owner| && owner[h] == h && owner[r.d1] == h && owner[r.d2] == h
  }

  // A request is the one its buffer has, and a busy buffer has one.
  ghost predicate UserIs(reqs: map<nat, Req>, user: map<nat, nat>, h: nat) {
    h in reqs && reqs[h].b in user && user[reqs[h].b] == h
  }

  ghost predicate UserOf(bufs: map<nat, Buf>, reqs: map<nat, Req>, user: map<nat, nat>, b: nat) {
    b in bufs && b in user && user[b] in reqs && reqs[user[b]].b == b
  }

  /** Every descriptor is free or in the chain of exactly one request; every request has a
      chain that says what it asks for; a buffer has at most one request. */
  ghost predicate Chains(free: seq<bool>, desc: seq<Desc>, ops: seq<Op>, info: seq<Info>, bufs: map<nat, Buf>, reqs: map<nat, Req>, owner: seq<nat>,
                         user: map<nat, nat>) {
    && |free| == |desc| == |ops| == |info| == |owner| == NUM
    && (forall i {:trigger OwnerOk(free, reqs, owner, i)} :: 0 <= i < NUM ==> OwnerOk(free, reqs, owner, i))
    && (forall h {:trigger ChainOk(free, desc, ops, info, bufs, h, reqs[h])} :: h in reqs ==>
          ChainOk(free, desc, ops, info, bufs, h, reqs[h]) && Owns(owner, h, reqs[h]) && UserIs(reqs, user, h))
    && (forall b {:trigger UserOf(bufs, reqs, user, b)} :: b in bufs && bufs[b].busy ==> UserOf(bufs, reqs, user, b))
  }

  // ---- The rings -----------------------------------------------------------------------------------

  // avail holds what the device has not taken; used holds what the driver has not seen.
  ghost predicate Rings(avail: seq<nat>, used: seq<nat>, subs: seq<nat>, taken: nat, comps: seq<nat>, seen: nat, reqs: map<nat, Req>) {
    && |avail| == |used| == NUM && taken <= |subs| && seen <= |comps|
    && (forall k :: taken <= k < |subs| ==> subs[k] in reqs && reqs[subs[k]].phase == Avail(k) && avail[k % NUM] == subs[k])
    && (forall k :: seen <= k < |comps| ==> comps[k] in reqs && reqs[comps[k]].phase == Used(k) && used[k % NUM] == comps[k])
    && (forall h :: h in reqs && reqs[h].phase.Avail? ==> taken <= reqs[h].phase.k < |subs| && subs[reqs[h].phase.k] == h)
    && (forall h :: h in reqs && reqs[h].phase.Used? ==> seen <= reqs[h].phase.k < |comps| && comps[reqs[h].phase.k] == h)
  }

  // Nothing in a ring can be overwritten: at most NUM requests exist.
  lemma RoomInAvail(avail: seq<nat>, used: seq<nat>, subs: seq<nat>, taken: nat, comps: seq<nat>, seen: nat, reqs: map<nat, Req>, h: nat)
    requires Rings(avail, used, subs, taken, comps, seen, reqs) && (forall x :: x in reqs ==> x < NUM) && h < NUM
    requires h !in reqs || !reqs[h].phase.Avail?
    ensures |subs| - taken < NUM
  {
    var s := subs[taken..] + [h];
    forall i, j | 0 <= i < j < |s| ensures !Same(s, i, j) {
      assert s[i] == subs[taken + i] && reqs[subs[taken + i]].phase == Avail(taken + i);
      if j < |s| - 1 {
        assert s[j] == subs[taken + j] && reqs[subs[taken + j]].phase == Avail(taken + j);
      }
    }
    forall i | 0 <= i < |s| ensures s[i] < NUM {
      assert i < |s| - 1 ==> s[i] == subs[taken + i];
    }
    Pigeonhole(s, NUM);
  }

  lemma RoomInUsed(avail: seq<nat>, used: seq<nat>, subs: seq<nat>, taken: nat, comps: seq<nat>, seen: nat, reqs: map<nat, Req>, h: nat)
    requires Rings(avail, used, subs, taken, comps, seen, reqs) && (forall x :: x in reqs ==> x < NUM) && h < NUM
    requires h !in reqs || !reqs[h].phase.Used?
    ensures |comps| - seen < NUM
  {
    var s := comps[seen..] + [h];
    forall i, j | 0 <= i < j < |s| ensures !Same(s, i, j) {
      assert s[i] == comps[seen + i] && reqs[comps[seen + i]].phase == Used(seen + i);
      if j < |s| - 1 {
        assert s[j] == comps[seen + j] && reqs[comps[seen + j]].phase == Used(seen + j);
      }
    }
    forall i | 0 <= i < |s| ensures s[i] < NUM {
      assert i < |s| - 1 ==> s[i] == comps[seen + i];
    }
    Pigeonhole(s, NUM);
  }

  lemma RoomLast(avail: seq<nat>, used: seq<nat>, subs: seq<nat>, taken: nat, comps: seq<nat>, seen: nat, reqs: map<nat, Req>)
    requires Rings(avail, used, subs, taken, comps, seen, reqs) && (forall x :: x in reqs ==> x < NUM)
    ensures |subs| - taken <= NUM
  {
    var s := subs[taken..];
    forall i, j | 0 <= i < j < |s| ensures !Same(s, i, j) {
      assert reqs[subs[taken + i]].phase == Avail(taken + i) && reqs[subs[taken + j]].phase == Avail(taken + j);
    }
    Pigeonhole(s, NUM);
  }

  lemma RoomLastUsed(avail: seq<nat>, used: seq<nat>, subs: seq<nat>, taken: nat, comps: seq<nat>, seen: nat, reqs: map<nat, Req>)
    requires Rings(avail, used, subs, taken, comps, seen, reqs) && (forall x :: x in reqs ==> x < NUM)
    ensures |comps| - seen <= NUM
  {
    var s := comps[seen..];
    forall i, j | 0 <= i < j < |s| ensures !Same(s, i, j) {
      assert reqs[comps[seen + i]].phase == Used(seen + i) && reqs[comps[seen + j]].phase == Used(seen + j);
    }
    Pigeonhole(s, NUM);
  }

  // ---- What each step does to the chains --------------------------------------------------------------

  ghost predicate Unrequested(reqs: map<nat, Req>, b: nat) {
    forall h :: h in reqs ==> reqs[h].b != b
  }

  function NewDesc(desc: seq<Desc>, h: nat, r: Req): seq<Desc>
    requires h < |desc| && r.d1 < |desc| && r.d2 < |desc|
  {
    desc[h := Desc(ToOp(h), true, false, r.d1)][r.d1 := Desc(ToData(r.b), true, !r.write, r.d2)][r.d2 := Desc(ToStatus(h), false, true, 0)]
  }

  lemma ChainsAdd(free: seq<bool>, desc: seq<Desc>, ops: seq<Op>, info: seq<Info>, bufs: map<nat, Buf>, reqs: map<nat, Req>, owner: seq<nat>,
                  user: map<nat, nat>, h: nat, r: Req)
    requires Chains(free, desc, ops, info, bufs, reqs, owner, user) && r.b in bufs && Unrequested(reqs, r.b) && r.phase.Avail?
    requires h < NUM && r.d1 < NUM && r.d2 < NUM && h != r.d1 && h != r.d2 && r.d1 != r.d2 && free[h] && free[r.d1] && free[r.d2]
    ensures h !in reqs
    ensures Chains(free[h := false][r.d1 := false][r.d2 := false], NewDesc(desc, h, r), ops[h := Op(r.write, Sector(bufs[r.b].blockno))],
                   info[h := Info(r.b, 0xff)], bufs[r.b := bufs[r.b].(busy := true)], reqs[h := r], owner[h := h][r.d1 := h][r.d2 := h], user[r.b := h])
  {
    forall x | x in reqs ensures x < NUM && !free[x] {
      assert ChainOk(free, desc, ops, info, bufs, x, reqs[x]);
    }
    var free', desc', ops' := free[h := false][r.d1 := false][r.d2 := false], NewDesc(desc, h, r), ops[h := Op(r.write, Sector(bufs[r.b].blockno))];
    var info', bufs', reqs' := info[h := Info(r.b, 0xff)], bufs[r.b := bufs[r.b].(busy := true)], reqs[h := r];
    var owner' := owner[h := h][r.d1 := h][r.d2 := h];
    forall x | x in reqs'
      ensures ChainOk(free', desc', ops', info', bufs', x, reqs'[x]) && Owns(owner', x, reqs'[x]) && UserIs(reqs', user[r.b := h], x)
    {
      assert x != h ==> ChainOk(free, desc, ops, info, bufs, x, reqs[x]) && Owns(owner, x, reqs[x]) && UserIs(reqs, user, x);
    }
    forall b | b in bufs' && bufs'[b].busy ensures UserOf(bufs', reqs', user[r.b := h], b) {
      assert b != r.b ==> UserOf(bufs, reqs, user, b);
    }
    forall i | 0 <= i < NUM ensures OwnerOk(free', reqs', owner', i) {
      assert OwnerOk(free, reqs, owner, i);
    }
  }

  // What a free descriptor holds does not matter.
  lemma ChainsDesc(free: seq<bool>, desc: seq<Desc>, desc': seq<Desc>, ops: seq<Op>, info: seq<Info>, bufs: map<nat, Buf>, reqs: map<nat, Req>,
                   owner: seq<nat>, user: map<nat, nat>)
    requires Chains(free, desc, ops, info, bufs, reqs, owner, user) && |desc'| == NUM
    requires forall i :: 0 <= i < NUM && !free[i] ==> desc'[i] == desc[i]
    ensures Chains(free, desc', ops, info, bufs, reqs, owner, user)
  {
    forall x | x in reqs ensures ChainOk(free, desc', ops, info, bufs, x, reqs[x]) && Owns(owner, x, reqs[x]) && UserIs(reqs, user, x) {
      assert ChainOk(free, desc, ops, info, bufs, x, reqs[x]);
    }
  }

  // A request moves on; only its own status, buffer contents and busy flag may change.
  lemma ChainsMove(free: seq<bool>, desc: seq<Desc>, ops: seq<Op>, info: seq<Info>, bufs: map<nat, Buf>, reqs: map<nat, Req>, owner: seq<nat>,
                   user: map<nat, nat>, h: nat, phase: Phase, data: Block)
    requires Chains(free, desc, ops, info, bufs, reqs, owner, user) && h in reqs
    ensures reqs[h].b in bufs && h < NUM
    ensures var b := reqs[h].b; var done := phase.Used? || phase.Seen?;
            Chains(free, desc, ops, info[h := Info(b, if done then 0 else 0xff)], bufs[b := Buf(bufs[b].blockno, data, !phase.Seen?)],
                   reqs[h := reqs[h].(phase := phase)], owner, user)
  {
    assert ChainOk(free, desc, ops, info, bufs, h, reqs[h]);
    var b, done := reqs[h].b, phase.Used? || phase.Seen?;
    var info', bufs' := info[h := Info(b, if done then 0 else 0xff)], bufs[b := Buf(bufs[b].blockno, data, !phase.Seen?)];
    var reqs' := reqs[h := reqs[h].(phase := phase)];
    forall x | x in reqs' ensures ChainOk(free, desc, ops, info', bufs', x, reqs'[x]) && Owns(owner, x, reqs'[x]) && UserIs(reqs', user, x) {
      assert ChainOk(free, desc, ops, info, bufs, x, reqs[x]) && Owns(owner, x, reqs[x]) && UserIs(reqs, user, x) && UserIs(reqs, user, h);
    }
    forall c | c in bufs' && bufs'[c].busy ensures UserOf(bufs', reqs', user, c) {
      assert c == b ==> UserIs(reqs, user, h);
      assert c != b ==> UserOf(bufs, reqs, user, c);
    }
    forall i | 0 <= i < NUM ensures OwnerOk(free, reqs', owner, i) {
      assert OwnerOk(free, reqs, owner, i);
    }
  }

  lemma ChainsRemove(free: seq<bool>, desc: seq<Desc>, ops: seq<Op>, info: seq<Info>, bufs: map<nat, Buf>, reqs: map<nat, Req>, owner: seq<nat>,
                     user: map<nat, nat>, h: nat)
    requires Chains(free, desc, ops, info, bufs, reqs, owner, user) && h in reqs && reqs[h].phase.Seen?
    ensures var r := reqs[h];
            && h < NUM && r.d1 < NUM && r.d2 < NUM
            && Chains(free[h := true][r.d1 := true][r.d2 := true], desc[h := CLEAR][r.d1 := CLEAR][r.d2 := CLEAR], ops,
                      info[h := info[h].(b := -1)], bufs, reqs - {h}, owner, user)
  {
    var r := reqs[h];
    assert ChainOk(free, desc, ops, info, bufs, h, r) && Owns(owner, h, r);
    var free', desc' := free[h := true][r.d1 := true][r.d2 := true], desc[h := CLEAR][r.d1 := CLEAR][r.d2 := CLEAR];
    var info', reqs' := info[h := info[h].(b := -1)], reqs - {h};
    forall x | x in reqs' ensures ChainOk(free', desc', ops, info', bufs, x, reqs'[x]) && Owns(owner, x, reqs'[x]) && UserIs(reqs', user, x) {
      assert ChainOk(free, desc, ops, info, bufs, x, reqs[x]) && Owns(owner, x, reqs[x]) && UserIs(reqs, user, x);
    }
    forall b | b in bufs && bufs[b].busy ensures UserOf(bufs, reqs', user, b) {
      assert UserOf(bufs, reqs, user, b);
    }
    forall i | 0 <= i < NUM ensures OwnerOk(free', reqs', owner, i) {
      assert OwnerOk(free, reqs, owner, i);
    }
  }

  // ---- and to the rings ------------------------------------------------------------------------------

  lemma RingsSubmit(avail: seq<nat>, used: seq<nat>, subs: seq<nat>, taken: nat, comps: seq<nat>, seen: nat, reqs: map<nat, Req>, h: nat, r: Req,
                    slot: nat)
    requires Rings(avail, used, subs, taken, comps, seen, reqs) && h !in reqs && r.phase == Avail(|subs|) && |subs| - taken < NUM
    requires slot == |subs| % NUM
    ensures Rings(avail[slot := h], used, subs + [h], taken, comps, seen, reqs[h := r])
  {
    forall k | taken <= k < |subs| ensures k % NUM != |subs| % NUM {
      DistinctSlots(k, |subs|, NUM);
    }
  }

  lemma RingsTake(avail: seq<nat>, used: seq<nat>, subs: seq<nat>, taken: nat, comps: seq<nat>, seen: nat, reqs: map<nat, Req>, next: nat)
    requires Rings(avail, used, subs, taken, comps, seen, reqs) && taken < |subs| && next == taken + 1
    ensures subs[taken] in reqs
    ensures Rings(avail, used, subs, next, comps, seen, reqs[subs[taken] := reqs[subs[taken]].(phase := Taken)])
  {
    assert reqs[subs[taken]].phase == Avail(taken);
  }

  lemma RingsComplete(avail: seq<nat>, used: seq<nat>, subs: seq<nat>, taken: nat, comps: seq<nat>, seen: nat, reqs: map<nat, Req>, h: nat,
                      slot: nat)
    requires Rings(avail, used, subs, taken, comps, seen, reqs) && h in reqs && reqs[h].phase.Taken? && |comps| - seen < NUM
    requires slot == |comps| % NUM
    ensures Rings(avail, used[slot := h], subs, taken, comps + [h], seen, reqs[h := reqs[h].(phase := Used(|comps|))])
  {
    forall k | seen <= k < |comps| ensures k % NUM != |comps| % NUM {
      DistinctSlots(k, |comps|, NUM);
    }
  }

  lemma RingsSeen(avail: seq<nat>, used: seq<nat>, subs: seq<nat>, taken: nat, comps: seq<nat>, seen: nat, reqs: map<nat, Req>, next: nat)
    requires Rings(avail, used, subs, taken, comps, seen, reqs) && seen < |comps| && next == seen + 1
    ensures comps[seen] in reqs
    ensures Rings(avail, used, subs, taken, comps, next, reqs[comps[seen] := reqs[comps[seen]].(phase := Seen)])
  {
    assert reqs[comps[seen]].phase == Used(seen);
  }

  lemma RingsRemove(avail: seq<nat>, used: seq<nat>, subs: seq<nat>, taken: nat, comps: seq<nat>, seen: nat, reqs: map<nat, Req>, h: nat)
    requires Rings(avail, used, subs, taken, comps, seen, reqs) && h in reqs && reqs[h].phase.Seen?
    ensures Rings(avail, used, subs, taken, comps, seen, reqs - {h})
  {
  }

  ghost predicate Driver(free: seq<bool>, desc: seq<Desc>, ops: seq<Op>, info: seq<Info>, bufs: map<nat, Buf>, image: seq<Block>,
                         reqs: map<nat, Req>, owner: seq<nat>, user: map<nat, nat>) {
    Chains(free, desc, ops, info, bufs, reqs, owner, user) && forall b :: b in bufs ==> bufs[b].blockno < |image|
  }

  ghost predicate Queues(avail: seq<nat>, used: seq<nat>, availIdx: nat, usedIdx: nat, seenIdx: nat, devIdx: nat,
                         reqs: map<nat, Req>, subs: seq<nat>, taken: nat, comps: seq<nat>, seen: nat) {
    && Rings(avail, used, subs, taken, comps, seen, reqs) && (forall h :: h in reqs ==> h < NUM)
    && availIdx == |subs| % WRAP && usedIdx == |comps| % WRAP && seenIdx == seen % WRAP && devIdx == taken % WRAP
  }

  class Disk {
    var free: seq<bool>
    var desc: seq<Desc>
    var ops: seq<Op>
    var info: seq<Info>
    var bufs: map<nat, Buf>
    // The avail ring and its index, the used ring and its index, the driver's used_idx,
    // and how far the device has read the avail ring.
    var avail: seq<nat>
    var availIdx: nat
    var used: seq<nat>
    var usedIdx: nat
    var seenIdx: nat
    var devIdx: nat
    var image: seq<Block>
    // Requests by head descriptor, and everything ever submitted and completed.
    ghost var reqs: map<nat, Req>
    ghost var owner: seq<nat>
    ghost var user: map<nat, nat>
    ghost var subs: seq<nat>
    ghost var taken: nat
    ghost var comps: seq<nat>
    ghost var seen: nat

    // The descriptors fit the requests rs.
    ghost predicate ChainsFit(rs: map<nat, Req>, owner: seq<nat>, user: map<nat, nat>)
      reads `free, `desc, `ops, `info, `bufs, `image
    {
      Driver(free, desc, ops, info, bufs, image, rs, owner, user)
    }

    // The rings and their 16-bit indices fit them.
    ghost predicate RingsFit(rs: map<nat, Req>, subs: seq<nat>, taken: nat, comps: seq<nat>, seen: nat)
      reads `avail, `used, `availIdx, `usedIdx, `seenIdx, `devIdx
    {
      Queues(avail, used, availIdx, usedIdx, seenIdx, devIdx, rs, subs, taken, comps, seen)
    }

    ghost predicate Valid()
      reads this
    {
      ChainsFit(reqs, owner, user) && RingsFit(reqs, subs, taken, comps, seen)
    }

    // The bookkeeping of a step whose two halves are done.
    ghost method Record(reqs1: map<nat, Req>, owner1: seq<nat>, user1: map<nat, nat>, subs1: seq<nat>, taken1: nat, comps1: seq<nat>, seen1: nat)
      requires ChainsFit(reqs1, owner1, user1) && RingsFit(reqs1, subs1, taken1, comps1, seen1)
      modifies `reqs, `owner, `user, `subs, `taken, `comps, `seen
      ensures Valid() && reqs == reqs1 && owner == owner1 && user == user1 && subs == subs1 && taken == taken1 && comps == comps1 && seen == seen1
    {
      RecordQueues(subs1, taken1, comps1, seen1);
      reqs, owner, user := reqs1, owner1, user1;
    }

    ghost method RecordQueues(subs1: seq<nat>, taken1: nat, comps1: seq<nat>, seen1: nat)
      modifies `subs, `taken, `comps, `seen
      ensures subs == subs1 && taken == taken1 && comps == comps1 && seen == seen1
    {
      subs, taken, comps, seen := subs1, taken1, comps1, seen1;
    }

    // virtio_disk_init
    constructor (bufs: map<nat, Buf>, image: seq<Block>)
      requires forall b :: b in bufs ==> !bufs[b].busy && bufs[b].blockno < |image|
      ensures Valid() && reqs == map[] && this.bufs == bufs && this.image == image
    {
      free, desc, ops, info := seq(NUM, _ => true), seq(NUM, _ => CLEAR), seq(NUM, _ => Op(false, 0)), seq(NUM, _ => Info(-1, 0));
      avail, used, availIdx, usedIdx, seenIdx, devIdx := seq(NUM, _ => 0), seq(NUM, _ => 0), 0, 0, 0, 0;
      this.bufs, this.image := bufs, image;
      reqs, owner, user, subs, taken, comps, seen := map[], seq(NUM, _ => 0), map[], [], 0, [], 0;
    }

    // alloc_desc
    method AllocDesc() returns (ok: bool, i: nat)
      requires |free| == NUM
      modifies `free
      ensures if ok then i < NUM && old(free)[i] && free == old(free)[i := false] else free == old(free) && forall k :: 0 <= k < NUM ==> !free[k]
    {
      i := 0;
      while i < NUM
        invariant i <= NUM && free == old(free) && forall k :: 0 <= k < i ==> !free[k]
      {
        if free[i] {
          free := free[i := false];
          return true, i;
        }
        i := i + 1;
      }
      ok := false;
    }

    // free_desc, whose two panics its callers rule out.
    method FreeDesc(i: nat)
      requires |free| == |desc| == NUM && i < NUM && !free[i]
      modifies `free, `desc
      ensures free == old(free)[i := true] && desc == old(desc)[i := CLEAR]
    {
      desc := desc[i := CLEAR];
      free := free[i := true];
    }

    /** alloc3_desc: three different free descriptors, or, when there are fewer than three,
        none. */
    method Alloc3() returns (ok: bool, h: nat, d1: nat, d2: nat)
      requires |free| == |desc| == NUM
      modifies `free, `desc
      ensures |desc| == NUM && forall i :: 0 <= i < NUM && !old(free)[i] ==> desc[i] == old(desc)[i]
      ensures ok ==> h < NUM && d1 < NUM && d2 < NUM && h != d1 && h != d2 && d1 != d2 && old(free)[h] && old(free)[d1] && old(free)[d2]
      ensures ok ==> free == old(free)[h := false][d1 := false][d2 := false] && desc == old(desc)
      ensures !ok ==> free == old(free) && FewerThan3(free)
    {
      d1, d2 := 0, 0;
      ok, h := AllocDesc();
      if !ok {
        return;
      }
      ok, d1 := AllocDesc();
      if !ok {
        FreeDesc(h);
        assert free == old(free);
        return;
      }
      ok, d2 := AllocDesc();
      if !ok {
        FreeDesc(h);
        FreeDesc(d1);
        assert free == old(free);
      }
    }

    /** virtio_disk_rw up to its wait.  Either three descriptors are free and the request is
        handed to the device, or it has to sleep and nothing changes. */
    method Submit(b: nat, write: bool) returns (ok: bool, h: nat)
      requires Valid() && b in bufs && Unrequested(reqs, b)
      modifies `free, `desc, `ops, `info, `bufs, `avail, `availIdx, `reqs, `owner, `user, `subs, `taken, `comps, `seen
      ensures Valid()
      ensures ok ==> h !in old(reqs) && h in reqs && reqs == old(reqs)[h := reqs[h]] && reqs[h].b == b && reqs[h].write == write
      ensures ok ==> bufs == old(bufs)[b := old(bufs)[b].(busy := true)] && reqs[h].phase.Avail?
      ensures !ok ==> reqs == old(reqs) && bufs == old(bufs) && FewerThan3(free)
    {
      ghost var r, owner1;
      ok, h, r, owner1 := FormatChain(b, write);
      if ok {
        HandOver(h, r, reqs[h := r], owner1, user[b := h]);
      }
    }

    // The formatted request goes into the avail ring.
    method HandOver(h: nat, ghost r: Req, ghost reqs1: map<nat, Req>, ghost owner1: seq<nat>, ghost user1: map<nat, nat>)
      requires RingsFit(reqs, subs, taken, comps, seen) && h < NUM && h !in reqs && r.phase == Avail(|subs|)
      requires reqs1 == reqs[h := r] && ChainsFit(reqs1, owner1, user1)
      modifies `avail, `availIdx, `reqs, `owner, `user, `subs, `taken, `comps, `seen
      ensures Valid() && reqs == reqs1
    {
      ghost var subs1 := subs + [h];
      PushAvail(h, r, reqs1, subs1);
      Record(reqs1, owner1, user1, subs1, taken, comps, seen);
    }

    // The chain of a new request: descriptors, command header and the driver's record of it.
    method FormatChain(b: nat, write: bool) returns (ok: bool, h: nat, ghost r: Req, ghost owner1: seq<nat>)
      requires ChainsFit(reqs, owner, user) && b in bufs && Unrequested(reqs, b)
      modifies `free, `desc, `ops, `info, `bufs
      ensures if ok then
                && h < NUM && h !in reqs && r == Req(b, write, r.d1, r.d2, Avail(|subs|))
                && ChainsFit(reqs[h := r], owner1, user[b := h])
                && bufs == old(bufs)[b := old(bufs)[b].(busy := true)]
              else ChainsFit(reqs, owner, user) && bufs == old(bufs) && FewerThan3(free)
    {
      ghost var free0, desc0 := free, desc;
      var d1, d2;
      ok, h, d1, d2 := Alloc3();
      r := Req(b, write, d1, d2, Avail(|subs|));
      if ok {
        ChainsAdd(free0, desc, ops, info, bufs, reqs, owner, user, h, r);
        Format(b, write, h, d1, d2, r);
        owner1 := owner[h := h][d1 := h][d2 := h];
      } else {
        owner1 := owner;
        ChainsDesc(free, desc0, desc, ops, info, bufs, reqs, owner, user);
      }
    }

    // disk.avail->ring[disk.avail->idx % NUM] = h, and the index moves on.
    method PushAvail(h: nat, ghost r: Req, ghost reqs1: map<nat, Req>, ghost subs1: seq<nat>)
      requires RingsFit(reqs, subs, taken, comps, seen) && h < NUM && h !in reqs && r.phase == Avail(|subs|)
      requires reqs1 == reqs[h := r] && subs1 == subs + [h]
      modifies `avail, `availIdx
      ensures RingsFit(reqs1, subs1, taken, comps, seen)
    {
      RoomInAvail(avail, used, subs, taken, comps, seen, reqs, h);
      WrapIndex(|subs|, WRAP, NUM, 0x2000);
      WrapNext(|subs|);
      var slot := availIdx % NUM;
      RingsSubmit(avail, used, subs, taken, comps, seen, reqs, h, r, slot);
      avail := avail[slot := h];
      availIdx := (availIdx + 1) % WRAP;
    }

    // The three descriptors, the command header and the driver's own record of it.
    method Format(b: nat, write: bool, h: nat, d1: nat, d2: nat, ghost r: Req)
      requires |desc| == |ops| == |info| == NUM && h < NUM && d1 < NUM && d2 < NUM && b in bufs && r.(phase := Taken) == Req(b, write, d1, d2, Taken)
      modifies `desc, `ops, `info, `bufs
      ensures desc == NewDesc(old(desc), h, r) && ops == old(ops)[h := Op(write, Sector(old(bufs)[b].blockno))]
      ensures info == old(info)[h := Info(b, 0xff)] && bufs == old(bufs)[b := old(bufs)[b].(busy := true)]
    {
      ops := ops[h := Op(write, Sector(bufs[b].blockno))];
      desc := desc[h := Desc(ToOp(h), true, false, d1)];
      desc := desc[d1 := Desc(ToData(b), true, !write, d2)];
      info := info[h := Info(info[h].b, 0xff)];
      desc := desc[d2 := Desc(ToStatus(h), false, true, 0)];
      bufs := bufs[b := bufs[b].(busy := true)];
      info := info[h := Info(b, info[h].status)];
    }

    // The device reads the next entry of the avail ring.
    method DeviceTake() returns (got: bool, h: nat)
      requires Valid()
      modifies `devIdx, `reqs, `owner, `user, `subs, `taken, `comps, `seen
      ensures Valid() && (got <==> AnyAvail(old(reqs)))
      ensures got ==> h in old(reqs) && old(reqs)[h].phase.Avail? && reqs == old(reqs)[h := old(reqs)[h].(phase := Taken)]
      ensures !got ==> reqs == old(reqs)
    {
      got, h := PopAvail();
      if got {
        ghost var reqs1, taken1 := reqs[h := reqs[h].(phase := Taken)], taken + 1;
        MoveToTaken(h);
        Record(reqs1, owner, user, subs, taken1, comps, seen);
      }
    }

    method PopAvail() returns (got: bool, h: nat)
      requires RingsFit(reqs, subs, taken, comps, seen)
      modifies `devIdx
      ensures got <==> AnyAvail(reqs)
      ensures got ==> h in reqs && reqs[h].phase.Avail? && RingsFit(reqs[h := reqs[h].(phase := Taken)], subs, taken + 1, comps, seen)
      ensures !got ==> RingsFit(reqs, subs, taken, comps, seen)
    {
      RoomLast(avail, used, subs, taken, comps, seen, reqs);
      WrapDistance(taken, |subs|, WRAP, NUM);
      WrapIndex(taken, WRAP, NUM, 0x2000);
      h := avail[devIdx % NUM];
      got := devIdx != availIdx;
      if !got {
        NoneAvail();
      }
      if got {
        assert subs[taken] in reqs && reqs[subs[taken]].phase == Avail(taken) && h == subs[taken];
        RingsTake(avail, used, subs, taken, comps, seen, reqs, taken + 1);
        WrapNext(taken);
        devIdx := (devIdx + 1) % WRAP;
      }
    }

    lemma NoneAvail()
      requires RingsFit(reqs, subs, taken, comps, seen) && taken == |subs|
      ensures !AnyAvail(reqs)
    {
    }

    lemma MoveToTaken(h: nat)
      requires ChainsFit(reqs, owner, user) && h in reqs && reqs[h].phase.Avail?
      ensures ChainsFit(reqs[h := reqs[h].(phase := Taken)], owner, user)
    {
      assert ChainOk(free, desc, ops, info, bufs, h, reqs[h]);
      var b := reqs[h].b;
      ChainsMove(free, desc, ops, info, bufs, reqs, owner, user, h, Taken, bufs[b].data);
      assert info[h := Info(b, 0xff)] == info && bufs[b := Buf(bufs[b].blockno, bufs[b].data, true)] == bufs;
    }

    // The data of a request, found through its descriptors; where its status goes.
    method Transfer(h: nat, ghost r: Req) returns (st: nat)
      requires ChainOk(free, desc, ops, info, bufs, h, r) && bufs[r.b].blockno < |image|
      modifies `image, `bufs
      ensures st == h
      ensures image == Stored(old(image), old(bufs), r) && bufs == Loaded(old(image), old(bufs), r)
    {
      OwnBlockIff(bufs[r.b].blockno);
      var first := desc[h];
      var op := ops[first.addr.i];
      var second := desc[first.nxt];
      var b := second.addr.b;
      var third := desc[second.nxt];
      var n := op.sector / 2;
      if op.write {
        image := image[n := bufs[b].data];
      } else {
        bufs := bufs[b := bufs[b].(data := image[n])];
      }
      st := third.addr.i;
    }

    /** The device carries out a request it has taken, as the descriptors say: a write
        stores the buffer in its block, a read fills the buffer from it, and nothing else
        of the disk or of any other buffer changes. */
    method DeviceComplete(h: nat)
      requires Valid() && h in reqs && reqs[h].phase.Taken?
      modifies `image, `bufs, `info, `used, `usedIdx, `reqs, `owner, `user, `subs, `taken, `comps, `seen
      ensures Valid() && reqs == old(reqs)[h := old(reqs)[h].(phase := Used(|old(comps)|))]
      ensures image == Stored(old(image), old(bufs), old(reqs)[h]) && bufs == Loaded(old(image), old(bufs), old(reqs)[h])
    {
      ghost var r := reqs[h].(phase := Used(|comps|));
      ghost var reqs1, comps1 := reqs[h := r], comps + [h];
      CarryOut(h, r, reqs1);
      PushUsed(h, r, reqs1, comps1);
      Record(reqs1, owner, user, subs, taken, comps1, seen);
    }

    method CarryOut(h: nat, ghost r: Req, ghost reqs1: map<nat, Req>)
      requires ChainsFit(reqs, owner, user) && h in reqs && reqs[h].phase.Taken? && r == reqs[h].(phase := r.phase) && r.phase.Used?
      requires reqs1 == reqs[h := r]
      modifies `image, `bufs, `info
      ensures ChainsFit(reqs1, owner, user)
      ensures image == Stored(old(image), old(bufs), reqs[h]) && bufs == Loaded(old(image), old(bufs), reqs[h])
    {
      assert ChainOk(free, desc, ops, info, bufs, h, reqs[h]);
      var st := Transfer(h, reqs[h]);
      ChainsMove(free, desc, ops, info, old(bufs), reqs, owner, user, h, r.phase, bufs[r.b].data);
      assert bufs == old(bufs)[r.b := Buf(old(bufs)[r.b].blockno, bufs[r.b].data, true)];
      info := info[st := info[st].(status := 0)];
      assert info == old(info)[h := Info(r.b, 0)];
    }

    method PushUsed(h: nat, ghost r: Req, ghost reqs1: map<nat, Req>, ghost comps1: seq<nat>)
      requires RingsFit(reqs, subs, taken, comps, seen) && h in reqs && reqs[h].phase.Taken? && r == reqs[h].(phase := Used(|comps|))
      requires reqs1 == reqs[h := r] && comps1 == comps + [h]
      modifies `used, `usedIdx
      ensures RingsFit(reqs1, subs, taken, comps1, seen)
    {
      RoomInUsed(avail, used, subs, taken, comps, seen, reqs, h);
      WrapIndex(|comps|, WRAP, NUM, 0x2000);
      WrapNext(|comps|);
      var slot := usedIdx % NUM;
      RingsComplete(avail, used, subs, taken, comps, seen, reqs, h, slot);
      used := used[slot := h];
      usedIdx := (usedIdx + 1) % WRAP;
    }

    /** virtio_disk_intr: every completion in the used ring has status 0 and names the
        request of its own buffer.  Exactly the buffers of completed requests are no longer
        busy, and no contents change. */
    method Interrupt()
      requires Valid()
      modifies `info, `bufs, `seenIdx, `reqs, `owner, `user, `subs, `taken, `comps, `seen
      ensures Valid() && reqs.Keys == old(reqs).Keys
      ensures forall h :: h in reqs ==> reqs[h] == if old(reqs)[h].phase.Used? then old(reqs)[h].(phase := Seen) else old(reqs)[h]
      ensures bufs == LetGo(old(bufs), old(reqs), UsedOf(old(reqs)))
    {
      ghost var done: set<nat> := {};
      UsedLeft();
      while seenIdx != usedIdx
        invariant Valid() && (seenIdx == usedIdx <==> seen == |comps|) && seen <= |comps|
        invariant Informed(old(bufs), old(reqs), done, bufs, reqs)
        decreases |comps| - seen
      {
        ghost var id := comps[seen];
        ghost var bufs1, reqs1 := bufs, reqs;
        IntrOne();
        InformedMore(old(bufs), old(reqs), done, bufs1, reqs1, id, bufs, reqs);
        done := done + {id};
        UsedLeft();
      }
      NoneUsed();
      InformedAll(old(bufs), old(reqs), done, bufs, reqs);
    }

    lemma UsedLeft()
      requires RingsFit(reqs, subs, taken, comps, seen)
      ensures seen <= |comps| && (seenIdx == usedIdx <==> seen == |comps|)
    {
      RoomLastUsed(avail, used, subs, taken, comps, seen, reqs);
      WrapDistance(seen, |comps|, WRAP, NUM);
    }

    lemma NoneUsed()
      requires RingsFit(reqs, subs, taken, comps, seen) && seen == |comps|
      ensures forall h :: h in reqs ==> !reqs[h].phase.Used?
    {
    }

    method IntrOne()
      requires Valid() && seen < |comps|
      modifies `info, `bufs, `seenIdx, `reqs, `owner, `user, `subs, `taken, `comps, `seen
      ensures Valid() && comps == old(comps) && seen == old(seen) + 1 && comps[old(seen)] in old(reqs) && old(reqs)[comps[old(seen)]].phase.Used?
      ensures reqs == old(reqs)[comps[old(seen)] := old(reqs)[comps[old(seen)]].(phase := Seen)]
      ensures var b := old(reqs)[comps[old(seen)]].b; b in old(bufs) && bufs == old(bufs)[b := old(bufs)[b].(busy := false)]
    {
      ghost var next := seen + 1;
      var id := PopUsed(next);
      ghost var reqs1 := reqs[id := reqs[id].(phase := Seen)];
      Complete(id, reqs1);
      Record(reqs1, owner, user, subs, taken, comps, next);
    }

    method PopUsed(ghost next: nat) returns (id: nat)
      requires RingsFit(reqs, subs, taken, comps, seen) && seen < |comps| && next == seen + 1
      modifies `seenIdx
      ensures id == comps[seen] && id in reqs && reqs[id].phase.Used?
      ensures RingsFit(reqs[id := reqs[id].(phase := Seen)], subs, taken, comps, next)
    {
      WrapIndex(seen, WRAP, NUM, 0x2000);
      assert comps[seen] in reqs && reqs[comps[seen]].phase == Used(seen);
      id := used[seenIdx % NUM];
      RingsSeen(avail, used, subs, taken, comps, seen, reqs, next);
      WrapNext(seen);
      seenIdx := (seenIdx + 1) % WRAP;
    }

    // The status is 0, so the driver does not panic, and b is the request's own buffer.
    method Complete(id: nat, ghost reqs1: map<nat, Req>)
      requires ChainsFit(reqs, owner, user) && id in reqs && reqs[id].phase.Used? && reqs1 == reqs[id := reqs[id].(phase := Seen)]
      modifies `bufs
      ensures ChainsFit(reqs1, owner, user)
      ensures reqs[id].b in old(bufs) && bufs == old(bufs)[reqs[id].b := old(bufs)[reqs[id].b].(busy := false)]
    {
      assert ChainOk(free, desc, ops, info, bufs, id, reqs[id]);
      assert info[id].status == 0;
      var b := info[id].b;
      ChainsMove(free, desc, ops, info, bufs, reqs, owner, user, id, Seen, bufs[b].data);
      assert info[id := Info(b, 0)] == info;
      bufs := bufs[b := bufs[b].(busy := false)];
    }

    /** free_chain frees exactly the three descriptors of the chain; free_desc never
        panics. */
    method FreeChain(h: nat, ghost d1: nat, ghost d2: nat)
      requires |free| == |desc| == NUM && h < NUM && d1 < NUM && d2 < NUM && h != d1 && h != d2 && d1 != d2
      requires !free[h] && !free[d1] && !free[d2] && desc[h].next && desc[h].nxt == d1 && desc[d1].next && desc[d1].nxt == d2 && !desc[d2].next
      modifies `free, `desc
      ensures free == old(free)[h := true][d1 := true][d2 := true] && desc == old(desc)[h := CLEAR][d1 := CLEAR][d2 := CLEAR]
    {
      var i, go := h, true;
      ghost var step := 0;
      while go
        invariant |free| == |desc| == NUM && step <= 3 && (go <==> step < 3)
        invariant step == 0 ==> i == h && free == old(free) && desc == old(desc)
        invariant step == 1 ==> i == d1 && free == old(free)[h := true] && desc == old(desc)[h := CLEAR]
        invariant step == 2 ==> i == d2 && free == old(free)[h := true][d1 := true] && desc == old(desc)[h := CLEAR][d1 := CLEAR]
        invariant step == 3 ==> free == old(free)[h := true][d1 := true][d2 := true] && desc == old(desc)[h := CLEAR][d1 := CLEAR][d2 := CLEAR]
        decreases 3 - step
      {
        var flag, nxt := desc[i].next, desc[i].nxt;
        FreeDesc(i);
        if flag {
          i := nxt;
        } else {
          go := false;
        }
        step := step + 1;
      }
    }

    /** The end of virtio_disk_rw, once the buffer is no longer busy: exactly the request's
        own chain is freed. */
    method Finish(h: nat)
      requires Valid() && h in reqs && reqs[h].phase.Seen?
      modifies `free, `desc, `info, `reqs
      ensures Valid() && reqs == old(reqs) - {h}
      ensures var r := old(reqs)[h];
              h < NUM && r.d1 < NUM && r.d2 < NUM && free == old(free)[h := true][r.d1 := true][r.d2 := true]
    {
      RingsRemove(avail, used, subs, taken, comps, seen, reqs, h);
      GiveUp(h, reqs - {h});
      reqs := reqs - {h};
    }

    method GiveUp(h: nat, ghost reqs1: map<nat, Req>)
      requires ChainsFit(reqs, owner, user) && h in reqs && reqs[h].phase.Seen? && reqs1 == reqs - {h}
      modifies `free, `desc, `info
      ensures ChainsFit(reqs1, owner, user)
      ensures var r := reqs[h];
              h < NUM && r.d1 < NUM && r.d2 < NUM && |old(free)| == NUM && free == old(free)[h := true][r.d1 := true][r.d2 := true]
    {
      ghost var r := reqs[h];
      assert ChainOk(free, desc, ops, info, bufs, h, r);
      ChainsRemove(free, desc, ops, info, bufs, reqs, owner, user, h);
      info := info[h := info[h].(b := -1)];
      FreeChain(h, r.d1, r.d2);
    }

    /** From the device to the caller: a read leaves the block of its sector in the buffer,
        a write leaves the buffer's contents in that block, and the buffer is free to use. */
    method Serve(h: nat)
      requires Valid() && h in reqs && reqs[h].phase.Taken?
      modifies `image, `bufs, `info, `used, `usedIdx, `seenIdx, `free, `desc, `reqs, `owner, `user, `subs, `taken, `comps, `seen
      ensures Valid() && reqs.Keys == old(reqs).Keys - {h}
      ensures Served(old(image), old(bufs), old(reqs)[h], image, bufs)
    {
      assert ChainOk(free, desc, ops, info, bufs, h, reqs[h]);
      ghost var done := reqs[h].(phase := Used(|comps|));
      assert bufs[reqs[h].b].blockno < |image|;
      DeviceComplete(h);
      ghost var reqs1 := reqs;
      Interrupt();
      IsServed(old(image), old(bufs), old(reqs), h, done, reqs1, image, bufs);
      Finish(h);
    }
  }

  // The disk after a request, and the buffers after it.
  function Stored(image: seq<Block>, bufs: map<nat, Buf>, r: Req): seq<Block> {
    if r.write && r.b in bufs && Target(bufs[r.b].blockno) < |image| then image[Target(bufs[r.b].blockno) := bufs[r.b].data] else image
  }

  function Loaded(image: seq<Block>, bufs: map<nat, Buf>, r: Req): map<nat, Buf> {
    if !r.write && r.b in bufs && Target(bufs[r.b].blockno) < |image| then bufs[r.b := bufs[r.b].(data := image[Target(bufs[r.b].blockno)])] else bufs
  }

  ghost function UsedOf(reqs: map<nat, Req>): set<nat> {
    set h | h in reqs && reqs[h].phase.Used?
  }

  // b is the buffer of one of the requests hs.
  ghost predicate Among(reqs: map<nat, Req>, hs: set<nat>, b: nat) {
    exists h :: h in hs && h in reqs && reqs[h].b == b
  }

  // The buffers, with those of the requests hs no longer busy.
  ghost function LetGo(bufs: map<nat, Buf>, reqs: map<nat, Req>, hs: set<nat>): map<nat, Buf> {
    map b | b in bufs :: if Among(reqs, hs, b) then bufs[b].(busy := false) else bufs[b]
  }

  lemma LetGoMore(bufs: map<nat, Buf>, reqs: map<nat, Req>, hs: set<nat>, h: nat)
    requires h in reqs && reqs[h].b in bufs
    ensures var b, now := reqs[h].b, LetGo(bufs, reqs, hs);
            LetGo(bufs, reqs, hs + {h}) == now[b := now[b].(busy := false)]
  {
    assert Among(reqs, hs + {h}, reqs[h].b);
    forall b | b in bufs && b != reqs[h].b ensures Among(reqs, hs + {h}, b) <==> Among(reqs, hs, b) {
      if Among(reqs, hs, b) {
        var x :| x in hs && x in reqs && reqs[x].b == b;
        assert x in hs + {h};
      }
    }
  }

  // A request has been carried out and its buffer let go.
  ghost predicate Served(image0: seq<Block>, bufs0: map<nat, Buf>, r: Req, image: seq<Block>, bufs: map<nat, Buf>) {
    && r.b in bufs0 && r.b in bufs && !bufs[r.b].busy && bufs[r.b].blockno == bufs0[r.b].blockno && |image| == |image0|
    && var t := Target(bufs0[r.b].blockno);
       && t < |image| && image[t] == bufs[r.b].data
       && image == if r.write then image0[t := bufs0[r.b].data] else image0
  }

  lemma IsServed(image0: seq<Block>, bufs0: map<nat, Buf>, reqs0: map<nat, Req>, h: nat, done: Req, reqs: map<nat, Req>,
                 image: seq<Block>, bufs: map<nat, Buf>)
    requires h in reqs0 && reqs0[h].b in bufs0 && bufs0[reqs0[h].b].blockno < |image0| && done == reqs0[h].(phase := done.phase) && done.phase.Used? && reqs == reqs0[h := done]
    requires image == Stored(image0, bufs0, reqs0[h]) && bufs == LetGo(Loaded(image0, bufs0, reqs0[h]), reqs, UsedOf(reqs))
    ensures Served(image0, bufs0, reqs0[h], image, bufs)
  {
    OwnBlockIff(bufs0[reqs0[h].b].blockno);
    assert h in UsedOf(reqs) && Among(reqs, UsedOf(reqs), reqs[h].b);
  }

  // The interrupt handler, called on bufs0 and reqs0, has seen the completions of the
  // requests `done`.
  ghost predicate Informed(bufs0: map<nat, Buf>, reqs0: map<nat, Req>, done: set<nat>, bufs: map<nat, Buf>, reqs: map<nat, Req>) {
    && reqs.Keys == reqs0.Keys && done <= UsedOf(reqs0) && bufs == LetGo(bufs0, reqs0, done)
    && forall h :: h in reqs ==> reqs[h] == if h in done then reqs0[h].(phase := Seen) else reqs0[h]
  }

  lemma InformedMore(bufs0: map<nat, Buf>, reqs0: map<nat, Req>, done: set<nat>, bufs: map<nat, Buf>, reqs: map<nat, Req>, h: nat,
                     bufs': map<nat, Buf>, reqs': map<nat, Req>)
    requires Informed(bufs0, reqs0, done, bufs, reqs) && h in reqs && reqs[h].phase.Used? && reqs[h].b in bufs
    requires bufs' == bufs[reqs[h].b := bufs[reqs[h].b].(busy := false)] && reqs' == reqs[h := reqs[h].(phase := Seen)]
    ensures Informed(bufs0, reqs0, done + {h}, bufs', reqs')
  {
    LetGoMore(bufs0, reqs0, done, h);
  }

  lemma InformedAll(bufs0: map<nat, Buf>, reqs0: map<nat, Req>, done: set<nat>, bufs: map<nat, Buf>, reqs: map<nat, Req>)
    requires Informed(bufs0, reqs0, done, bufs, reqs) && forall h :: h in reqs ==> !reqs[h].phase.Used?
    ensures done == UsedOf(reqs0)
  {
    forall h | h in UsedOf(reqs0) ensures h in done {
      assert h in reqs;
    }
  }

  ghost predicate AnyAvail(reqs: map<nat, Req>) {
    exists h :: h in reqs && reqs[h].phase.Avail?
  }

  ghost predicate FewerThan3(free: seq<bool>) {
    forall i, j, k :: 0 <= i < j < k < |free| ==> !(free[i] && free[j] && free[k])
  }
}
