/** What several parts of the system share: constants of param.h, bytes, sequences
    without repetition, and counters that wrap. */
module Basics {

  const MAXOPBLOCKS := 10
  const LOGSIZE := 3 * MAXOPBLOCKS
  const NBUF := 3 * MAXOPBLOCKS

  type Byte = x: int | 0 <= x < 256

  function B2N(b: bool): nat {
    if b then 1 else 0
  }

  // The sequence with these bytes placed at off, extended if they reach past its end.
  function Splice(s: seq<Byte>, off: nat, bytes: seq<Byte>): (r: seq<Byte>)
    requires off <= |s|
    ensures |r| == if off + |bytes| < |s| then |s| else off + |bytes|
    ensures forall k :: 0 <= k < |r| ==> r[k] == if off <= k < off + |bytes| then bytes[k - off] else s[k]
  {
    s[..off] + bytes + (if off + |bytes| < |s| then s[off + |bytes|..] else [])
  }

  lemma SpliceTwice(s: seq<Byte>, off: nat, a: seq<Byte>, b: seq<Byte>)
    requires off <= |s|
    ensures off + |a| <= |Splice(s, off, a)|
    ensures Splice(Splice(s, off, a), off + |a|, b) == Splice(s, off, a + b)
  {
  }

  // ---- Sequences of distinct numbers ------------------------------------------

  predicate Same(s: seq<nat>, i: nat, j: nat)
    requires i < |s| && j < |s|
  {
    s[i] == s[j]
  }

  ghost predicate Distinct(s: seq<nat>) {
    forall i, j {:trigger Same(s, i, j)} :: 0 <= i < j < |s| ==> !Same(s, i, j)
  }

  lemma DistinctAt(s: seq<nat>, i: nat, j: nat)
    requires Distinct(s) && i < |s| && j < |s| && s[i] == s[j]
    ensures i == j
  {
    if i < j {
      assert Same(s, i, j);
    } else if j < i {
      assert Same(s, j, i);
    }
  }

  lemma OthersDiffer(s: seq<nat>, k: nat)
    requires Distinct(s) && k < |s|
    ensures forall j :: 0 <= j < |s| && j != k ==> s[j] != s[k]
  {
    forall j | 0 <= j < |s| && j != k ensures s[j] != s[k] {
      assert !Same(s, if j < k then j else k, if j < k then k else j);
    }
  }

  // A part of a sequence, in the same order.
  lemma DistinctPart(s: seq<nat>, t: seq<nat>, at: nat -> nat)
    requires Distinct(s)
    requires forall i :: 0 <= i < |t| ==> at(i) < |s| && t[i] == s[at(i)]
    requires forall i, j :: 0 <= i < j < |t| ==> at(i) < at(j)
    ensures Distinct(t)
  {
    forall i, j | 0 <= i < j < |t| ensures !Same(t, i, j) {
      assert !Same(s, at(i), at(j));
    }
  }

  lemma DistinctWith(s: seq<nat>, x: nat)
    requires Distinct(s) && x !in s
    ensures Distinct(s + [x]) && Distinct([x] + s)
  {
    forall i, j | 0 <= i < j <= |s| ensures !Same(s + [x], i, j) && !Same([x] + s, i, j) {
      assert j < |s| ==> !Same(s, i, j);
      assert i > 0 ==> !Same(s, i - 1, j - 1);
    }
  }

  ghost function Elements(s: seq<nat>): set<nat> {
    set x | x in s
  }

  lemma {:induction false} CountDistinct(s: seq<nat>)
    requires Distinct(s)
    ensures |Elements(s)| == |s|
  {
    if s != [] {
      var last := |s| - 1;
      DistinctPart(s, s[..last], i => i);
      CountDistinct(s[..last]);
      OthersDiffer(s, last);
      assert Elements(s) == Elements(s[..last]) + {s[last]};
    }
  }

  ghost function Below(n: nat): set<nat> {
    set i {:trigger i in Below(n)} | 0 <= i < n
  }

  lemma {:induction false} CountBelow(n: nat)
    ensures |Below(n)| == n
  {
    if n > 0 {
      CountBelow(n - 1);
      assert Below(n) == Below(n - 1) + {n - 1};
    }
  }

  // Distinct numbers below n leave one out exactly when there are fewer than n.
  lemma Pigeonhole(s: seq<nat>, n: nat)
    requires Distinct(s) && forall i :: 0 <= i < |s| ==> s[i] < n
    ensures |s| <= n
    ensures |s| < n <==> exists i :: 0 <= i < n && i !in s
  {
    CountDistinct(s);
    CountBelow(n);
    if forall i :: 0 <= i < n ==> i in s {
      assert Elements(s) == Below(n);
    } else {
      var i :| 0 <= i < n && i !in s;
      assert Elements(s) <= Below(n) - {i};
      SubsetCount(Elements(s), Below(n) - {i});
    }
  }

  lemma {:induction false} SubsetCount(a: set<nat>, b: set<nat>)
    requires a <= b
    ensures |a| <= |b|
  {
    if a != {} {
      var x :| x in a;
      SubsetCount(a - {x}, b - {x});
    }
  }

  // A position of b in s, or |s|.
  ghost function Find(s: seq<nat>, b: nat): (i: nat)
    ensures i <= |s|
    ensures i < |s| ==> s[i] == b
    ensures i == |s| <==> b !in s
  {
    if j :| 0 <= j < |s| && s[j] == b then j else |s|
  }

  lemma FindUnique(s: seq<nat>, i: nat)
    requires Distinct(s) && i < |s|
    ensures Find(s, s[i]) == i
  {
    var k := Find(s, s[i]);
    assert s[i] in s;
    DistinctAt(s, i, k);
  }

  // ---- Counters that wrap ------------------------------------------------------

  // A ring of n slots indexed by a counter that wraps at a multiple of n.
  lemma WrapIndex(k: nat, wrap: nat, n: nat, q: nat)
    requires n > 0 && q > 0 && wrap == q * n
    ensures k % wrap % n == k % n
  {
    assert k == wrap * (k / wrap) + k % wrap;
    assert wrap * (k / wrap) == n * (q * (k / wrap));
    ModPlus(n, q * (k / wrap), k % wrap);
  }

  lemma ModPlus(n: nat, a: nat, b: nat)
    requires n > 0
    ensures (n * a + b) % n == b % n
  {
    var x := n * a + b;
    assert n * (a + b / n) == n * a + n * (b / n);
    QuotientUnique(n, x / n, x % n, a + b / n, b % n);
  }

  lemma QuotientUnique(n: nat, q: int, r: nat, q': int, r': nat)
    requires n * q + r == n * q' + r' && r < n && r' < n
    ensures q == q' && r == r'
  {
    if q > q' {
      Multiple(n, q, q');
    } else if q < q' {
      Multiple(n, q', q);
    }
  }

  lemma Multiple(n: nat, a: int, b: int)
    requires a > b
    ensures n * a >= n * b + n
  {
    var k: nat := a - b - 1;
    assert n * k >= 0;
    assert n * a == n * b + n + n * k;
  }

  // A remainder less than one turn away.
  lemma ModNear(m: nat, y: nat)
    requires y < 2 * m
    ensures y % m == if y < m then y else y - m
  {
    QuotientUnique(m, y / m, y % m, if y < m then 0 else 1, if y < m then y else y - m);
  }

  // A counter less than one turn ahead of another.
  lemma WrapAhead(r: nat, w: nat, wrap: nat)
    requires r <= w < r + wrap
    ensures var y := r % wrap + (w - r); w % wrap == if y < wrap then y else y - wrap
  {
    var y := r % wrap + (w - r);
    ModPlus(wrap, r / wrap, y);
    ModNear(wrap, y);
  }

  // Counters at most n apart are told apart after wrapping.
  lemma WrapDistance(r: nat, w: nat, wrap: nat, n: nat)
    requires 0 < n < wrap && r <= w <= r + n
    ensures w % wrap == r % wrap <==> w == r
    ensures w % wrap == (r % wrap + n) % wrap <==> w == r + n
  {
    WrapAhead(r, w, wrap);
    ModNear(wrap, r % wrap + n);
  }

  lemma DistinctSlots(i: nat, j: nat, n: nat)
    requires i < j < i + n
    ensures i % n != j % n
  {
    WrapAhead(i, j, n);
  }
}
