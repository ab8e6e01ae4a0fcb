/** The byte ring of a pipe (pipe.c): 512 bytes and two 32-bit counters that only ever
    grow, and wrap. */
module PipeRing {
  import opened Basics

  const PIPESIZE := 512
  const WRAP := 0x1_0000_0000

  lemma WrapNext(k: nat)
    ensures (k % WRAP + 1) % WRAP == (k + 1) % WRAP
  {
  }

  class Ring {
    var data: array<Byte>
    var nread: nat
    var nwrite: nat
    // Everything put in so far, and how much of it has been taken out.
    ghost var inserted: seq<Byte>
    ghost var taken: nat

    ghost predicate Valid()
      reads this, data
    {
      && data.Length == PIPESIZE && taken <= |inserted| <= taken + PIPESIZE
      && nread == taken % WRAP && nwrite == |inserted| % WRAP
      && forall k :: taken <= k < |inserted| ==> data[k % PIPESIZE] == inserted[k]
    }

    ghost function Contents(): seq<Byte>
      requires taken <= |inserted|
      reads this
    {
      inserted[taken..]
    }

    // pipealloc
    constructor ()
      ensures Valid() && fresh(data) && Contents() == [] && inserted == []
    {
      data := new Byte[PIPESIZE];
      nread, nwrite, inserted, taken := 0, 0, [], 0;
    }

    // nwrite == nread + PIPESIZE, in 32 bits.
    method Full() returns (b: bool)
      requires Valid()
      ensures b <==> |Contents()| == PIPESIZE
    {
      WrapDistance(taken, |inserted|, WRAP, PIPESIZE);
      b := nwrite == (nread + PIPESIZE) % WRAP;
    }

    method Empty() returns (b: bool)
      requires Valid()
      ensures b <==> Contents() == []
    {
      WrapDistance(taken, |inserted|, WRAP, PIPESIZE);
      b := nread == nwrite;
    }

    method Put(ch: Byte)
      requires Valid() && |Contents()| < PIPESIZE
      modifies this`nwrite, this`inserted, data
      ensures Valid() && Contents() == old(Contents()) + [ch] && inserted == old(inserted) + [ch]
    {
      ghost var n := |inserted|;
      WrapIndex(n, WRAP, PIPESIZE, 0x80_0000);
      WrapNext(n);
      forall k | taken <= k < n ensures k % PIPESIZE != n % PIPESIZE {
        DistinctSlots(k, n, PIPESIZE);
      }
      data[nwrite % PIPESIZE] := ch;
      nwrite := (nwrite + 1) % WRAP;
      inserted := inserted + [ch];
    }

    method Get() returns (ch: Byte)
      requires Valid() && Contents() != []
      modifies this`nread, this`taken
      ensures Valid() && [ch] + Contents() == old(Contents())
      ensures taken == old(taken) + 1 && ch == inserted[old(taken)]
    {
      WrapIndex(taken, WRAP, PIPESIZE, 0x80_0000);
      WrapNext(taken);
      ch := data[nread % PIPESIZE];
      nread := (nread + 1) % WRAP;
      taken := taken + 1;
    }

    /** pipewrite between two sleeps: bytes of src from i on go in until all are in, the
        ring is full, or the user page of byte `fault` cannot be read. */
    method WriteSome(src: seq<Byte>, i: nat, fault: nat) returns (j: nat)
      requires Valid() && i <= |src| && i <= fault
      modifies this`nwrite, this`inserted, data
      ensures Valid() && i <= j <= |src| && j <= fault && Contents() == old(Contents()) + src[i..j]
      ensures j == |src| || |Contents()| == PIPESIZE || j == fault
    {
      j := i;
      while j < |src|
        invariant Valid() && i <= j <= |src| && j <= fault && Contents() == old(Contents()) + src[i..j]
      {
        var full := Full();
        if full || j == fault {
          return;
        }
        Put(src[j]);
        j := j + 1;
      }
    }

    /** piperead's copy: up to n bytes come out in order; a byte whose user page cannot be
        written has left the ring but is not counted. */
    method ReadSome(n: nat, fault: nat) returns (dst: seq<Byte>, ghost lost: seq<Byte>)
      requires Valid()
      modifies this`nread, this`taken
      ensures Valid() && dst + lost + Contents() == old(Contents())
      ensures |dst| <= n && (|dst| == n || Contents() == [] || |dst| == fault)
      ensures if |dst| == fault && fault < n && fault < old(|Contents()|) then |lost| == 1 else lost == []
    {
      dst, lost := [], [];
      while |dst| < n
        invariant Valid() && |dst| <= n && |dst| <= fault && lost == [] && taken == old(taken) + |dst| && dst == inserted[old(taken)..taken]
      {
        var empty := Empty();
        if empty {
          return;
        }
        var ch := Get();
        if |dst| == fault {
          lost := [ch];
          return;
        }
        dst := dst + [ch];
      }
    }
  }
}
