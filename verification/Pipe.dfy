/**
 The pipe's byte buffer: a ring of PIPESIZE bytes under two 32-bit counters that wrap around.
 */
module Pipe {

  const PIPESIZE := 512
  const WORD := 0x1_0000_0000   // the counters are 32-bit unsigned

  type Byte = x: int | 0 <= x < 256

  function Inc(x: nat): nat {
    (x + 1) % WORD
  }

  /** The test of pipewrite: p->nwrite == p->nread + PIPESIZE. */
  predicate Full(nread: nat, nwrite: nat) {
    nwrite == (nread + PIPESIZE) % WORD
  }

  predicate Empty(nread: nat, nwrite: nat) {
    nread == nwrite
  }

  /**
   `accepted` is everything ever written and the first `taken` bytes of it were read: the counters are
   their lengths modulo 2^32, and the bytes in between are in the ring.
   */
  ghost predicate RingOk(data: seq<Byte>, nread: nat, nwrite: nat, accepted: seq<Byte>, taken: nat) {
    && |data| == PIPESIZE
    && taken <= |accepted| <= taken + PIPESIZE
    && nread == taken % WORD && nwrite == |accepted| % WORD
    && forall k {:trigger accepted[k]} :: taken <= k < |accepted| ==> data[k % PIPESIZE] == accepted[k]
  }

  lemma SameResidue(a: nat, b: nat, m: nat)
    requires m > 0 && a <= b < a + m && a % m == b % m
    ensures a == b
  {
    assert a == a / m * m + a % m && b == b / m * m + b % m;
    assert b - a == (b / m - a / m) * m;
    Multiple(b / m - a / m, m);
  }

  lemma Multiple(k: int, m: int)
    requires m >= 0
    ensures k >= 1 ==> k * m >= m
    ensures k <= -1 ==> k * m + m <= 0
  {
    assert k >= 1 ==> (k - 1) * m >= 0;
    assert k <= -1 ==> (-k - 1) * m >= 0;
  }

  /** The ring index computed from the wrapped counter is the one of the true count. */
  lemma WrapIndex(x: nat)
    ensures x % WORD % PIPESIZE == x % PIPESIZE
  {
    var q, r := x / WORD, x % WORD;
    assert x == WORD * q + r;
    assert x == PIPESIZE * (8388608 * q) + r;
  }

  lemma WrapInc(x: nat)
    ensures Inc(x % WORD) == (x + 1) % WORD
  {
  }

  /** Despite wrap-around the two tests tell exactly whether the ring is full or empty. */
  lemma TestsAreExact(data: seq<Byte>, nread: nat, nwrite: nat, accepted: seq<Byte>, taken: nat)
    requires RingOk(data, nread, nwrite, accepted, taken)
    ensures Full(nread, nwrite) <==> |accepted| == taken + PIPESIZE
    ensures Empty(nread, nwrite) <==> |accepted| == taken
  {
    assert (nread + PIPESIZE) % WORD == (taken + PIPESIZE) % WORD;
    if Full(nread, nwrite) {
      SameResidue(|accepted|, taken + PIPESIZE, WORD);
    }
    if Empty(nread, nwrite) {
      SameResidue(taken, |accepted|, WORD);
    }
  }

  lemma Put(data: seq<Byte>, nread: nat, nwrite: nat, accepted: seq<Byte>, taken: nat, c: Byte)
    requires RingOk(data, nread, nwrite, accepted, taken) && !Full(nread, nwrite)
    ensures RingOk(data[nwrite % PIPESIZE := c], nread, Inc(nwrite), accepted + [c], taken)
  {
    TestsAreExact(data, nread, nwrite, accepted, taken);
    WrapIndex(|accepted|);
    WrapInc(|accepted|);
    var d, a := data[nwrite % PIPESIZE := c], accepted + [c];
    forall k | taken <= k < |a| ensures d[k % PIPESIZE] == a[k] {
      if k < |accepted| && k % PIPESIZE == |accepted| % PIPESIZE {
        SameResidue(k, |accepted|, PIPESIZE);
      }
    }
  }

  lemma Get(data: seq<Byte>, nread: nat, nwrite: nat, accepted: seq<Byte>, taken: nat)
    requires RingOk(data, nread, nwrite, accepted, taken) && !Empty(nread, nwrite)
    ensures taken < |accepted| && data[nread % PIPESIZE] == accepted[taken]
    ensures RingOk(data, Inc(nread), nwrite, accepted, taken + 1)
  {
    TestsAreExact(data, nread, nwrite, accepted, taken);
    WrapIndex(taken);
    WrapInc(taken);
  }

  class Ring {
    const data: array<Byte>
    var nread: nat
    var nwrite: nat
    ghost var accepted: seq<Byte>   // everything written so far
    ghost var taken: nat            // how much of it was read

    ghost predicate Valid()
      reads this, data
    {
      data.Length == PIPESIZE && RingOk(data[..], nread, nwrite, accepted, taken)
    }

    constructor ()
      ensures Valid() && accepted == [] && taken == 0 && fresh(data)
    {
      data := new Byte[PIPESIZE](_ => 0);
      nread, nwrite := 0, 0;
      accepted, taken := [], 0;
    }

    /** pipewrite's loop from index `i` until it is done or has to wait for room. */
    method WriteSome(addr: seq<Byte>, i: nat) returns (j: nat)
      requires Valid() && i <= |addr|
      modifies this`nwrite, this`accepted, data
      ensures Valid() && i <= j <= |addr|
      ensures accepted == old(accepted) + addr[i..j]
      ensures j < |addr| ==> |accepted| == taken + PIPESIZE
    {
      j := i;
      while j < |addr| && !Full(nread, nwrite)
        invariant Valid() && i <= j <= |addr|
        invariant accepted == old(accepted) + addr[i..j]
      {
        Put(data[..], nread, nwrite, accepted, taken, addr[j]);
        data[nwrite % PIPESIZE] := addr[j];
        nwrite := Inc(nwrite);
        accepted := accepted + [addr[j]];
        j := j + 1;
      }
      TestsAreExact(data[..], nread, nwrite, accepted, taken);
    }

    /** piperead's copy loop: at most `n` bytes, fewer only if the pipe runs empty. */
    method ReadSome(n: nat) returns (got: seq<Byte>)
      requires Valid()
      modifies this`nread, this`taken
      ensures Valid() && |got| <= n && taken == old(taken) + |got|
      ensures got == accepted[old(taken)..taken]
      ensures |got| < n ==> taken == |accepted|
    {
      got := [];
      while |got| < n && !Empty(nread, nwrite)
        invariant Valid() && |got| <= n && taken == old(taken) + |got|
        invariant got == accepted[old(taken)..taken]
        decreases n - |got|
      {
        Get(data[..], nread, nwrite, accepted, taken);
        got := got + [data[nread % PIPESIZE]];
        nread := Inc(nread);
        taken := taken + 1;
      }
      TestsAreExact(data[..], nread, nwrite, accepted, taken);
    }
  }
}
