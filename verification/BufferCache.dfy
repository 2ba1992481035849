/**
 The buffer cache over a disk held in memory. Buffers are numbered from 1; number 0 is
 the list head. The ring is kept in order of last release, and the buffer recycled is
 the least recently released one that is neither busy nor dirty.
 */
module BufferCache {
  import opened LogFormat
  import opened BufferRing

  const NO_DEV := -1
  const ROOT_DEV := 1

  datatype Buf = Buf(dev: int, blockno: nat, busy: bool, valid: bool, dirty: bool, data: Block)

  /** What bget ends with: a buffer, a wait for a busy one, or the panic for lack of buffers. */
  datatype GetResult = Got(i: nat) | MustSleep(i: nat) | NoBuffers

  predicate IsFor(b: Buf, dev: int, blockno: nat) {
    b.dev == dev && b.blockno == blockno
  }

  predicate Recyclable(b: Buf) {
    !b.busy && !b.dirty
  }

  /** No block has two buffers. */
  ghost predicate OneBufferEach(bufs: seq<Buf>) {
    forall i, j :: 0 < i < j < |bufs| && bufs[i].dev != NO_DEV ==> !IsFor(bufs[j], bufs[i].dev, bufs[i].blockno)
  }

  ghost predicate Cached(bufs: seq<Buf>, dev: int, blockno: nat) {
    exists i :: 0 < i < |bufs| && IsFor(bufs[i], dev, blockno)
  }

  /** The list, head first, covers the buffers up to `n`; `pos` says where each one is. */
  ghost predicate Covers(ring: seq<nat>, pos: seq<nat>, n: nat) {
    && |ring| == n + 1 && |pos| == n + 1 && ring[0] == 0
    && (forall k :: 0 <= k < |ring| ==> ring[k] <= n)
    && (forall x :: 0 <= x < |pos| ==> pos[x] <= n && ring[pos[x]] == x)
  }

  /** The list is sorted by time of last release, the latest first. */
  ghost predicate ByRelease(ring: seq<nat>, stamp: seq<int>, clock: int) {
    && (forall k :: 0 < k < |ring| ==> ring[k] < |stamp| && stamp[ring[k]] < clock)
    && (forall j, k :: 0 < j < k < |ring| ==> stamp[ring[j]] > stamp[ring[k]])
  }

  /** `i` is the least recently released buffer that may be recycled. */
  ghost predicate IsVictim(bufs: seq<Buf>, stamp: seq<int>, i: nat)
    requires |bufs| == |stamp|
  {
    && 0 < i < |bufs| && Recyclable(bufs[i])
    && forall j :: 0 < j < |bufs| && Recyclable(bufs[j]) ==> stamp[i] <= stamp[j]
  }

  ghost predicate DirtyIsValid(bufs: seq<Buf>) {
    forall i :: 0 < i < |bufs| && bufs[i].dirty ==> bufs[i].valid
  }

  /** `bread` of a root-device block: buffer `i` now holds the block, from the cache or from disk. */
  ghost predicate LoadedAt(bufs: seq<Buf>, disk: seq<Block>, blockno: nat, i: nat, after: seq<Buf>) {
    && 0 < i < |bufs| && blockno < |disk|
    && ((IsFor(bufs[i], ROOT_DEV, blockno) && !bufs[i].busy
         && after == bufs[i := bufs[i].(busy := true, valid := true,
                                        data := if bufs[i].valid then bufs[i].data else disk[blockno])])
        || (!Cached(bufs, ROOT_DEV, blockno) && Recyclable(bufs[i])
            && after == bufs[i := Buf(ROOT_DEV, blockno, true, true, false, disk[blockno])]))
  }

  class BCache {
    var next: seq<nat>
    var prev: seq<nat>
    var buf: seq<Buf>
    var disk: seq<Block>
    ghost var ring: seq<nat>
    ghost var pos: seq<nat>
    ghost var stamp: seq<int>
    ghost var clock: int
    ghost var trail: seq<seq<Block>>   // the disk after each block write

    ghost predicate Valid()
      reads this
    {
      && |buf| > 0 && |next| == |buf| && |prev| == |buf| && |stamp| == |buf|
      && Circle(next, prev, ring)
      && Covers(ring, pos, |buf| - 1) && ByRelease(ring, stamp, clock)
      && OneBufferEach(buf) && DirtyIsValid(buf)
    }

    /** binit */
    constructor (nbuf: nat, disk0: seq<Block>)
      ensures Valid() && |buf| == nbuf + 1 && disk == disk0 && trail == []
      ensures forall i :: 0 < i <= nbuf ==> buf[i].dev == NO_DEV && Recyclable(buf[i])
    {
      next := seq(nbuf + 1, _ => 0);
      prev := seq(nbuf + 1, _ => 0);
      buf := seq(nbuf + 1, _ => Buf(NO_DEV, 0, false, false, false, []));
      disk, trail := disk0, [];
      ring, pos, stamp, clock := [0], [0], seq(nbuf + 1, _ => 0), 0;
      new;
      for b := 1 to nbuf + 1
        invariant buf == seq(nbuf + 1, _ => Buf(NO_DEV, 0, false, false, false, []))
        invariant disk == disk0 && trail == [] && |next| == nbuf + 1
        invariant Built(b)
      {
        AddBuffer(b);
      }
    }

    /** The ring of the first `b - 1` buffers. */
    ghost predicate Built(b: nat)
      reads this
    {
      && 1 <= b <= |next| == |stamp|
      && Circle(next, prev, ring)
      && Covers(ring, pos, b - 1) && ByRelease(ring, stamp, clock)
    }

    method AddBuffer(b: nat)
      requires Built(b) && b < |next|
      modifies this`next, this`prev, this`ring, this`pos, this`stamp, this`clock
      ensures Built(b + 1) && |next| == |old(next)|
    {
      ghost var next2: seq<nat>, prev2: seq<nat>, ring2: seq<nat>, pos2: seq<nat>, stamp2 :=
        AfterPush(next, prev, ring, pos, stamp, clock, b);
      LinkFront(b);
      ring, pos, stamp, clock := ring2, pos2, stamp2, clock + 1;
    }

    /** Link `b` in behind the list head. */
    method LinkFront(b: nat)
      requires 0 < b < |next| && |prev| == |next| && next[0] < |next|
      modifies this`next, this`prev
      ensures next == old(next)[b := old(next)[0]][0 := b]
      ensures prev == old(prev)[b := 0][old(next)[0] := b]
    {
      next := next[b := next[0]];
      prev := prev[b := 0];
      prev := prev[next[0] := b];
      next := next[0 := b];
    }

    /** Link the neighbours of `b` to each other. */
    method TakeOut(b: nat)
      requires b < |next| && |prev| == |next| && next[b] < |next| && prev[b] < |next| && next[b] != b
      modifies this`next, this`prev
      ensures next == old(next)[old(prev)[b] := old(next)[b]]
      ensures prev == old(prev)[old(next)[b] := old(prev)[b]]
    {
      prev := prev[next[b] := prev[b]];
      next := next[prev[b] := next[b]];
    }

    /** bget's first loop: walk the list from the most recently used end. */
    method FindCached(dev: int, blockno: nat) returns (b: nat)
      requires Valid()
      ensures b < |buf|
      ensures b != 0 ==> IsFor(buf[b], dev, blockno)
      ensures b == 0 ==> !Cached(buf, dev, blockno)
    {
      b := next[0];
      ghost var n, k := |buf| - 1, 1;
      while b != 0
        invariant 1 <= k <= n + 1 && b == (if k == n + 1 then 0 else ring[k])
        invariant forall j :: 0 < j < k ==> !IsFor(buf[ring[j]], dev, blockno)
        decreases n + 1 - k
      {
        if IsFor(buf[b], dev, blockno) {
          return;
        }
        b, k := next[b], k + 1;
      }
      forall i | 0 < i < |buf| ensures !IsFor(buf[i], dev, blockno) {
        assert ring[pos[i]] == i;
      }
    }

    /** bget's second loop: walk the list from the least recently used end. */
    method FindVictim() returns (b: nat)
      requires Valid()
      ensures b != 0 ==> IsVictim(buf, stamp, b)
      ensures b == 0 ==> forall i :: 0 < i < |buf| ==> !Recyclable(buf[i])
    {
      b := prev[0];
      ghost var n := |buf| - 1;
      ghost var k := n;
      while b != 0
        invariant 0 <= k <= n && b == ring[k]
        invariant forall j :: k < j <= n ==> !Recyclable(buf[ring[j]])
        decreases k
      {
        if Recyclable(buf[b]) {
          VictimLast(ring, pos, stamp, clock, n, buf, k);
          return;
        }
        b, k := prev[b], k - 1;
      }
      forall i | 0 < i < |buf| ensures !Recyclable(buf[i]) {
        assert ring[pos[i]] == i;
      }
    }

    method BGet(dev: int, blockno: nat) returns (r: GetResult)
      requires Valid() && dev != NO_DEV
      modifies this`buf
      ensures Valid()
      ensures match r
        case Got(i) =>
          && 0 < i < |buf|
          && ((old(IsFor(buf[i], dev, blockno) && !buf[i].busy) && buf == old(buf)[i := old(buf[i]).(busy := true)])
              || (!Cached(old(buf), dev, blockno) && IsVictim(old(buf), stamp, i)
                  && buf == old(buf)[i := Buf(dev, blockno, true, false, false, old(buf[i]).data)]
                  && !old(buf[i]).busy && !old(buf[i]).dirty))
          && buf[i].dev == dev && buf[i].blockno == blockno && buf[i].busy
        case MustSleep(i) =>
          0 < i < |buf| && buf[i].dev == dev && buf[i].blockno == blockno && buf[i].busy && buf == old(buf)
        case NoBuffers =>
          && buf == old(buf) && !Cached(buf, dev, blockno)
          && forall i :: 0 < i < |buf| ==> buf[i].busy || buf[i].dirty
    {
      var b := FindCached(dev, blockno);
      if b != 0 {
        if buf[b].busy {
          return MustSleep(b);
        }
        ReassignKeeps(buf, b, buf[b].(busy := true));
        buf := buf[b := buf[b].(busy := true)];
        return Got(b);
      }
      b := FindVictim();
      if b == 0 {
        return NoBuffers;
      }
      ReassignKeeps(buf, b, Buf(dev, blockno, true, false, false, buf[b].data));
      buf := buf[b := Buf(dev, blockno, true, false, false, buf[b].data)];
      return Got(b);
    }

    /** memide.c: write a dirty buffer to disk, or fill an invalid one from disk. */
    method IdeRw(i: nat)
      requires Valid() && 0 < i < |buf| && buf[i].busy && (buf[i].valid ==> buf[i].dirty)
      requires buf[i].dev == ROOT_DEV && buf[i].blockno < |disk|
      modifies this`buf, this`disk, this`trail
      ensures Valid() && |disk| == |old(disk)|
      ensures old(buf[i].dirty) ==>
        && disk == old(disk)[old(buf[i]).blockno := old(buf[i]).data] && trail == old(trail) + [disk]
        && buf == old(buf)[i := old(buf[i]).(dirty := false, valid := true)]
      ensures !old(buf[i].dirty) ==>
        && disk == old(disk) && trail == old(trail)
        && buf == old(buf)[i := old(buf[i]).(data := disk[old(buf[i]).blockno], valid := true)]
    {
      if buf[i].dirty {
        buf := buf[i := buf[i].(dirty := false)];
        disk := disk[buf[i].blockno := buf[i].data];
        trail := trail + [disk];
      } else {
        buf := buf[i := buf[i].(data := disk[buf[i].blockno])];
      }
      buf := buf[i := buf[i].(valid := true)];
    }

    method Bread(blockno: nat) returns (r: GetResult)
      requires Valid() && blockno < |disk|
      modifies this`buf, this`disk, this`trail
      ensures Valid() && disk == old(disk) && trail == old(trail)
      ensures match r
        case Got(i) => LoadedAt(old(buf), disk, blockno, i, buf)
        case MustSleep(i) => 0 < i < |buf| && IsFor(buf[i], ROOT_DEV, blockno) && buf[i].busy && buf == old(buf)
        case NoBuffers =>
          && buf == old(buf) && !Cached(buf, ROOT_DEV, blockno)
          && forall i :: 0 < i < |buf| ==> !Recyclable(buf[i])
    {
      r := BGet(ROOT_DEV, blockno);
      if r.Got? && !buf[r.i].valid {
        IdeRw(r.i);
      }
    }

    /** The holder of a buffer changes its data. */
    method SetData(i: nat, data: Block)
      requires Valid() && 0 < i < |buf| && buf[i].busy && buf[i].valid
      modifies this`buf
      ensures Valid() && buf == old(buf)[i := old(buf[i]).(data := data)]
    {
      ReassignKeeps(buf, i, buf[i].(data := data));
      buf := buf[i := buf[i].(data := data)];
    }

    /** The flag update of log_write: b->flags |= B_DIRTY. */
    method MarkDirty(i: nat)
      requires Valid() && 0 < i < |buf| && buf[i].busy && buf[i].valid
      modifies this`buf
      ensures Valid() && buf == old(buf)[i := old(buf[i]).(dirty := true)]
    {
      ReassignKeeps(buf, i, buf[i].(dirty := true));
      buf := buf[i := buf[i].(dirty := true)];
    }

    method Bwrite(i: nat)
      requires Valid() && 0 < i < |buf| && buf[i].busy && buf[i].valid
      requires buf[i].dev == ROOT_DEV && buf[i].blockno < |disk|
      modifies this`buf, this`disk, this`trail
      ensures Valid()
      ensures disk == old(disk)[old(buf[i]).blockno := old(buf[i]).data] && trail == old(trail) + [disk]
      ensures buf == old(buf)[i := old(buf[i]).(dirty := false)]
    {
      MarkDirty(i);
      IdeRw(i);
    }

    method Brelse(i: nat)
      requires Valid() && 0 < i < |buf| && buf[i].busy
      modifies this`next, this`prev, this`buf, this`ring, this`pos, this`stamp, this`clock
      ensures Valid()
      ensures buf == old(buf)[i := old(buf[i]).(busy := false)]
      ensures clock == old(clock) + 1 && stamp == old(stamp)[i := old(clock)]
      ensures ring[1] == i
    {
      ReassignKeeps(buf, i, buf[i].(busy := false));
      MoveToFront(i);
      buf := buf[i := buf[i].(busy := false)];
    }

    /** The links of brelse. */
    method MoveToFront(i: nat)
      requires Valid() && 0 < i < |buf|
      modifies this`next, this`prev, this`ring, this`pos, this`stamp, this`clock
      ensures Valid()
      ensures clock == old(clock) + 1 && stamp == old(stamp)[i := old(clock)]
      ensures ring[1] == i
    {
      ghost var next2: seq<nat>, prev2: seq<nat>, ring2: seq<nat>,
      stamp2 := AfterMove(next, prev, ring, pos, stamp, clock, i);
      TakeOut(i);
      LinkFront(i);
      assert next == next2 && prev == prev2;
      ring, pos, stamp, clock := ring2, PosMoved(pos, i), stamp2, clock + 1;
    }
  }

  lemma ReassignKeeps(bufs: seq<Buf>, i: nat, b: Buf)
    requires OneBufferEach(bufs) && 0 < i < |bufs|
    requires (b.dev == bufs[i].dev && b.blockno == bufs[i].blockno) || !Cached(bufs, b.dev, b.blockno)
    ensures OneBufferEach(bufs[i := b])
  {
  }

  ghost function PosPushed(pos: seq<nat>, b: nat): seq<nat> {
    seq(|pos|, x requires 0 <= x < |pos| => if pos[x] == 0 then 0 else pos[x] + 1) + [1]
  }

  lemma PushCovers(ring: seq<nat>, pos: seq<nat>, b: nat)
    requires 1 <= b && Covers(ring, pos, b - 1)
    ensures b !in ring && Covers(PushedFront(ring, b), PosPushed(pos, b), b)
  {
    var r := PushedFront(ring, b);
    assert forall i :: 2 <= i < |r| ==> r[i] == ring[i - 1];
  }

  lemma PushByRelease(ring: seq<nat>, stamp: seq<int>, clock: int, b: nat)
    requires |ring| > 0 && ByRelease(ring, stamp, clock) && b !in ring && b < |stamp|
    ensures ByRelease(PushedFront(ring, b), stamp[b := clock], clock + 1)
  {
    var r := PushedFront(ring, b);
    assert forall i :: 2 <= i < |r| ==> r[i] == ring[i - 1];
  }

  /** Scanning from the tail, the first recyclable buffer is the least recently released one. */
  lemma VictimLast(ring: seq<nat>, pos: seq<nat>, stamp: seq<int>, clock: int, n: nat, bufs: seq<Buf>, k: nat)
    requires Covers(ring, pos, n) && ByRelease(ring, stamp, clock) && |stamp| == |bufs| == n + 1 && 0 < k <= n
    requires ring[k] != 0 && Recyclable(bufs[ring[k]])
    requires forall j :: k < j <= n ==> !Recyclable(bufs[ring[j]])
    ensures IsVictim(bufs, stamp, ring[k])
  {
    forall x | 0 < x < |bufs| && Recyclable(bufs[x]) ensures stamp[ring[k]] <= stamp[x] {
      assert ring[pos[x]] == x && 0 < pos[x] <= k;
    }
  }

  ghost function PosMoved(pos: seq<nat>, b: nat): seq<nat>
    requires b < |pos|
  {
    seq(|pos|, x requires 0 <= x < |pos| =>
      if x == b then 1 else if 0 < pos[x] < pos[b] then pos[x] + 1 else pos[x])
  }

  lemma MoveCovers(ring: seq<nat>, pos: seq<nat>, n: nat, b: nat)
    requires Covers(ring, pos, n) && 0 < b <= n
    ensures 0 < pos[b] && Covers(PushedFront(Without(ring, pos[b]), b), PosMoved(pos, b), n)
  {
    var k := pos[b];
    var r := PushedFront(Without(ring, k), b);
    assert forall i :: 2 <= i < |r| ==> r[i] == ring[if i <= k then i - 1 else i];
    var pos' := PosMoved(pos, b);
    forall x | 0 <= x < |pos'| ensures pos'[x] <= n && r[pos'[x]] == x {
      assert ring[pos[x]] == x;
    }
  }

  lemma MoveByRelease(ring: seq<nat>, stamp: seq<int>, clock: int, k: nat)
    requires ByRelease(ring, stamp, clock) && NoRepeats(ring) && 0 < k < |ring|
    ensures ByRelease(PushedFront(Without(ring, k), ring[k]), stamp[ring[k] := clock], clock + 1)
  {
    var b := ring[k];
    var r, st := PushedFront(Without(ring, k), b), stamp[ring[k] := clock];
    assert forall i :: 2 <= i < |r| ==> r[i] == ring[if i <= k then i - 1 else i];
    forall i | 2 <= i < |r| ensures r[i] < |st| && st[r[i]] == stamp[r[i]] && st[r[i]] < clock {
    }
  }

  /** brelse: out of the ring and back in at the front. */
  lemma MoveFront(next: seq<nat>, prev: seq<nat>, ring: seq<nat>, pos: seq<nat>, n: nat, b: nat)
    requires Circle(next, prev, ring) && Covers(ring, pos, n) && 0 < b <= n && |next| == n + 1
    ensures next[b] < |prev| && prev[b] < |next| && 0 < pos[b] && next[b] != b && prev[b] != b
    ensures
      var next1 := next[prev[b] := next[b]];
      var prev1 := prev[next[b] := prev[b]];
      && next1[0] < |next|
      && Circle(next1[b := next1[0]][0 := b], prev1[b := 0][next1[0] := b], PushedFront(Without(ring, pos[b]), b))
    ensures Covers(PushedFront(Without(ring, pos[b]), b), PosMoved(pos, b), n)
  {
    MoveCovers(ring, pos, n, b);
    assert next[b] == ring[Succ(pos[b], n + 1)] && prev[b] == ring[Pred(pos[b], n + 1)];
    Unlink(next, prev, ring, pos[b]);
    PushFront(next[prev[b] := next[b]], prev[next[b] := prev[b]], Without(ring, pos[b]), b);
  }

  /** The links, list and times after brelse, as values. */
  lemma AfterMove(next: seq<nat>, prev: seq<nat>, ring: seq<nat>, pos: seq<nat>, stamp: seq<int>, clock: int, b: nat)
    returns (next2: seq<nat>, prev2: seq<nat>, ring2: seq<nat>, stamp2: seq<int>)
    requires 0 < b < |next| == |stamp| && Circle(next, prev, ring) && Covers(ring, pos, |next| - 1)
      && ByRelease(ring, stamp, clock)
    ensures next[b] < |next| && prev[b] < |next| && next[b] != b
    ensures next[prev[b] := next[b]][0] < |next|
    ensures next2 == next[prev[b] := next[b]][b := next[prev[b] := next[b]][0]][0 := b]
    ensures prev2 == prev[next[b] := prev[b]][b := 0][next[prev[b] := next[b]][0] := b]
    ensures stamp2 == stamp[b := clock]
    ensures Circle(next2, prev2, ring2) && Covers(ring2, PosMoved(pos, b), |next| - 1)
      && ByRelease(ring2, stamp2, clock + 1)
    ensures ring2[1] == b
  {
    MoveFront(next, prev, ring, pos, |next| - 1, b);
    MoveByRelease(ring, stamp, clock, pos[b]);
    ring2 := PushedFront(Without(ring, pos[b]), b);
    stamp2 := stamp[b := clock];
    next2 := next[prev[b] := next[b]][b := next[prev[b] := next[b]][0]][0 := b];
    prev2 := prev[next[b] := prev[b]][b := 0][next[prev[b] := next[b]][0] := b];
  }

  lemma AfterPush(next: seq<nat>, prev: seq<nat>, ring: seq<nat>, pos: seq<nat>, stamp: seq<int>, clock: int, b: nat)
    returns (next2: seq<nat>, prev2: seq<nat>, ring2: seq<nat>, pos2: seq<nat>, stamp2: seq<int>)
    requires 0 < b < |next| == |stamp| && Circle(next, prev, ring) && Covers(ring, pos, b - 1)
      && ByRelease(ring, stamp, clock)
    ensures next[0] < |next|
    ensures next2 == next[b := next[0]][0 := b] && prev2 == prev[b := 0][next[0] := b] && |stamp2| == |stamp|
    ensures Circle(next2, prev2, ring2) && Covers(ring2, pos2, b) && ByRelease(ring2, stamp2, clock + 1)
  {
    PushCovers(ring, pos, b);
    PushFront(next, prev, ring, b);
    PushByRelease(ring, stamp, clock, b);
    next2 := next[b := next[0]][0 := b];
    prev2 := prev[b := 0][next[0] := b];
    ring2, pos2, stamp2 := PushedFront(ring, b), PosPushed(pos, b), stamp[b := clock];
  }
}
