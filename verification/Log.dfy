/**
 The redo log over the buffer cache, one process at a time: what `commit` and
 `recover_from_log` write to disk, block by block. The trail of disk states kept by the
 cache gives a crash point after every single block write.
 */
module Log {
  import opened LogFormat
  import opened BufferCache
  import opened LogSafety
  import LogProtocol

  /** Nobody holds a buffer, and a buffer that is not dirty agrees with the disk. */
  ghost predicate Quiet(bufs: seq<Buf>, disk: seq<Block>) {
    forall i :: 0 < i < |bufs| ==>
      && !bufs[i].busy
      && (bufs[i].dirty ==> bufs[i].dev == ROOT_DEV)
      && (bufs[i].dev == ROOT_DEV ==> bufs[i].blockno < |disk|)
      && (bufs[i].dev == ROOT_DEV && bufs[i].valid && !bufs[i].dirty ==> bufs[i].data == disk[bufs[i].blockno])
  }

  ghost predicate DirtyAt(bufs: seq<Buf>, i: nat, b: nat) {
    0 < i < |bufs| && bufs[i].dirty && IsFor(bufs[i], ROOT_DEV, b)
  }

  /** The content of a block: the logged one if the block is dirty in the cache, else the one on disk. */
  ghost function Content(bufs: seq<Buf>, disk: seq<Block>, b: nat): Block
    requires b < |disk|
  {
    if exists i: nat :: DirtyAt(bufs, i, b) then
      var i: nat :| DirtyAt(bufs, i, b);
      bufs[i].data
    else disk[b]
  }

  /** Buffers enough to hold `a` and then `b` as well. */
  ghost predicate Room(bufs: seq<Buf>, b: nat) {
    || (exists i, j :: 0 < i < j < |bufs| && Recyclable(bufs[i]) && Recyclable(bufs[j]))
    || ((exists i :: 0 < i < |bufs| && Recyclable(bufs[i])) && (exists j: nat :: DirtyAt(bufs, j, b)))
  }

  /** The buffers after block `src` was copied to `dst` through buffers `i` and `j`. */
  ghost predicate Copied(bufs: seq<Buf>, after: seq<Buf>, src: nat, dst: nat, i: nat, j: nat, data: Block) {
    && |after| == |bufs| && 0 < i < |bufs| && 0 < j < |bufs| && i != j
    && (bufs[i].dirty ==> IsFor(bufs[i], ROOT_DEV, src))
    && (bufs[j].dirty ==> IsFor(bufs[j], ROOT_DEV, dst))
    && after == bufs[i := Buf(ROOT_DEV, src, false, true, bufs[i].dirty, data)]
                    [j := Buf(ROOT_DEV, dst, false, true, false, data)]
  }

  lemma ContentOf(bufs: seq<Buf>, disk: seq<Block>, i: nat, b: nat)
    requires OneBufferEach(bufs) && b < |disk| && DirtyAt(bufs, i, b)
    ensures Content(bufs, disk, b) == bufs[i].data
  {
    var j: nat :| DirtyAt(bufs, j, b) && Content(bufs, disk, b) == bufs[j].data;
  }

  /** What bread returns in a quiet cache is the block's content. */
  lemma LoadedContent(bufs: seq<Buf>, disk: seq<Block>, b: nat, i: nat, after: seq<Buf>)
    requires OneBufferEach(bufs) && DirtyIsValid(bufs) && Quiet(bufs, disk) && LoadedAt(bufs, disk, b, i, after)
    ensures after == bufs[i := Buf(ROOT_DEV, b, true, true, bufs[i].dirty, Content(bufs, disk, b))]
    ensures bufs[i].dirty ==> IsFor(bufs[i], ROOT_DEV, b)
  {
    if bufs[i].dirty {
      ContentOf(bufs, disk, i, b);
    } else {
      forall j: nat ensures !DirtyAt(bufs, j, b) {
        OnlyThere(bufs, b, i, j);
      }
    }
  }

  lemma OnlyThere(bufs: seq<Buf>, b: nat, i: nat, j: nat)
    requires OneBufferEach(bufs) && 0 < i < |bufs| && (IsFor(bufs[i], ROOT_DEV, b) || !Cached(bufs, ROOT_DEV, b))
    ensures DirtyAt(bufs, j, b) ==> j == i
  {
    assert DirtyAt(bufs, j, b) ==> IsFor(bufs[j], ROOT_DEV, b);
  }

  lemma NotDirty(bufs: seq<Buf>, disk: seq<Block>, i: nat, x: Buf, j: nat, b: nat)
    requires OneBufferEach(bufs) && b < |disk| && 0 < i < |bufs| && 0 < j < |bufs|
    requires bufs[i].dirty ==> !IsFor(bufs[i], ROOT_DEV, b)
    requires !bufs[j].dirty && (IsFor(bufs[j], ROOT_DEV, b) || !Cached(bufs[i := x], ROOT_DEV, b))
    ensures Content(bufs, disk, b) == disk[b]
  {
    forall k: nat ensures !DirtyAt(bufs, k, b) {
      if 0 < k < |bufs| && k != i {
        assert bufs[i := x][k] == bufs[k];
      }
    }
  }

  /** Holding one block leaves room for the other: the second bread succeeds, in another buffer. */
  lemma SecondLoaded(bufs: seq<Buf>, disk: seq<Block>, a: nat, b: nat, i: nat, after: seq<Buf>, j: nat, last: seq<Buf>)
    requires OneBufferEach(bufs) && DirtyIsValid(bufs) && Quiet(bufs, disk) && a != b && a < |disk| && b < |disk|
    requires 0 < i < |bufs| && (bufs[i].dirty ==> IsFor(bufs[i], ROOT_DEV, a))
    requires after == bufs[i := Buf(ROOT_DEV, a, true, true, bufs[i].dirty, Content(bufs, disk, a))]
    requires LoadedAt(after, disk, b, j, last)
    ensures j != i && (bufs[j].dirty ==> IsFor(bufs[j], ROOT_DEV, b))
    ensures last == after[j := Buf(ROOT_DEV, b, true, true, bufs[j].dirty, Content(bufs, disk, b))]
  {
    if bufs[j].dirty {
      ContentOf(bufs, disk, j, b);
    } else {
      NotDirty(bufs, disk, i, after[i], j, b);
    }
  }

  /** The first bread does not run out of buffers, nor does the second. */
  lemma RoomFor(bufs: seq<Buf>, b: nat, i: nat, after: seq<Buf>)
    requires 0 < i < |bufs| && |after| == |bufs| && after == bufs[i := after[i]]
    requires Room(bufs, b) && (bufs[i].dirty ==> !IsFor(bufs[i], ROOT_DEV, b))
    ensures exists k :: 0 < k < |bufs| && Recyclable(bufs[k])
    ensures !Cached(after, ROOT_DEV, b) ==> exists k :: 0 < k < |after| && Recyclable(after[k])
  {
    if j: nat :| DirtyAt(bufs, j, b) {
      assert j != i && after[j] == bufs[j];
      assert Cached(after, ROOT_DEV, b);
    } else {
      var p, q :| 0 < p < q < |bufs| && Recyclable(bufs[p]) && Recyclable(bufs[q]);
      assert Recyclable(after[if p == i then q else p]);
    }
  }

  /** In a cache with one buffer per block, no dirty buffer but the one used holds the copied block. */
  lemma CopiedClean(bufs: seq<Buf>, after: seq<Buf>, src: nat, dst: nat, i: nat, j: nat, data: Block, k: nat)
    requires OneBufferEach(after) && Copied(bufs, after, src, dst, i, j, data) && src != dst
    ensures DirtyAt(bufs, k, src) ==> k == i
    ensures DirtyAt(bufs, k, dst) ==> k == j
  {
    if 0 < k < |bufs| && k != i && k != j {
      assert after[k] == bufs[k] && IsFor(after[i], ROOT_DEV, src) && IsFor(after[j], ROOT_DEV, dst);
      OneEach(after, i, k);
      OneEach(after, j, k);
    }
  }

  lemma OneEach(bufs: seq<Buf>, i: nat, j: nat)
    requires OneBufferEach(bufs) && 0 < i < |bufs| && 0 < j < |bufs| && i != j && bufs[i].dev != NO_DEV
    ensures !IsFor(bufs[j], bufs[i].dev, bufs[i].blockno)
  {
    if j < i {
      assert bufs[j].dev != NO_DEV ==> !IsFor(bufs[i], bufs[j].dev, bufs[j].blockno);
    }
  }

  lemma CopiedQuiet(bufs: seq<Buf>, after: seq<Buf>, disk: seq<Block>, src: nat, dst: nat, i: nat, j: nat)
    requires src < |disk| && dst < |disk| && src != dst && Quiet(bufs, disk) && OneBufferEach(after)
    requires Copied(bufs, after, src, dst, i, j, Content(bufs, disk, src))
    ensures Quiet(after, disk[dst := Content(bufs, disk, src)])
  {
    if !bufs[i].dirty {
      forall k: nat ensures !DirtyAt(bufs, k, src) {
        CopiedClean(bufs, after, src, dst, i, j, Content(bufs, disk, src), k);
      }
    }
    forall k | 0 < k < |bufs| && after[k].dev == ROOT_DEV && after[k].valid && !after[k].dirty && k != i && k != j
      ensures after[k].blockno != dst
    {
      OneEach(after, k, j);
    }
  }

  lemma CopiedContent(bufs: seq<Buf>, after: seq<Buf>, disk: seq<Block>, src: nat, dst: nat, i: nat, j: nat, b: nat)
    requires src < |disk| && dst < |disk| && b < |disk| && src != dst
    requires Quiet(bufs, disk) && OneBufferEach(bufs) && OneBufferEach(after)
    requires Copied(bufs, after, src, dst, i, j, Content(bufs, disk, src))
    ensures var d := disk[dst := Content(bufs, disk, src)];
      Content(after, d, b) == if b == dst then Content(bufs, disk, src) else Content(bufs, disk, b)
  {
    var d := disk[dst := Content(bufs, disk, src)];
    if k: nat :| DirtyAt(after, k, b) {
      ContentOf(after, d, k, b);
      assert k != j && DirtyAt(bufs, k, b);
      OneEach(after, k, j);
      ContentOf(bufs, disk, k, b);
    } else if k: nat :| DirtyAt(bufs, k, b) {
      CopiedClean(bufs, after, src, dst, i, j, Content(bufs, disk, src), k);
      assert k == j || DirtyAt(after, k, b);
    }
  }

  // ----- the logged blocks in the cache -----

  /** The dirty buffers are exactly those of the blocks `l[from..]`; `at` says which buffer each has. */
  ghost predicate DirtyFrom(bufs: seq<Buf>, l: seq<nat>, at: seq<nat>, from: nat) {
    && from <= |l| == |at|
    && (forall k {:trigger at[k]} :: from <= k < |l| ==> DirtyAt(bufs, at[k], l[k]))
    && (forall i :: 0 < i < |bufs| && bufs[i].dirty ==> bufs[i].blockno in l[from..])
  }

  /** The home blocks read as `img` through the cache. */
  ghost predicate Carries(g: Geometry, bufs: seq<Buf>, disk: seq<Block>, img: seq<Block>) {
    && |disk| == g.nblocks && Shaped(g, img)
    && forall b: nat {:trigger g.Home(b)} :: g.Home(b) ==> Content(bufs, disk, b) == img[b]
  }

  ghost predicate AnyRecyclable(bufs: seq<Buf>) {
    exists i :: 0 < i < |bufs| && Recyclable(bufs[i])
  }

  /** Copying to a block that is not logged leaves the same buffers dirty. */
  lemma CopiedDirty(bufs: seq<Buf>, after: seq<Buf>, l: seq<nat>, at: seq<nat>, src: nat, dst: nat, i: nat, j: nat,
                    data: Block)
    requires DirtyFrom(bufs, l, at, 0) && dst !in l && src != dst && Copied(bufs, after, src, dst, i, j, data)
    ensures DirtyFrom(after, l, at, 0)
  {
    forall k | 0 <= k < |l| ensures DirtyAt(after, at[k], l[k]) {
      assert DirtyAt(bufs, at[k], l[k]) && at[k] != j;
    }
  }

  lemma CopiedCarries(g: Geometry, bufs: seq<Buf>, after: seq<Buf>, disk: seq<Block>, src: nat, dst: nat, i: nat,
                      j: nat, img: seq<Block>)
    requires src < |disk| && dst < |disk| && src != dst
    requires Quiet(bufs, disk) && OneBufferEach(bufs) && OneBufferEach(after)
    requires Copied(bufs, after, src, dst, i, j, Content(bufs, disk, src))
    requires Carries(g, bufs, disk, img) && (g.Home(dst) ==> Content(bufs, disk, src) == img[dst])
    ensures Carries(g, after, disk[dst := Content(bufs, disk, src)], img)
  {
    var d := disk[dst := Content(bufs, disk, src)];
    forall b: nat | g.Home(b) ensures Content(after, d, b) == img[b] {
      CopiedContent(bufs, after, disk, src, dst, i, j, b);
    }
  }

  /** Every home block as the file system sees it. */
  ghost function Staged(bufs: seq<Buf>, disk: seq<Block>): (img: seq<Block>)
    ensures |img| == |disk|
    ensures forall b :: 0 <= b < |disk| ==> img[b] == Content(bufs, disk, b)
  {
    seq(|disk|, b requires 0 <= b < |disk| => Content(bufs, disk, b))
  }

  /** A crash at any of these points, followed by recovery, leads to `img`. */
  ghost predicate RecoversTo(g: Geometry, trail: seq<seq<Block>>, from: nat, to: nat, img: seq<Block>) {
    forall k :: from <= k < to && k < |trail| ==> Recoverable(g, trail[k], img)
  }

  lemma CopiedRecyclable(bufs: seq<Buf>, after: seq<Buf>, src: nat, dst: nat, i: nat, j: nat, data: Block)
    requires Copied(bufs, after, src, dst, i, j, data)
    ensures forall k :: 0 < k < |bufs| && Recyclable(bufs[k]) ==> Recyclable(after[k])
  {
  }

  /** A clean buffer was reused for another clean block: what is dirty does not change. */
  lemma CleanReplaced(g: Geometry, bufs: seq<Buf>, after: seq<Buf>, i: nat, disk: seq<Block>, d: seq<Block>,
                      img: seq<Block>)
    requires 0 < i < |bufs| && |after| == |bufs| && after == bufs[i := after[i]] && !bufs[i].dirty && !after[i].dirty
    requires OneBufferEach(bufs) && OneBufferEach(after) && |d| == |disk|
    requires forall b: nat {:trigger g.Home(b)} :: g.Home(b) && b < |disk| ==> d[b] == disk[b]
    ensures Carries(g, bufs, disk, img) ==> Carries(g, after, d, img)
    ensures forall l, at :: DirtyFrom(bufs, l, at, 0) ==> DirtyFrom(after, l, at, 0)
  {
    assert forall k: nat, b: nat :: DirtyAt(after, k, b) <==> DirtyAt(bufs, k, b);
    if Carries(g, bufs, disk, img) {
      forall b: nat | g.Home(b) ensures Content(after, d, b) == img[b] {
        SameContent(bufs, after, i, disk, d, b);
      }
    }
    forall l: seq<nat>, at: seq<nat> | DirtyFrom(bufs, l, at, 0) ensures DirtyFrom(after, l, at, 0) {
      forall k | 0 <= k < |l| ensures DirtyAt(after, at[k], l[k]) {
        assert DirtyAt(bufs, at[k], l[k]);
      }
    }
  }

  lemma SameContent(bufs: seq<Buf>, after: seq<Buf>, i: nat, disk: seq<Block>, d: seq<Block>, b: nat)
    requires 0 < i < |bufs| && |after| == |bufs| && after == bufs[i := after[i]] && !bufs[i].dirty && !after[i].dirty
    requires OneBufferEach(bufs) && OneBufferEach(after) && b < |disk| == |d| && d[b] == disk[b]
    ensures Content(after, d, b) == Content(bufs, disk, b)
  {
    if k: nat :| DirtyAt(bufs, k, b) {
      assert DirtyAt(after, k, b);
      ContentOf(bufs, disk, k, b);
      ContentOf(after, d, k, b);
    } else {
      assert forall k: nat :: DirtyAt(after, k, b) ==> DirtyAt(bufs, k, b);
    }
  }

  /** install_trans on a logged block: it is now clean. */
  lemma InstalledDirty(bufs: seq<Buf>, after: seq<Buf>, l: seq<nat>, at: seq<nat>, t: nat, src: nat, i: nat, j: nat,
                       data: Block)
    requires DirtyFrom(bufs, l, at, t) && t < |l| && Distinct(l) && src !in l
    requires forall x :: 0 < x < |bufs| && bufs[x].dirty ==> bufs[x].dev == ROOT_DEV
    requires OneBufferEach(after) && Copied(bufs, after, src, l[t], i, j, data)
    ensures DirtyFrom(after, l, at, t + 1)
  {
    assert l[t..] == [l[t]] + l[t + 1..];
    forall k | t + 1 <= k < |l| ensures DirtyAt(after, at[k], l[k]) {
      assert DirtyAt(bufs, at[k], l[k]);
    }
    forall x | 0 < x < |after| && after[x].dirty ensures after[x].blockno in l[t + 1..] {
      if x != i {
        assert x != j && after[x] == bufs[x];
        OneEach(after, x, j);
      }
    }
  }

  /** Buffers enough for install_trans: one is enough while the home blocks are pinned in the cache. */
  ghost predicate Spare(bufs: seq<Buf>, pinned: bool) {
    if pinned then AnyRecyclable(bufs)
    else exists i, j :: 0 < i < j < |bufs| && Recyclable(bufs[i]) && Recyclable(bufs[j])
  }

  lemma CopiedSpare(bufs: seq<Buf>, after: seq<Buf>, src: nat, dst: nat, i: nat, j: nat, data: Block, pinned: bool)
    requires Copied(bufs, after, src, dst, i, j, data) && Spare(bufs, pinned)
    ensures Spare(after, pinned)
  {
    CopiedRecyclable(bufs, after, src, dst, i, j, data);
    if pinned {
      var k :| 0 < k < |bufs| && Recyclable(bufs[k]);
      assert Recyclable(after[k]);
    } else {
      var p, q :| 0 < p < q < |bufs| && Recyclable(bufs[p]) && Recyclable(bufs[q]);
      assert Recyclable(after[p]) && Recyclable(after[q]);
    }
  }

  lemma InstalledBufs(g: Geometry, bufs: seq<Buf>, after: seq<Buf>, disk: seq<Block>, l: seq<nat>, at: seq<nat>, t: nat,
                      slot: nat,
                      i: nat, j: nat, pinned: bool)
    requires t < |l| && Loggable(g, l) && slot !in l && slot < |disk| && Quiet(bufs, disk) && OneBufferEach(after)
    requires DirtyFrom(bufs, l, at, DirtyStart(t, |l|, pinned)) && Spare(bufs, pinned)
      && Copied(bufs, after, slot, l[t], i, j, disk[slot])
    ensures DirtyFrom(after, l, at, DirtyStart(t + 1, |l|, pinned)) && Spare(after, pinned)
  {
    CopiedSpare(bufs, after, slot, l[t], i, j, disk[slot], pinned);
    if pinned {
      InstalledDirty(bufs, after, l, at, t, slot, i, j, disk[slot]);
    }
  }

  /** What copying one slot home does to disk and buffers. */
  lemma OneInstalled(g: Geometry, bufs: seq<Buf>, after: seq<Buf>, disk: seq<Block>, l: seq<nat>, at: seq<nat>,
                     img: seq<Block>,
                     t: nat, slot: nat, i: nat, j: nat, pinned: bool)
    requires Shape(g, disk, img) && Loggable(g, l) && t < |l| && slot == g.logStart + 1 + t
      && Installing(g, disk, l, img, t)
    requires Quiet(bufs, disk) && OneBufferEach(after) && Content(bufs, disk, slot) == disk[slot]
    requires DirtyFrom(bufs, l, at, DirtyStart(t, |l|, pinned)) && Spare(bufs, pinned)
      && Copied(bufs, after, slot, l[t], i, j, disk[slot])
    ensures var d := disk[l[t] := disk[slot]];
      && Shape(g, d, img) && Installing(g, d, l, img, t + 1) && SameLog(g, d, disk) && Quiet(after, d)
    ensures DirtyFrom(after, l, at, DirtyStart(t + 1, |l|, pinned)) && Spare(after, pinned)
  {
    InstallDisk(g, disk, l, img, t);
    CopiedQuiet(bufs, after, disk, slot, l[t], i, j);
    InstalledBufs(g, bufs, after, disk, l, at, t, slot, i, j, pinned);
  }

  /** No block outside the list is dirty. */
  lemma SlotIsClean(bufs: seq<Buf>, disk: seq<Block>, l: seq<nat>, at: seq<nat>, from: nat, b: nat)
    requires DirtyFrom(bufs, l, at, from) && b !in l && b < |disk|
    ensures Content(bufs, disk, b) == disk[b]
  {
    forall i: nat ensures !DirtyAt(bufs, i, b) {
      if 0 < i < |bufs| && bufs[i].dirty {
        assert bufs[i].blockno in l;
      }
    }
  }

  /** The dirty blocks when install_trans is at `t`: in recovery none ever. */
  function DirtyStart(t: nat, n: nat, pinned: bool): nat { if pinned then t else n }

  lemma NoneDirty(bufs: seq<Buf>, disk: seq<Block>)
    requires DirtyFrom(bufs, [], [], 0)
    ensures Staged(bufs, disk) == disk
  {
    forall b | 0 <= b < |disk| ensures Content(bufs, disk, b) == disk[b] {
      SlotIsClean(bufs, disk, [], [], 0, b);
    }
  }

  ghost predicate SameLog(g: Geometry, d: seq<Block>, d0: seq<Block>) {
    |d| == |d0| == g.nblocks && forall b :: 0 <= b < |d| && g.InLog(b) ==> d[b] == d0[b]
  }

  /** The loop of install_trans computes the installed disk of the format. */
  lemma ExactlyInstalled(g: Geometry, d0: seq<Block>, d: seq<Block>, l: seq<nat>, img: seq<Block>)
    requires Shape(g, d0, img) && Shape(g, d, img) && Loggable(g, l)
    requires Installing(g, d0, l, img, 0) && Installing(g, d, l, img, |l|) && SameLog(g, d, d0)
    ensures d == Installed(g, d0, l, |l|)
  {
    var r := Installed(g, d0, l, |l|);
    forall b: nat | b < |d| ensures d[b] == r[b] {
      ExactlyAt(g, d0, d, l, img, b);
    }
  }

  lemma ExactlyAt(g: Geometry, d0: seq<Block>, d: seq<Block>, l: seq<nat>, img: seq<Block>, b: nat)
    requires Shape(g, d0, img) && Shape(g, d, img) && Loggable(g, l) && b < |d|
    requires Installing(g, d0, l, img, 0) && Installing(g, d, l, img, |l|) && SameLog(g, d, d0)
    ensures d[b] == Installed(g, d0, l, |l|)[b]
  {
    InstalledAt(g, d0, l, |l|, b);
    assert l[..|l|] == l;
    if b in l {
      var i :| 0 <= i < |l| && l[i] == b;
      assert d[l[i]] == img[l[i]] == d0[g.logStart + 1 + i];
    } else {
      assert g.Home(b) || g.InLog(b);
    }
  }

  // ----- counting buffers -----

  ghost function BlocksUpTo(bufs: seq<Buf>, m: nat): set<nat>
    requires m < |bufs|
  {
    if m == 0 then {} else BlocksUpTo(bufs, m - 1) + {bufs[m].blockno}
  }

  lemma {:induction false} NotAmong(bufs: seq<Buf>, m: nat, x: nat)
    requires m < |bufs| && forall i :: 0 < i <= m ==> bufs[i].blockno != x
    ensures x !in BlocksUpTo(bufs, m)
  {
    if m > 0 { NotAmong(bufs, m - 1, x); }
  }

  lemma {:induction false} AllAmong(bufs: seq<Buf>, m: nat, l: seq<nat>)
    requires m < |bufs| && forall i :: 0 < i <= m ==> bufs[i].blockno in l
    ensures forall x :: x in BlocksUpTo(bufs, m) ==> x in l
  {
    if m > 0 { AllAmong(bufs, m - 1, l); }
  }

  lemma {:induction false} BlocksCount(bufs: seq<Buf>, m: nat)
    requires m < |bufs| && OneBufferEach(bufs)
    requires forall i :: 0 < i <= m ==> bufs[i].dev == ROOT_DEV
    ensures |BlocksUpTo(bufs, m)| == m
  {
    if m > 0 {
      BlocksCount(bufs, m - 1);
      forall i: nat | 0 < i <= m - 1 ensures bufs[i].blockno != bufs[m].blockno {
        OneEach(bufs, i, m);
      }
      NotAmong(bufs, m - 1, bufs[m].blockno);
    }
  }

  lemma {:induction false} AtMostLength(s: set<nat>, l: seq<nat>)
    requires forall x :: x in s ==> x in l
    ensures |s| <= |l|
    decreases |l|
  {
    if l == [] {
      assert s == {};
    } else {
      var rest := s - {l[0]};
      AtMostLength(rest, l[1..]);
      assert s <= rest + {l[0]};
      SubsetFull(s, rest + {l[0]});
    }
  }

  /** Fewer logged blocks than buffers: some buffer can be recycled. */
  lemma SomeRecyclable(bufs: seq<Buf>, disk: seq<Block>, l: seq<nat>, at: seq<nat>)
    requires Quiet(bufs, disk) && OneBufferEach(bufs) && DirtyFrom(bufs, l, at, 0)
    requires |l| + 1 < |bufs|
    ensures AnyRecyclable(bufs)
  {
    if !AnyRecyclable(bufs) {
      var n := |bufs| - 1;
      forall i | 0 < i <= n ensures bufs[i].dirty && bufs[i].dev == ROOT_DEV && bufs[i].blockno in l {
        assert !Recyclable(bufs[i]);
        assert l[0..] == l;
      }
      BlocksCount(bufs, n);
      AllAmong(bufs, n, l);
      AtMostLength(BlocksUpTo(bufs, n), l);
      assert false;
    }
  }

  /** A logged change of one block: that block reads as changed, all others as before. */
  lemma UpdatedContent(bufs: seq<Buf>, after: seq<Buf>, disk: seq<Block>, i: nat, b: nat, data: Block, c: nat)
    requires OneBufferEach(bufs) && OneBufferEach(after) && b < |disk| && c < |disk|
    requires 0 < i < |bufs| && (bufs[i].dirty ==> IsFor(bufs[i], ROOT_DEV, b))
    requires after == bufs[i := Buf(ROOT_DEV, b, false, true, true, data)]
    ensures Content(after, disk, c) == if c == b then data else Content(bufs, disk, c)
  {
    if c == b {
      assert DirtyAt(after, i, b);
      ContentOf(after, disk, i, b);
    } else if k: nat :| DirtyAt(bufs, k, c) {
      assert DirtyAt(after, k, c);
      ContentOf(bufs, disk, k, c);
      ContentOf(after, disk, k, c);
    } else {
      assert forall k: nat :: DirtyAt(after, k, c) ==> DirtyAt(bufs, k, c);
    }
  }

  /** Two blocks held, one copied to the other, both released. */
  lemma CopyDone(bufs: seq<Buf>, held: seq<Buf>, sent: seq<Buf>, after: seq<Buf>, disk: seq<Block>, from: nat, to: nat,
                 src: nat, dst: nat)
    requires 0 < from < |bufs| && 0 < to < |bufs| && from != to && src < |disk| && dst < |disk|
    requires (bufs[from].dirty ==> IsFor(bufs[from], ROOT_DEV, src))
      && (bufs[to].dirty ==> IsFor(bufs[to], ROOT_DEV, dst))
    requires held == bufs[from := Buf(ROOT_DEV, src, true, true, bufs[from].dirty, Content(bufs, disk, src))]
                         [to := Buf(ROOT_DEV, dst, true, true, bufs[to].dirty, Content(bufs, disk, dst))]
    requires sent == held[to := held[to].(data := held[from].data, dirty := false)]
    requires after == sent[from := sent[from].(busy := false)][to := sent[to].(busy := false)]
    ensures Copied(bufs, after, src, dst, from, to, Content(bufs, disk, src))
  {
  }

  /** A block logged for the first time. */
  lemma NewlyDirty(bufs: seq<Buf>, l: seq<nat>, at: seq<nat>, i: nat, b: nat)
    requires DirtyFrom(bufs, l, at, 0) && 0 < i < |bufs| && bufs[i].dev == ROOT_DEV && bufs[i].blockno == b
    ensures DirtyFrom(bufs[i := bufs[i].(dirty := true)], l + [b], at + [i], 0)
  {
    var after := bufs[i := bufs[i].(dirty := true)];
    forall k | 0 <= k < |l| + 1 ensures DirtyAt(after, (at + [i])[k], (l + [b])[k]) {
      if k < |l| { assert DirtyAt(bufs, at[k], l[k]); }
    }
    assert l[0..] == l && (l + [b])[0..] == l + [b];
  }

  /** A block logged again: it is the buffer already listed. */
  lemma AgainDirty(bufs: seq<Buf>, l: seq<nat>, at: seq<nat>, k: nat, i: nat, b: nat)
    requires DirtyFrom(bufs, l, at, 0) && OneBufferEach(bufs) && k < |l| && l[k] == b
    requires 0 < i < |bufs| && bufs[i].dev == ROOT_DEV && bufs[i].blockno == b
    ensures l[k := b] == l && bufs[i].dirty && DirtyFrom(bufs[i := bufs[i].(dirty := true)], l, at, 0)
  {
    assert DirtyAt(bufs, at[k], l[k]);
    if at[k] != i { OneEach(bufs, at[k], i); }
    assert bufs[i := bufs[i].(dirty := true)] == bufs;
  }

  class FsLog {
    const g: Geometry
    const cache: BCache
    var lh: seq<nat>
    var outstanding: nat
    var committing: bool
    ghost var at: seq<nat>   // the buffer of each logged block

    constructor (g: Geometry, cache: BCache)
      ensures this.g == g && this.cache == cache && lh == [] && at == [] && outstanding == 0 && !committing
    {
      this.g, this.cache := g, cache;
      lh, outstanding, committing := [], 0, false;
      at := [];
    }

    /** What holds around the loops of commit and recovery. */
    ghost predicate Ready()
      reads this, cache
    {
      && cache.Valid() && Quiet(cache.buf, cache.disk)
      && g.Valid() && Shaped(g, cache.disk) && Loggable(g, lh)
    }

    /** bread of two blocks in turn. */
    method HoldBoth(a: nat, b: nat) returns (i: nat, j: nat)
      requires cache.Valid() && Quiet(cache.buf, cache.disk) && Room(cache.buf, b)
      requires a != b && a < |cache.disk| && b < |cache.disk|
      modifies cache
      ensures cache.Valid() && cache.disk == old(cache.disk) && cache.trail == old(cache.trail)
      ensures 0 < i < |cache.buf| && 0 < j < |cache.buf| == |old(cache.buf)| && i != j
      ensures var bufs, disk := old(cache.buf), cache.disk;
        && (bufs[i].dirty ==> IsFor(bufs[i], ROOT_DEV, a))
        && (bufs[j].dirty ==> IsFor(bufs[j], ROOT_DEV, b))
        && cache.buf == bufs[i := Buf(ROOT_DEV, a, true, true, bufs[i].dirty, Content(bufs, disk, a))]
                            [j := Buf(ROOT_DEV, b, true, true, bufs[j].dirty, Content(bufs, disk, b))]
    {
      ghost var bufs, disk := cache.buf, cache.disk;
      var r := cache.Bread(a);
      assert r.Got? by {
        var k :| 0 < k < |bufs| && Recyclable(bufs[k]);
      }
      LoadedContent(bufs, disk, a, r.i, cache.buf);
      ghost var bufs1 := cache.buf;
      RoomFor(bufs, b, r.i, bufs1);
      var q := cache.Bread(b);
      SecondLoaded(bufs, disk, a, b, r.i, bufs1, q.i, cache.buf);
      return r.i, q.i;
    }

    /** The loop body of write_log and install_trans: bread both, memmove, bwrite, brelse both. */
    method CopyBlock(slot: nat, home: nat, toHome: bool) returns (ghost i: nat, ghost j: nat)
      requires cache.Valid() && Quiet(cache.buf, cache.disk) && Room(cache.buf, home)
      requires slot != home && slot < |cache.disk| && home < |cache.disk|
      modifies cache
      ensures cache.Valid()
      ensures var src, dst := if toHome then slot else home, if toHome then home else slot;
        && var data := old(Content(cache.buf, cache.disk, src));
        && cache.disk == old(cache.disk)[dst := data] && cache.trail == old(cache.trail) + [cache.disk]
        && Copied(old(cache.buf), cache.buf, src, dst, i, j, data)
    {
      ghost var bufs, disk := cache.buf, cache.disk;
      var l, d := HoldBoth(slot, home);
      var from, to := if toHome then l else d, if toHome then d else l;
      ghost var held := cache.buf;
      Transfer(from, to);
      ghost var sent := cache.buf;
      ReleaseBoth(from, to);
      CopyDone(bufs, held, sent, cache.buf, disk, from, to, if toHome then slot else home, if toHome then home
        else slot);
      return from, to;
    }

    method Transfer(from: nat, to: nat)
      requires cache.Valid() && 0 < from < |cache.buf| && 0 < to < |cache.buf| && from != to
      requires cache.buf[to].busy && cache.buf[to].valid && cache.buf[to].dev == ROOT_DEV
        && cache.buf[to].blockno < |cache.disk|
      modifies cache`buf, cache`disk, cache`trail
      ensures cache.Valid()
      ensures var bufs := old(cache.buf);
        && cache.disk == old(cache.disk)[bufs[to].blockno := bufs[from].data]
        && cache.trail == old(cache.trail) + [cache.disk]
        && cache.buf == bufs[to := bufs[to].(data := bufs[from].data, dirty := false)]
    {
      cache.SetData(to, cache.buf[from].data);
      cache.Bwrite(to);
    }

    method ReleaseBoth(i: nat, j: nat)
      requires cache.Valid() && 0 < i < |cache.buf| && 0 < j < |cache.buf| && i != j
      requires cache.buf[i].busy && cache.buf[j].busy
      modifies cache
      ensures cache.Valid() && cache.disk == old(cache.disk) && cache.trail == old(cache.trail)
      ensures cache.buf ==
        old(cache.buf)[i := old(cache.buf)[i].(busy := false)][j := old(cache.buf)[j].(busy := false)]
    {
      cache.Brelse(i);
      cache.Brelse(j);
    }

    /** write_log for one block. */
    method WriteSlot(tail: nat, ghost img: seq<Block>)
      requires Ready() && DirtyFrom(cache.buf, lh, at, 0) && AnyRecyclable(cache.buf) && tail < |lh|
      requires Carries(g, cache.buf, cache.disk, img)
      modifies cache
      ensures Ready() && DirtyFrom(cache.buf, lh, at, 0) && AnyRecyclable(cache.buf)
      ensures Carries(g, cache.buf, cache.disk, img)
      ensures cache.disk == old(cache.disk)[g.logStart + 1 + tail := img[lh[tail]]]
      ensures cache.trail == old(cache.trail) + [cache.disk]
    {
      ghost var bufs, disk := cache.buf, cache.disk;
      ghost var src, dst := lh[tail], g.logStart + 1 + tail;
      assert DirtyAt(bufs, at[tail], src);
      ghost var i, j := CopyBlock(g.logStart + 1 + tail, lh[tail], false);
      CopiedQuiet(bufs, cache.buf, disk, src, dst, i, j);
      CopiedDirty(bufs, cache.buf, lh, at, src, dst, i, j, cache.buf[j].data);
      CopiedCarries(g, bufs, cache.buf, disk, src, dst, i, j, img);
      assert Recyclable(cache.buf[j]);
    }

    /** Copy modified blocks from cache to log. */
    method WriteLog(ghost img: seq<Block>)
      requires Ready() && DirtyFrom(cache.buf, lh, at, 0) && AnyRecyclable(cache.buf)
      requires Carries(g, cache.buf, cache.disk, img) && Entries(cache.disk[g.logStart]) == []
      modifies cache
      ensures Ready() && DirtyFrom(cache.buf, lh, at, 0) && AnyRecyclable(cache.buf)
      ensures Carries(g, cache.buf, cache.disk, img)
      ensures SlotsHold(g, cache.disk, lh, img, |lh|)
      ensures Shaped(g, old(cache.disk)) && Unsealed(g, cache.disk, old(cache.disk))
      ensures old(cache.trail) <= cache.trail
      ensures RecoversTo(g, cache.trail, |old(cache.trail)|, |cache.trail|, old(cache.disk))
    {
      for tail := 0 to |lh|
        invariant Filling(tail, img, old(cache.disk), old(cache.trail))
      {
        FillSlot(tail, img, old(cache.disk), old(cache.trail));
      }
    }

    /** write_log before slot `tail`. */
    ghost predicate Filling(tail: nat, img: seq<Block>, disk0: seq<Block>, trail0: seq<seq<Block>>)
      reads this, cache
    {
      && Ready() && DirtyFrom(cache.buf, lh, at, 0) && AnyRecyclable(cache.buf)
      && Carries(g, cache.buf, cache.disk, img) && SlotsHold(g, cache.disk, lh, img, tail)
      && Shaped(g, disk0) && Unsealed(g, cache.disk, disk0)
      && trail0 <= cache.trail && RecoversTo(g, cache.trail, |trail0|, |cache.trail|, disk0)
    }

    method FillSlot(tail: nat, ghost img: seq<Block>, ghost disk0: seq<Block>, ghost trail0: seq<seq<Block>>)
      requires Filling(tail, img, disk0, trail0) && tail < |lh|
      modifies cache
      ensures Filling(tail + 1, img, disk0, trail0)
    {
      WriteSlot(tail, img);
    }

    /** install_trans for one block, in commit (the home block is pinned) and in recovery. */
    method InstallOne(tail: nat, ghost pinned: bool, ghost img: seq<Block>)
      requires Ready() && tail < |lh| && Shaped(g, img) && Installing(g, cache.disk, lh, img, tail)
      requires DirtyFrom(cache.buf, lh, at, DirtyStart(tail, |lh|, pinned)) && Spare(cache.buf, pinned)
      modifies cache
      ensures Ready() && Installing(g, cache.disk, lh, img, tail + 1)
      ensures DirtyFrom(cache.buf, lh, at, DirtyStart(tail + 1, |lh|, pinned)) && Spare(cache.buf, pinned)
      ensures SameLog(g, cache.disk, old(cache.disk))
      ensures cache.trail == old(cache.trail) + [cache.disk]
    {
      ghost var bufs, disk := cache.buf, cache.disk;
      ghost var slot, home := g.logStart + 1 + tail, lh[tail];
      assert pinned ==> DirtyAt(bufs, at[tail], home);
      SlotIsClean(bufs, disk, lh, at, DirtyStart(tail, |lh|, pinned), slot);
      ghost var i, j := CopyBlock(g.logStart + 1 + tail, lh[tail], true);
      OneInstalled(g, bufs, cache.buf, disk, lh, at, img, tail, slot, i, j, pinned);
    }

    /** Copy committed blocks from log to their home location. */
    method InstallTrans(ghost pinned: bool, ghost img: seq<Block>)
      requires Ready() && Shaped(g, img) && Installing(g, cache.disk, lh, img, 0)
      requires DirtyFrom(cache.buf, lh, at, DirtyStart(0, |lh|, pinned)) && Spare(cache.buf, pinned)
      modifies cache
      ensures Ready() && Installing(g, cache.disk, lh, img, |lh|)
      ensures DirtyFrom(cache.buf, lh, at, |lh|) && Spare(cache.buf, pinned)
      ensures cache.disk == Installed(g, old(cache.disk), lh, |lh|)
      ensures old(cache.trail) <= cache.trail
      ensures RecoversTo(g, cache.trail, |old(cache.trail)|, |cache.trail|, img)
    {
      for tail := 0 to |lh|
        invariant Ready() && Installing(g, cache.disk, lh, img, tail)
        invariant SameLog(g, cache.disk, old(cache.disk))
        invariant DirtyFrom(cache.buf, lh, at, DirtyStart(tail, |lh|, pinned)) && Spare(cache.buf, pinned)
        invariant old(cache.trail) <= cache.trail
        invariant RecoversTo(g, cache.trail, |old(cache.trail)|, |cache.trail|, img)
      {
        InstallOne(tail, pinned, img);
      }
      ExactlyInstalled(g, old(cache.disk), cache.disk, lh, img);
    }

    /** The loop of write_head: the count and the block numbers go into the header block. */
    method PackHead(head: Block) returns (hb: Block)
      requires |lh| < |head|
      ensures hb == WithEntries(head, lh)
    {
      hb := head[0 := |lh|];
      for t := 0 to |lh|
        invariant |hb| == |head| && hb == [|lh|] + lh[..t] + head[1 + t..]
      {
        hb := hb[1 + t := lh[t]];
      }
    }

    /** bread of the header block, which is never dirty. */
    method HoldHead() returns (i: nat)
      requires Ready() && AnyRecyclable(cache.buf)
      requires forall i :: 0 < i < |cache.buf| && cache.buf[i].dirty ==> g.Home(cache.buf[i].blockno)
      modifies cache
      ensures cache.Valid() && cache.disk == old(cache.disk) && cache.trail == old(cache.trail)
      ensures 0 < i < |old(cache.buf)| && !old(cache.buf)[i].dirty
      ensures cache.buf == old(cache.buf)[i := Buf(ROOT_DEV, g.logStart, true, true, false, cache.disk[g.logStart])]
    {
      ghost var bufs, disk := cache.buf, cache.disk;
      var r := cache.Bread(g.logStart);
      LoadedContent(bufs, disk, g.logStart, r.i, cache.buf);
      return r.i;
    }

    /** write_head: the in-memory header goes to disk. */
    method WriteHead() returns (ghost i: nat)
      requires Ready() && AnyRecyclable(cache.buf) && |lh| < g.words
      requires forall i :: 0 < i < |cache.buf| && cache.buf[i].dirty ==> g.Home(cache.buf[i].blockno)
      modifies cache
      ensures Ready() && |cache.buf| == |old(cache.buf)|
      ensures cache.disk == old(cache.disk)[g.logStart := WithEntries(old(cache.disk)[g.logStart], lh)]
      ensures cache.trail == old(cache.trail) + [cache.disk]
      ensures 0 < i < |cache.buf| && !old(cache.buf)[i].dirty && Recyclable(cache.buf[i])
      ensures cache.buf == old(cache.buf)[i := cache.buf[i]]
    {
      ghost var bufs, disk := cache.buf, cache.disk;
      var h := HoldHead();
      var hb := PackHead(cache.buf[h].data);
      StoreBlock(h, hb);
      HeadQuiet(g, bufs, cache.buf, h, disk, hb);
      i := h;
    }

    /** New content for a held buffer, written through and released. */
    method StoreBlock(h: nat, data: Block)
      requires cache.Valid() && 0 < h < |cache.buf| && cache.buf[h].busy && cache.buf[h].valid
        && cache.buf[h].dev == ROOT_DEV && cache.buf[h].blockno < |cache.disk|
      modifies cache
      ensures cache.Valid() && cache.disk == old(cache.disk)[old(cache.buf)[h].blockno := data]
      ensures cache.trail == old(cache.trail) + [cache.disk]
      ensures cache.buf == old(cache.buf)[h := old(cache.buf)[h].(data := data, busy := false, dirty := false)]
    {
      cache.SetData(h, data);
      cache.Bwrite(h);
      cache.Brelse(h);
    }

    /** Between operations: nothing held, the logged blocks dirty in the cache, no transaction sealed on disk. */
    ghost predicate Between()
      reads this, cache
    {
      && Ready() && DirtyFrom(cache.buf, lh, at, 0) && |lh| <= g.logSize
      && Entries(cache.disk[g.logStart]) == []
      && Shaped(g, Staged(cache.buf, cache.disk))
    }

    /** The write_head that commits. */
    method SealHeader(ghost img0: seq<Block>, ghost img: seq<Block>)
      requires Ready() && DirtyFrom(cache.buf, lh, at, 0) && AnyRecyclable(cache.buf) && |lh| < g.words
      requires Shaped(g, img0) && Shaped(g, img)
      requires Unsealed(g, cache.disk, img0) && SlotsHold(g, cache.disk, lh, img, |lh|)
      requires forall b: nat {:trigger g.Home(b)} :: g.Home(b) && b !in lh ==> img[b] == img0[b]
      modifies cache
      ensures Ready() && DirtyFrom(cache.buf, lh, at, 0) && AnyRecyclable(cache.buf)
      ensures Installing(g, cache.disk, lh, img, 0)
      ensures cache.trail == old(cache.trail) + [cache.disk]
    {
      ghost var bufs, disk := cache.buf, cache.disk;
      SealDisk(g, disk, lh, img0, img);
      ghost var i := WriteHead();
      CleanReplaced(g, bufs, cache.buf, i, disk, cache.disk, img);
    }

    /** The write_head that erases the transaction from the log. */
    method ClearHeader(ghost l: seq<nat>, ghost img: seq<Block>)
      requires Ready() && lh == [] && DirtyFrom(cache.buf, [], [], 0) && AnyRecyclable(cache.buf)
      requires Shaped(g, img) && Loggable(g, l) && Installing(g, cache.disk, l, img, |l|)
      modifies cache
      ensures Ready() && DirtyFrom(cache.buf, [], [], 0) && AnyRecyclable(cache.buf)
      ensures Unsealed(g, cache.disk, img)
      ensures cache.disk == old(cache.disk)[g.logStart := WithEntries(old(cache.disk)[g.logStart], [])]
      ensures cache.trail == old(cache.trail) + [cache.disk] && Recoverable(g, cache.disk, img)
    {
      ghost var bufs, disk := cache.buf, cache.disk;
      ClearDisk(g, disk, l, img);
      ghost var i := WriteHead();
      CleanReplaced(g, bufs, cache.buf, i, disk, cache.disk, img);
    }

    /** The first half of commit: log the blocks and write the header, the commit point. */
    method LogAndSeal(ghost img: seq<Block>) returns (ghost cut: nat)
      requires Between() && AnyRecyclable(cache.buf) && img == Staged(cache.buf, cache.disk)
      modifies cache
      ensures Ready() && DirtyFrom(cache.buf, lh, at, 0) && AnyRecyclable(cache.buf)
      ensures Installing(g, cache.disk, lh, img, 0)
      ensures old(cache.trail) <= cache.trail && |old(cache.trail)| <= cut <= |cache.trail|
      ensures RecoversTo(g, cache.trail, |old(cache.trail)|, cut, old(cache.disk))
      ensures RecoversTo(g, cache.trail, cut, |cache.trail|, img)
    {
      forall b: nat | g.Home(b) && b !in lh ensures img[b] == cache.disk[b] {
        SlotIsClean(cache.buf, cache.disk, lh, at, 0, b);
      }
      WriteLog(img);
      cut := |cache.trail|;
      SealHeader(old(cache.disk), img);
    }

    /** The second half: install the blocks and erase the header. */
    method InstallAndClear(ghost pinned: bool, ghost img: seq<Block>)
      requires Ready() && Shaped(g, img) && Installing(g, cache.disk, lh, img, 0)
      requires DirtyFrom(cache.buf, lh, at, DirtyStart(0, |lh|, pinned)) && Spare(cache.buf, pinned)
      modifies this`lh, this`at, cache
      ensures Between() && lh == [] && AnyRecyclable(cache.buf)
      ensures Unsealed(g, cache.disk, img)
      ensures |Entries(old(cache.disk)[g.logStart])| < g.nlog && cache.disk == Replay(g, old(cache.disk))
      ensures old(cache.trail) <= cache.trail
      ensures RecoversTo(g, cache.trail, |old(cache.trail)|, |cache.trail|, img)
    {
      ghost var l := lh;
      InstallTrans(pinned, img);
      lh, at := [], [];
      ClearHeader(l, img);
      NoneDirty(cache.buf, cache.disk);
    }

    /**
     commit: the home blocks become what the cache holds. Up to the header write `cut` a crash
     recovers to the old blocks, from there on to the new ones.
     */
    method Commit() returns (ghost cut: nat)
      requires Between() && AnyRecyclable(cache.buf)
      modifies this`lh, this`at, cache
      ensures Between() && lh == [] && AnyRecyclable(cache.buf)
      ensures |Staged(old(cache.buf), old(cache.disk))| == g.nblocks
      ensures SameHome(g, cache.disk, Staged(old(cache.buf), old(cache.disk)))
      ensures old(cache.trail) <= cache.trail && |old(cache.trail)| <= cut <= |cache.trail|
      ensures RecoversTo(g, cache.trail, |old(cache.trail)|, cut, old(cache.disk))
      ensures RecoversTo(g, cache.trail, cut, |cache.trail|, Staged(old(cache.buf), old(cache.disk)))
    {
      cut := |cache.trail|;
      ghost var img := Staged(cache.buf, cache.disk);
      if |lh| > 0 {
        cut := LogAndSeal(img);
        InstallAndClear(true, img);
      } else {
        NoneDirty(cache.buf, cache.disk);
      }
    }

    /** The loop of read_head. */
    method UnpackHead(hb: Block) returns (l: seq<nat>)
      requires |hb| > 0 && hb[0] < |hb|
      ensures l == Entries(hb)
    {
      l := [];
      for i := 0 to hb[0]
        invariant l == hb[1..1 + i]
      {
        l := l + [hb[1 + i]];
      }
    }

    /** read_head: the header on disk becomes the in-memory one. */
    method ReadHead()
      requires Ready() && lh == [] && DirtyFrom(cache.buf, [], [], 0) && Spare(cache.buf, false)
      requires cache.disk[g.logStart][0] < g.words && Loggable(g, Entries(cache.disk[g.logStart]))
      modifies this`lh, this`at, cache
      ensures Ready() && lh == Entries(cache.disk[g.logStart])
      ensures DirtyFrom(cache.buf, lh, at, |lh|) && Spare(cache.buf, false)
      ensures cache.disk == old(cache.disk) && cache.trail == old(cache.trail)
    {
      ghost var bufs, disk := cache.buf, cache.disk;
      var i := HoldHead();
      lh := UnpackHead(cache.buf[i].data);
      at := seq(|lh|, _ => 0);
      cache.Brelse(i);
      HeadRead(g, bufs, cache.buf, i, disk, lh, at);
    }

    /**
     recover_from_log on the disk a crash left: exactly the replay of the log. A crash at any point
     of recovery leaves a disk from which recovery still leads to the same blocks.
     */
    method RecoverFromLog(ghost img: seq<Block>)
      requires Ready() && lh == [] && DirtyFrom(cache.buf, [], [], 0) && Spare(cache.buf, false)
      requires cache.disk[g.logStart][0] < g.words && Shaped(g, img) && Recoverable(g, cache.disk, img)
      modifies this`lh, this`at, cache
      ensures Between() && lh == [] && AnyRecyclable(cache.buf)
      ensures |Entries(old(cache.disk)[g.logStart])| < g.nlog && cache.disk == Replay(g, old(cache.disk))
      ensures SameHome(g, cache.disk, img)
      ensures old(cache.trail) <= cache.trail
      ensures RecoversTo(g, cache.trail, |old(cache.trail)|, |cache.trail|, img)
    {
      ReadHead();
      InstallAndClear(false, img);
    }

    /** log_write on a held buffer; false where the source panics. */
    method LogWrite(i: nat) returns (ok: bool)
      requires cache.Valid() && 0 < i < |cache.buf| && cache.buf[i].busy && cache.buf[i].valid
      requires cache.buf[i].dev == ROOT_DEV && DirtyFrom(cache.buf, lh, at, 0)
      modifies this`lh, this`at, cache`buf
      ensures cache.Valid()
      ensures ok <==> |old(lh)| < g.logSize && |old(lh)| + 1 < g.nlog && outstanding >= 1
      ensures !ok ==> lh == old(lh) && cache.buf == old(cache.buf)
      ensures ok ==>
        && lh == LogProtocol.Logged(old(lh), old(cache.buf[i].blockno))
        && cache.buf == old(cache.buf)[i := old(cache.buf[i]).(dirty := true)]
        && DirtyFrom(cache.buf, lh, at, 0)
    {
      if |lh| >= g.logSize || |lh| + 1 >= g.nlog || outstanding < 1 {
        return false;
      }
      var b := cache.buf[i].blockno;
      var k := 0;
      while k < |lh| && lh[k] != b
        invariant 0 <= k <= |lh| && b !in lh[..k]
      {
        k := k + 1;
      }
      ghost var bufs := cache.buf;
      if k == |lh| {
        assert lh[..k] == lh;
        NewlyDirty(bufs, lh, at, i, b);
        lh := lh + [b];
        at := at + [i];
      } else {
        AgainDirty(bufs, lh, at, k, i, b);
        lh := lh[k := b];
      }
      cache.MarkDirty(i);
      return true;
    }

    /** The use log_write is meant for: bread, modify, log_write, brelse. The disk does not change. */
    method Update(b: nat, data: Block) returns (ok: bool)
      requires Between() && g.Home(b) && |data| == g.words && |lh| + 1 < |cache.buf|
      modifies this`lh, this`at, cache
      ensures ok <==> |old(lh)| < g.logSize && |old(lh)| + 1 < g.nlog && outstanding >= 1
      ensures ok ==> Between() && lh == LogProtocol.Logged(old(lh), b)
      ensures ok ==> Staged(cache.buf, cache.disk) == Staged(old(cache.buf), old(cache.disk))[b := data]
      ensures cache.disk == old(cache.disk) && cache.trail == old(cache.trail)
    {
      var i := HoldAndSet(b, data);
      ok := LogWrite(i);
      if ok {
        ReleaseLogged(i);
        UpdateDone(g, old(cache.buf), cache.buf, cache.disk, old(lh), i, b, data);
      }
    }

    method HoldAndSet(b: nat, data: Block) returns (i: nat)
      requires Between() && b < g.nblocks && |lh| + 1 < |cache.buf|
      modifies cache
      ensures cache.Valid() && cache.disk == old(cache.disk) && cache.trail == old(cache.trail)
      ensures 0 < i < |old(cache.buf)| && (old(cache.buf)[i].dirty ==> IsFor(old(cache.buf)[i], ROOT_DEV, b))
      ensures cache.buf == old(cache.buf)[i := Buf(ROOT_DEV, b, true, true, old(cache.buf)[i].dirty, data)]
      ensures DirtyFrom(cache.buf, lh, at, 0)
    {
      ghost var bufs, disk := cache.buf, cache.disk;
      SomeRecyclable(bufs, disk, lh, at);
      var r := cache.Bread(b);
      LoadedContent(bufs, disk, b, r.i, cache.buf);
      cache.SetData(r.i, data);
      DirtyKept(bufs, cache.buf, lh, at, r.i);
      return r.i;
    }

    method ReleaseLogged(i: nat)
      requires cache.Valid() && DirtyFrom(cache.buf, lh, at, 0) && 0 < i < |cache.buf| && cache.buf[i].busy
      modifies cache
      ensures cache.Valid() && DirtyFrom(cache.buf, lh, at, 0)
      ensures cache.disk == old(cache.disk) && cache.trail == old(cache.trail)
      ensures cache.buf == old(cache.buf)[i := old(cache.buf)[i].(busy := false)]
    {
      cache.Brelse(i);
      DirtyKept(old(cache.buf), cache.buf, lh, at, i);
    }

    /** One pass of begin_op's loop: true if the operation is admitted, false if it has to sleep. */
    method BeginOp() returns (admitted: bool)
      modifies this`outstanding
      ensures admitted <==> !committing && |lh| + (old(outstanding) + 1) * g.maxOp <= g.logSize
      ensures outstanding == old(outstanding) + if admitted then 1 else 0
    {
      if committing {
        return false;
      } else if |lh| + (outstanding + 1) * g.maxOp > g.logSize {
        return false;
      } else {
        outstanding := outstanding + 1;
        return true;
      }
    }

    /** end_op: the last operation commits everything logged since the previous commit. */
    method EndOp() returns (ghost cut: nat)
      requires Between() && !committing && outstanding >= 1 && |lh| + 1 < |cache.buf|
      modifies this`lh, this`at, this`outstanding, this`committing, cache
      ensures Between() && !committing && outstanding == old(outstanding) - 1
      ensures outstanding > 0 ==> lh == old(lh) && cache.buf == old(cache.buf) && cache.disk == old(cache.disk)
      ensures |Staged(old(cache.buf), old(cache.disk))| == g.nblocks
      ensures outstanding == 0 ==> lh == [] && SameHome(g, cache.disk, Staged(old(cache.buf), old(cache.disk)))
      ensures old(cache.trail) <= cache.trail && |old(cache.trail)| <= cut <= |cache.trail|
      ensures RecoversTo(g, cache.trail, |old(cache.trail)|, cut, old(cache.disk))
      ensures RecoversTo(g, cache.trail, cut, |cache.trail|, Staged(old(cache.buf), old(cache.disk)))
    {
      cut := |cache.trail|;
      outstanding := outstanding - 1;
      if outstanding == 0 {
        committing := true;
        SomeRecyclable(cache.buf, cache.disk, lh, at);
        cut := Commit();
        committing := false;
      }
    }
  }

  lemma HeadQuiet(g: Geometry, bufs: seq<Buf>, after: seq<Buf>, i: nat, disk: seq<Block>, hb: Block)
    requires Quiet(bufs, disk) && OneBufferEach(after) && 0 < i < |bufs| && g.logStart < |disk|
    requires after == bufs[i := Buf(ROOT_DEV, g.logStart, false, true, false, hb)]
    ensures Quiet(after, disk[g.logStart := hb])
  {
    forall k | 0 < k < |after| && k != i ensures after[k].dev == ROOT_DEV ==> after[k].blockno != g.logStart {
      OneEach(after, i, k);
    }
  }

  /** Reading the header of a clean cache leaves it clean, quiet and with room. */
  lemma HeadRead(g: Geometry, bufs: seq<Buf>, after: seq<Buf>, i: nat, disk: seq<Block>, l: seq<nat>, at: seq<nat>)
    requires Quiet(bufs, disk) && OneBufferEach(after) && 0 < i < |bufs| && g.logStart < |disk| && |at| == |l|
    requires after == bufs[i := Buf(ROOT_DEV, g.logStart, false, true, false, disk[g.logStart])]
    requires DirtyFrom(bufs, [], [], 0) && Spare(bufs, false)
    ensures Quiet(after, disk) && DirtyFrom(after, l, at, |l|) && Spare(after, false)
  {
    HeadQuiet(g, bufs, after, i, disk, disk[g.logStart]);
    assert disk[g.logStart := disk[g.logStart]] == disk;
    var p, q :| 0 < p < q < |bufs| && Recyclable(bufs[p]) && Recyclable(bufs[q]);
    assert Recyclable(after[p]) && Recyclable(after[q]);
  }

  lemma DirtyKept(bufs: seq<Buf>, after: seq<Buf>, l: seq<nat>, at: seq<nat>, i: nat)
    requires DirtyFrom(bufs, l, at, 0) && 0 < i < |bufs| && |after| == |bufs| && after == bufs[i := after[i]]
    requires after[i].dirty == bufs[i].dirty
    requires bufs[i].dirty ==> after[i].dev == bufs[i].dev && after[i].blockno == bufs[i].blockno
    ensures DirtyFrom(after, l, at, 0)
  {
    forall k | 0 <= k < |l| ensures DirtyAt(after, at[k], l[k]) {
      assert DirtyAt(bufs, at[k], l[k]);
    }
  }

  lemma UpdateDone(g: Geometry, bufs: seq<Buf>, after: seq<Buf>, disk: seq<Block>, l: seq<nat>, i: nat, b: nat,
                   data: Block)
    requires Quiet(bufs, disk) && OneBufferEach(bufs) && OneBufferEach(after) && g.Home(b) && g.nblocks == |disk|
    requires 0 < i < |bufs| && (bufs[i].dirty ==> IsFor(bufs[i], ROOT_DEV, b))
    requires after == bufs[i := Buf(ROOT_DEV, b, false, true, true, data)]
    requires Loggable(g, l) && |l| + 1 < g.nlog
    ensures Quiet(after, disk) && Staged(after, disk) == Staged(bufs, disk)[b := data]
    ensures Loggable(g, LogProtocol.Logged(l, b))
  {
    LoggedOk(g, l, b);
    forall c | 0 <= c < |disk| ensures Staged(after, disk)[c] == Staged(bufs, disk)[b := data][c] {
      UpdatedContent(bufs, after, disk, i, b, data, c);
    }
  }
}
