/**
 How many blocks writing to a file puts into the log, when the bitmap is one block. filewrite makes
 each chunk a transaction of its own, and a transaction may log MAXOPBLOCKS blocks.
 */
module FsLogged {
  import opened FsBlocks
  import opened Fs

  const MAXOPBLOCKS := 10

  /** The blocks of a file are none of metadata, the indirect block or another file's. */
  lemma {:induction false} SlotsOwned(blocks: seq<Block>, inodes: seq<Inode>, owner: seq<Use>, i: nat, lo: nat, hi: nat,
                                      n: nat, b: nat)
    requires Inv(blocks, inodes, owner) && i < |inodes| && hi <= n && Dense(blocks, inodes[i], n)
      && b in Slots(blocks, inodes[i], lo, hi)
    ensures IsSlot(owner, i, hi, b)
    decreases hi
  {
    SlotOwned(blocks, inodes, owner, i, hi - 1);
    if b != Slot(blocks, inodes[i], hi - 1) { SlotsOwned(blocks, inodes, owner, i, lo, hi - 1, n, b); }
  }

  /** One of the first `hi` blocks of file `i`. */
  ghost predicate IsSlot(owner: seq<Use>, i: nat, hi: nat, b: nat) {
    b < |owner| &&
    match owner[b]
    case Addr(k, a) => k == i && a < hi && a < NDIRECT
    case Entry(k, j) => k == i && NDIRECT + j < hi
    case _ => false
  }

  /** Different blocks of a file are different blocks. */
  lemma {:induction false} SlotsCount(blocks: seq<Block>, inodes: seq<Inode>, owner: seq<Use>, i: nat, lo: nat, hi: nat,
                                      n: nat)
    requires Inv(blocks, inodes, owner) && i < |inodes| && lo <= hi <= n && Dense(blocks, inodes[i], n)
    ensures |Slots(blocks, inodes[i], lo, hi)| == hi - lo
    decreases hi
  {
    if lo < hi {
      SlotsCount(blocks, inodes, owner, i, lo, hi - 1, n);
      NewSlot(blocks, inodes, owner, i, lo, hi - 1, n);
    }
  }

  lemma NewSlot(blocks: seq<Block>, inodes: seq<Inode>, owner: seq<Use>, i: nat, lo: nat, k: nat, n: nat)
    requires Inv(blocks, inodes, owner) && i < |inodes| && k < n && Dense(blocks, inodes[i], n)
    ensures Slot(blocks, inodes[i], k) !in Slots(blocks, inodes[i], lo, k)
  {
    var b := Slot(blocks, inodes[i], k);
    SlotOwned(blocks, inodes, owner, i, k);
    if b in Slots(blocks, inodes[i], lo, k) {
      SlotsOwned(blocks, inodes, owner, i, lo, k, n, b);
    }
  }

  lemma NotSlot(blocks: seq<Block>, inodes: seq<Inode>, owner: seq<Use>, i: nat, lo: nat, hi: nat, b: nat)
    requires Inv(blocks, inodes, owner) && i < |inodes| && Dense(blocks, inodes[i], hi)
    requires b < |owner| && (owner[b] == Meta || owner[b] == Addr(i, NDIRECT))
    ensures b !in Slots(blocks, inodes[i], lo, hi)
  {
    if b in Slots(blocks, inodes[i], lo, hi) {
      SlotsOwned(blocks, inodes, owner, i, lo, hi, hi, b);
    }
  }

  /** What writing `n` bytes at `off` to a file of `size` bytes logs, the file now being `ino`. */
  function Logged(blocks: seq<Block>, ino: Inode, bmap: nat, inodeBlock: nat, size: nat, off: nat, n: nat): set<nat> {
    WriteLog(blocks, ino, bmap, off / BSIZE, Reach(off, n), BlocksOf(size)) + if off + n > size then {inodeBlock}
      else {}
  }

  /** The blocks `n` bytes at `off` reach. */
  function Touched(off: nat, n: nat): nat {
    if n == 0 then 0 else (off + n - 1) / BSIZE - off / BSIZE + 1
  }

  /** The blocks reached; for new ones the bitmap, and perhaps the indirect block; the inode if the file grows. */
  function LogCount(size: nat, off: nat, n: nat): nat {
    Touched(off, n)
    + (if n == 0 || BlocksOf(off + n) <= BlocksOf(size) then 0 else if BlocksOf(off + n) <= NDIRECT then 1 else 2)
    + (if off + n > size then 1 else 0)
  }

  lemma OneMore(s: set<nat>, b: nat)
    requires b !in s
    ensures |s + {b}| == |s| + 1
  {
  }

  /** The bitmap block and the block of the inode. */
  ghost predicate MetaBlocks(owner: seq<Use>, bmap: nat, inodeBlock: nat) {
    bmap < |owner| && owner[bmap] == Meta && inodeBlock < |owner| && owner[inodeBlock] == Meta && bmap != inodeBlock
  }

  /** No block is counted twice: the log holds exactly LogCount blocks. */
  lemma ChunkCount(blocks: seq<Block>, inodes: seq<Inode>, owner: seq<Use>, i: nat, bmap: nat, inodeBlock: nat,
                   size: nat, off: nat, n: nat)
    requires Inv(blocks, inodes, owner) && i < |inodes| && MetaBlocks(owner, bmap, inodeBlock)
    requires off <= size && off + n <= MAXFILE * BSIZE && Dense(blocks, inodes[i], BlocksOf(Max(size, off + n)))
    ensures |Logged(blocks, inodes[i], bmap, inodeBlock, size, off, n)| == LogCount(size, off, n)
  {
    var lo, hi, nb, end := off / BSIZE, Reach(off, n), BlocksOf(size), BlocksOf(Max(size, off + n));
    ReachIs(size, off, n, lo, hi, end);
    SlotsCount(blocks, inodes, owner, i, lo, hi, end);
    NewCount(blocks, inodes, owner, i, bmap, lo, hi, nb, end);
    LoggedMeta(blocks, inodes, owner, i, bmap, inodeBlock, lo, hi, nb, end);
    if off + n > size { OneMore(WriteLog(blocks, inodes[i], bmap, lo, hi, nb), inodeBlock); }
  }

  lemma ReachIs(size: nat, off: nat, n: nat, lo: nat, hi: nat, end: nat)
    requires off <= size && lo == off / BSIZE && hi == Reach(off, n) && end == BlocksOf(Max(size, off + n))
    ensures lo <= hi <= end && hi - lo == Touched(off, n)
    ensures n > 0 ==> hi == BlocksOf(off + n) && lo < hi && (hi > BlocksOf(size) ==> hi == end)
  {
  }

  /** The blocks of the file and what mapping new ones logs. */
  lemma NewCount(blocks: seq<Block>, inodes: seq<Inode>, owner: seq<Use>, i: nat, bmap: nat, lo: nat, hi: nat, nb: nat,
                 end: nat)
    requires Inv(blocks, inodes, owner) && i < |inodes| && Dense(blocks, inodes[i], end) && lo <= hi <= end
    requires bmap < |owner| && owner[bmap] == Meta && (lo < hi && hi > nb ==> hi == end)
    ensures |WriteLog(blocks, inodes[i], bmap, lo, hi, nb)| ==
      hi - lo + if lo == hi || hi <= nb then 0 else if hi <= NDIRECT then 1 else 2
  {
    var slots, ind := Slots(blocks, inodes[i], lo, hi), AddrOf(inodes[i], NDIRECT);
    SlotsCount(blocks, inodes, owner, i, lo, hi, end);
    if lo < hi && hi > nb {
      NotSlot(blocks, inodes, owner, i, lo, hi, bmap);
      OneMore(slots, bmap);
      if hi > NDIRECT {
        assert AddrOk(blocks, inodes, owner, i, NDIRECT);
        NotSlot(blocks, inodes, owner, i, lo, hi, ind);
        OneMore(slots + {bmap}, ind);
        assert WriteLog(blocks, inodes[i], bmap, lo, hi, nb) == slots + {bmap} + {ind};
      } else {
        assert WriteLog(blocks, inodes[i], bmap, lo, hi, nb) == slots + {bmap};
      }
    } else {
      assert WriteLog(blocks, inodes[i], bmap, lo, hi, nb) == slots;
    }
  }

  lemma LoggedMeta(blocks: seq<Block>, inodes: seq<Inode>, owner: seq<Use>, i: nat, bmap: nat, inodeBlock: nat,
                   lo: nat, hi: nat, nb: nat, end: nat)
    requires Inv(blocks, inodes, owner) && i < |inodes| && MetaBlocks(owner, bmap, inodeBlock)
    requires Dense(blocks, inodes[i], end) && lo <= hi <= end && (lo < hi && hi > nb ==> hi == end)
    ensures inodeBlock !in WriteLog(blocks, inodes[i], bmap, lo, hi, nb)
  {
    if inodeBlock in Slots(blocks, inodes[i], lo, hi) {
      SlotsOwned(blocks, inodes, owner, i, lo, hi, end, inodeBlock);
    }
    assert AddrOk(blocks, inodes, owner, i, NDIRECT);
  }

  // ----- the quota of a transaction -----

  /** How many blocks a write may reach and keep to MAXOPBLOCKS. */
  function Allowance(size: nat, off: nat, n: nat): nat {
    if off + n <= size then MAXOPBLOCKS
    else if BlocksOf(off + n) <= BlocksOf(size) then MAXOPBLOCKS - 1
    else if BlocksOf(off + n) <= NDIRECT then MAXOPBLOCKS - 2
    else MAXOPBLOCKS - 3
  }

  /** A chunk keeps to MAXOPBLOCKS if and only if it reaches no more than 10, 9, 8 or 7 blocks. */
  lemma ChunkFitsIff(blocks: seq<Block>, inodes: seq<Inode>, owner: seq<Use>, i: nat, bmap: nat, inodeBlock: nat,
                     size: nat, off: nat, n: nat)
    requires Inv(blocks, inodes, owner) && i < |inodes| && MetaBlocks(owner, bmap, inodeBlock)
    requires off <= size && off + n <= MAXFILE * BSIZE && Dense(blocks, inodes[i], BlocksOf(Max(size, off + n)))
    ensures |Logged(blocks, inodes[i], bmap, inodeBlock, size, off, n)| <= MAXOPBLOCKS <==>
      Touched(off, n) <= Allowance(size, off, n)
  {
    ChunkCount(blocks, inodes, owner, i, bmap, inodeBlock, size, off, n);
    if n == 0 { assert Touched(off, n) == 0 && LogCount(size, off, n) == 0; }
  }

  /** No full chunk keeps to it, wherever it goes; 17 blocks is the most. */
  lemma FullChunkExceeds(size: nat, off: nat)
    requires off <= size
    ensures MAXOPBLOCKS < 13 <= LogCount(size, off, CHUNK) <= 17
    ensures off == size == NDIRECT * BSIZE - 1 ==> LogCount(size, off, CHUNK) == 17
  {
    assert Touched(off, CHUNK) == if off % BSIZE == 0 then 13 else 14;
  }

  lemma TouchedMost(off: nat, n: nat)
    ensures Touched(off, n) <= (n + BSIZE - 2) / BSIZE + 1
  {
  }

  /** The largest chunk that always keeps to it: 3073 bytes, where filewrite uses 6656. */
  lemma SafeChunkIff(n: nat)
    requires n <= CHUNK
    ensures n <= 3073 <==>
      forall size: nat, off: nat :: off <= size && off + n <= MAXFILE * BSIZE ==> LogCount(size, off, n) <= MAXOPBLOCKS
  {
    if n <= 3073 {
      forall size: nat, off: nat | off <= size && off + n <= MAXFILE * BSIZE
        ensures LogCount(size, off, n) <= MAXOPBLOCKS
      {
        TouchedMost(off, n);
      }
    } else {
      var off := NDIRECT * BSIZE - 1;
      assert LogCount(off, off, n) > MAXOPBLOCKS;
    }
  }
}
