/**
 The inode layer of fs.c over blocks, bitmap and inodes: allocation, block mapping, reading, writing and
 truncation. `inodes` are the copies in memory, `dinodes` the ones in the inode blocks. A method that
 returns no result has panicked for lack of space.
 */
module Fs {
  import opened FsBlocks
  import opened Options

  /** Block `n` has an address now; nothing else about the file changed. */
  ghost predicate Extended(blocks: seq<Block>, ino: Inode, blocks': seq<Block>, ino': Inode, n: nat) {
    && ino' == ino.(addrs := ino'.addrs) && Slot(blocks', ino', n) != 0
    && (AddrOf(ino', NDIRECT) != 0 <==> AddrOf(ino, NDIRECT) != 0 || n >= NDIRECT)
    && (AddrOf(ino, NDIRECT) != 0 ==> AddrOf(ino', NDIRECT) == AddrOf(ino, NDIRECT))
    && forall k: nat :: k < MAXFILE && k != n ==> SlotSame(blocks, ino, blocks', ino', k)
  }

  lemma DenseNext(blocks: seq<Block>, ino: Inode, blocks': seq<Block>, ino': Inode, n: nat, nb: nat)
    requires n < MAXFILE && n <= nb && Dense(blocks, ino, nb) && Extended(blocks, ino, blocks', ino', n)
    ensures Dense(blocks', ino', if n == nb then nb + 1 else nb)
  {
    forall k: nat | k < MAXFILE ensures Slot(blocks', ino', k) != 0 <==> k < nb || k == n {
      if k != n { assert SlotSame(blocks, ino, blocks', ino', k); }
    }
  }

  lemma ExtendedThen(blocks0: seq<Block>, ino0: Inode, blocks1: seq<Block>, ino1: Inode, blocks2: seq<Block>, n: nat)
    requires NDIRECT <= n < MAXFILE && ino1 == ino0.(addrs := ino1.addrs) && AddrOf(ino1, NDIRECT) != 0
      && Slot(blocks2, ino1, n) != 0
    requires AddrOf(ino0, NDIRECT) != 0 ==> AddrOf(ino1, NDIRECT) == AddrOf(ino0, NDIRECT)
    requires forall k: nat :: k < MAXFILE ==> SlotSame(blocks0, ino0, blocks1, ino1, k)
    requires forall k: nat :: k < MAXFILE && k != n ==> SlotSame(blocks1, ino1, blocks2, ino1, k)
    ensures Extended(blocks0, ino0, blocks2, ino1, n)
  {
    forall k: nat | k < MAXFILE && k != n ensures SlotSame(blocks0, ino0, blocks2, ino1, k) {
      assert SlotSame(blocks0, ino0, blocks1, ino1, k) && SlotSame(blocks1, ino1, blocks2, ino1, k);
    }
  }

  lemma EntryKept(blocks: seq<Block>, ino: Inode, blocks': seq<Block>, j: nat)
    requires FileSame(blocks, ino, blocks', ino) && j < NINDIRECT
    ensures EntryOf(blocks', ino, j) == EntryOf(blocks, ino, j)
  {
    assert SlotSame(blocks, ino, blocks', ino, NDIRECT + j);
  }

  // ----- bytes -----

  predicate IsBytes(s: seq<nat>) { forall k :: 0 <= k < |s| ==> s[k] < 256 }

  /** `data` laid over `s` at `o`, past its end if need be. */
  function Spliced(s: seq<nat>, o: nat, data: seq<nat>): (r: seq<nat>)
    requires o <= |s|
    ensures |r| == Max(|s|, o + |data|)
  {
    seq(Max(|s|, o + |data|), k requires 0 <= k < Max(|s|, o + |data|) =>
      if o <= k < o + |data| then data[k - o] else s[k])
  }

  /** What was laid over is there, and the rest is as before. */
  lemma SplicedBack(s: seq<nat>, o: nat, data: seq<nat>)
    requires o <= |s|
    ensures var r := Spliced(s, o, data);
      && o + |data| <= |r| && r[..o] == s[..o] && r[o..o + |data|] == data
      && r[o + |data|..] == if o + |data| <= |s| then s[o + |data|..] else []
  {
  }

  lemma PatchedBlock(row: Block, o: nat, data: seq<nat>)
    requires IsBlock(row) && IsBytes(data) && o + |data| <= BSIZE
    ensures IsBlock(Spliced(row, o, data))
  {
  }

  function Max(a: nat, b: nat): nat { if a < b then b else a }

  /** The addresses of all blocks but `n`, and of the indirect block if there was one, are as before. */
  ghost predicate SlotsKept(blocks0: seq<Block>, ino0: Inode, blocks: seq<Block>, ino: Inode, n: nat) {
    && (forall k: nat :: k < MAXFILE && k != n ==> Slot(blocks, ino, k) == Slot(blocks0, ino0, k))
    && (AddrOf(ino0, NDIRECT) != 0 ==> AddrOf(ino, NDIRECT) == AddrOf(ino0, NDIRECT))
  }

  function Slots(blocks: seq<Block>, ino: Inode, lo: nat, hi: nat): set<nat>
    decreases hi
  {
    if hi <= lo then {} else Slots(blocks, ino, lo, hi - 1) + {Slot(blocks, ino, hi - 1)}
  }

  /**
   What writing blocks `lo..hi` of a file that had `nb` blocks logs: the blocks, and for new ones bitmap and
   indirect block.
   */
  function WriteLog(blocks: seq<Block>, ino: Inode, bmap: nat, lo: nat, hi: nat, nb: nat): set<nat> {
    Slots(blocks, ino, lo, hi) + if lo < hi then NewLogged(ino, bmap, hi - 1, nb) else {}
  }

  lemma {:induction false} SlotsSame(blocks0: seq<Block>, ino0: Inode, blocks: seq<Block>, ino: Inode, lo: nat, hi: nat)
    requires hi <= MAXFILE && forall k: nat :: lo <= k < hi ==> Slot(blocks, ino, k) == Slot(blocks0, ino0, k)
    ensures Slots(blocks, ino, lo, hi) == Slots(blocks0, ino0, lo, hi)
    decreases hi
  {
    if lo < hi { SlotsSame(blocks0, ino0, blocks, ino, lo, hi - 1); }
  }

  lemma WriteLogNext(blocks0: seq<Block>, ino0: Inode, blocks: seq<Block>, ino: Inode, bmap: nat, lo: nat, hi: nat,
                     nb: nat)
    requires lo <= hi < MAXFILE && lo <= nb && Dense(blocks0, ino0, if hi < nb then nb else hi)
      && SlotsKept(blocks0, ino0, blocks, ino, hi)
    ensures WriteLog(blocks, ino, bmap, lo, hi + 1, nb) ==
      WriteLog(blocks0, ino0, bmap, lo, hi, nb) + {Slot(blocks, ino, hi)} + NewLogged(ino, bmap, hi, nb)
  {
    SlotsSame(blocks0, ino0, blocks, ino, lo, hi);
  }

  /** What mapping block `n` of a file with `nb` blocks logs besides the block itself. */
  function NewLogged(ino: Inode, bmap: nat, n: nat, nb: nat): set<nat> {
    if n < nb then {} else {bmap} + if n < NDIRECT then {} else {AddrOf(ino, NDIRECT)}
  }

  lemma SplicedTwice(s: seq<nat>, off: nat, src: seq<nat>, tot: nat, m: nat)
    requires off <= |s| && tot + m <= |src|
    ensures Spliced(Spliced(s, off, src[..tot]), off + tot, src[tot..tot + m]) == Spliced(s, off, src[..tot + m])
  {
  }

  /** The loop of writei after `tot` bytes of `src`: no address is new unless the file is to grow. */
  ghost predicate Midway(blocks0: seq<Block>, inodes0: seq<Inode>, bits0: seq<bool>, blocks: seq<Block>,
                         inodes: seq<Inode>, bits: seq<bool>,
                         i: nat, off: nat, src: seq<nat>, tot: nat) {
    && i < |inodes0| && tot <= |src| && off <= inodes0[i].size && OthersSame(blocks0, inodes0, blocks, inodes, i)
    && (off + tot <= inodes0[i].size ==> inodes == inodes0 && bits == bits0)
    && inodes[i] == inodes0[i].(addrs := inodes[i].addrs)
    && Dense(blocks, inodes[i], BlocksOf(Max(inodes0[i].size, off + tot)))
    && Bytes(blocks, inodes[i], Max(inodes0[i].size, off + tot)) ==
       Spliced(Content(blocks0, inodes0[i]), off, src[..tot])
  }

  lemma MidwayStart(blocks: seq<Block>, inodes: seq<Inode>, bits: seq<bool>, i: nat, off: nat, src: seq<nat>)
    requires i < |inodes| && off <= inodes[i].size && Dense(blocks, inodes[i], BlocksOf(inodes[i].size))
    ensures Midway(blocks, inodes, bits, blocks, inodes, bits, i, off, src, 0)
  {
    forall k: nat | k < |inodes| ensures FileSame(blocks, inodes[k], blocks, inodes[k]) {}
    assert Spliced(Content(blocks, inodes[i]), off, src[..0]) == Content(blocks, inodes[i]);
  }

  lemma MidwayNext(blocks0: seq<Block>, inodes0: seq<Inode>, bits0: seq<bool>, blocks1: seq<Block>, inodes1: seq<Inode>,
                   bits1: seq<bool>,
                   blocks: seq<Block>, inodes: seq<Inode>, bits: seq<bool>,
                   i: nat, off: nat, src: seq<nat>, tot: nat, tot': nat, chunk: seq<nat>, v: nat, v': nat,
                   file: seq<nat>)
    requires tot < tot' <= |src| && Midway(blocks0, inodes0, bits0, blocks1, inodes1, bits1, i, off, src, tot)
    requires chunk == src[tot..tot'] && v == Max(inodes0[i].size, off + tot) && v' == Max(inodes0[i].size, off + tot')
    requires OthersSame(blocks0, inodes0, blocks, inodes, i) && inodes[i] == inodes1[i].(addrs := inodes[i].addrs)
    requires off + tot < v ==> inodes == inodes1 && bits == bits1
    requires Dense(blocks, inodes[i], BlocksOf(v'))
    requires file == Bytes(blocks1, inodes1[i], v) && Bytes(blocks, inodes[i], v') == Spliced(file, off + tot, chunk)
    ensures Midway(blocks0, inodes0, bits0, blocks, inodes, bits, i, off, src, tot')
  {
    SplicedTwice(Content(blocks0, inodes0[i]), off, src, tot, tot' - tot);
  }

  /** One round of writei's loop, byte by byte: block `off / BSIZE` mapped and patched. */
  lemma RoundBytes(blocks0: seq<Block>, ino0: Inode, blocks1: seq<Block>, ino1: Inode, blocks2: seq<Block>,
                   off: nat, data: seq<nat>, v: nat, k: nat)
    requires off <= v && 0 < |data| <= BSIZE - off % BSIZE && off + |data| <= MAXFILE * BSIZE
    requires Dense(blocks0, ino0, BlocksOf(v)) && Extended(blocks0, ino0, blocks1, ino1, off / BSIZE)
    requires Slot(blocks0, ino0, off / BSIZE) != 0 ==> blocks1 == blocks0 && ino1 == ino0
    requires var b := Slot(blocks1, ino1, off / BSIZE);
      b < |blocks1| && IsBlock(blocks1[b]) && blocks2 == blocks1[b := Spliced(blocks1[b], off % BSIZE, data)]
    requires forall n: nat :: Slot(blocks2, ino1, n) == Slot(blocks1, ino1, n)
    requires forall n: nat :: n < MAXFILE && n != off / BSIZE ==> SlotSame(blocks1, ino1, blocks2, ino1, n)
    requires k < Max(v, off + |data|)
    ensures ByteAt(blocks2, ino1, k) == if off <= k < off + |data| then data[k - off] else ByteAt(blocks0, ino0, k)
  {
    var n := k / BSIZE;
    if n != off / BSIZE {
      assert n < BlocksOf(v);
      assert SlotSame(blocks0, ino0, blocks1, ino1, n) && SlotSame(blocks1, ino1, blocks2, ino1, n);
    } else if !(off <= k < off + |data|) {
      assert n < BlocksOf(v);
    }
  }

  // ----- how many free blocks a file needs to grow -----

  /** The blocks a file of `size` bytes has, the indirect block included. */
  function Total(size: nat): nat { BlocksOf(size) + if BlocksOf(size) > NDIRECT then 1 else 0 }

  /** The blocks writing `n` bytes at `off` adds to a file of `size` bytes. */
  function Cost(size: nat, off: nat, n: nat): (c: nat)
    ensures off + n <= size ==> c == 0
  {
    TotalGrows(size, Max(size, off + n));
    if n == 0 then 0 else Total(Max(size, off + n)) - Total(size)
  }

  lemma CostNext(size: nat, off: nat, n: nat, n': nat)
    requires off <= size && n <= n'
    ensures Cost(size, off, n') == Cost(size, off, n) + Total(Max(size, off + n')) - Total(Max(size, off + n))
  {
  }

  /** The blocks for one round of the loop, and that they are part of what the whole write needs. */
  lemma NeedNext(blocks: seq<Block>, ino: Inode, size: nat, off: nat, tot: nat, tot': nat, len: nat)
    requires tot < len && off <= size && off + len <= MAXFILE * BSIZE && tot' == tot + RoundLen(off, tot, len)
    requires Dense(blocks, ino, BlocksOf(Max(size, off + tot)))
    ensures Cost(size, off, tot') == Cost(size, off, tot) + Need(blocks, ino, (off + tot) / BSIZE)
    ensures Cost(size, off, tot') <= Cost(size, off, len)
  {
    NeedIs(blocks, ino, off + tot, tot' - tot, Max(size, off + tot), Max(size, off + tot'));
    CostNext(size, off, tot, tot');
    CostGrows(size, off, tot', len);
  }

  lemma CostSplit(size: nat, off: nat, done: nat, n: nat, size': nat)
    requires off <= size && size' == if done == 0 then size else Max(size, off + done)
    ensures Cost(size, off, done) + Cost(size', off + done, n) == Cost(size, off, done + n)
  {
  }

  lemma CostGrows(size: nat, off: nat, n: nat, n': nat)
    requires n <= n' && off <= size
    ensures Cost(size, off, n) <= Cost(size, off, n')
  {
    TotalGrows(Max(size, off + n), Max(size, off + n'));
  }

  lemma TotalGrows(a: nat, b: nat)
    requires a <= b
    ensures Total(a) <= Total(b) && BlocksOf(a) <= BlocksOf(b)
  {
  }

  /** The blocks bmap takes to give block `n` of a file an address. */
  function Need(blocks: seq<Block>, ino: Inode, n: nat): nat {
    if Slot(blocks, ino, n) != 0 then 0 else if n < NDIRECT || AddrOf(ino, NDIRECT) != 0 then 1 else 2
  }

  lemma NeedIs(blocks: seq<Block>, ino: Inode, off: nat, n: nat, v: nat, v': nat)
    requires off <= v && 0 < n <= BSIZE - off % BSIZE && off + n <= MAXFILE * BSIZE
    requires Dense(blocks, ino, BlocksOf(v)) && v' == Max(v, off + n)
    ensures Need(blocks, ino, off / BSIZE) == Total(v') - Total(v)
  {
    var k := off / BSIZE;
    assert Slot(blocks, ino, k) != 0 <==> k < BlocksOf(v);
    assert BlocksOf(off + n) == k + 1;
  }

  /** Bits in a bitmap block and inodes in an inode block. */
  const BPB := 4096
  const IPB := 8

  lemma RoundAll(blocks0: seq<Block>, ino0: Inode, blocks1: seq<Block>, ino1: Inode, blocks2: seq<Block>, off: nat,
                 data: seq<nat>, v: nat, v': nat)
    requires off <= v && 0 < |data| <= BSIZE - off % BSIZE && off + |data| <= MAXFILE * BSIZE
      && v' == Max(v, off + |data|)
    requires Dense(blocks0, ino0, BlocksOf(v)) && Extended(blocks0, ino0, blocks1, ino1, off / BSIZE)
    requires Slot(blocks0, ino0, off / BSIZE) != 0 ==> blocks1 == blocks0 && ino1 == ino0
    requires var b := Slot(blocks1, ino1, off / BSIZE);
      b < |blocks1| && IsBlock(blocks1[b]) && blocks2 == blocks1[b := Spliced(blocks1[b], off % BSIZE, data)]
    requires forall n: nat :: Slot(blocks2, ino1, n) == Slot(blocks1, ino1, n)
    requires forall n: nat :: n < MAXFILE && n != off / BSIZE ==> SlotSame(blocks1, ino1, blocks2, ino1, n)
    ensures Bytes(blocks2, ino1, v') == Spliced(Bytes(blocks0, ino0, v), off, data)
  {
    var x, y := Bytes(blocks2, ino1, v'), Spliced(Bytes(blocks0, ino0, v), off, data);
    forall k: nat | k < v' ensures x[k] == y[k] {
      RoundBytes(blocks0, ino0, blocks1, ino1, blocks2, off, data, v, k);
      assert x[k] == ByteAt(blocks2, ino1, k)
        && y[k] == if off <= k < off + |data| then data[k - off] else ByteAt(blocks0, ino0, k);
    }
  }

  lemma RoundSlots(blocks0: seq<Block>, ino0: Inode, blocks1: seq<Block>, ino1: Inode, blocks2: seq<Block>, n: nat)
    requires Extended(blocks0, ino0, blocks1, ino1, n)
      && forall k: nat :: Slot(blocks2, ino1, k) == Slot(blocks1, ino1, k)
    ensures SlotsKept(blocks0, ino0, blocks2, ino1, n)
  {
    forall k: nat | k < MAXFILE && k != n ensures Slot(blocks2, ino1, k) == Slot(blocks0, ino0, k) {
      assert SlotSame(blocks0, ino0, blocks1, ino1, k);
    }
  }

  /** The first block not reached by `tot` bytes from `off` on. */
  function Reach(off: nat, tot: nat): nat { if tot == 0 then off / BSIZE else (off + tot - 1) / BSIZE + 1 }

  ghost predicate LogsTo(logged0: set<nat>, logged: set<nat>, blocks: seq<Block>, ino: Inode, bmap: nat, off: nat,
                         tot: nat, size: nat) {
    logged == logged0 + WriteLog(blocks, ino, bmap, off / BSIZE, Reach(off, tot), BlocksOf(size))
  }

  lemma LogsNext(logged0: set<nat>, logged1: set<nat>, logged: set<nat>, blocks1: seq<Block>, ino1: Inode,
                 blocks: seq<Block>, ino: Inode,
                 nbits: nat, bmap: nat, off: nat, tot: nat, tot': nat, size: nat)
    requires off <= size && off + tot' <= MAXFILE * BSIZE && tot < tot' <= tot + BSIZE - (off + tot) % BSIZE
      && (tot > 0 ==> (off + tot) % BSIZE == 0)
    requires Dense(blocks1, ino1, BlocksOf(Max(size, off + tot)))
      && SlotsKept(blocks1, ino1, blocks, ino, (off + tot) / BSIZE)
    requires nbits <= BPB ==> LogsTo(logged0, logged1, blocks1, ino1, bmap, off, tot, size)
    requires var n := (off + tot) / BSIZE;
      nbits <= BPB ==>
        logged == logged1 + {Slot(blocks, ino, n)} + NewLogged(ino, bmap, n, BlocksOf(Max(size, off + tot)))
    ensures nbits <= BPB ==> LogsTo(logged0, logged, blocks, ino, bmap, off, tot', size)
  {
    var n, nb := (off + tot) / BSIZE, BlocksOf(size);
    assert Reach(off, tot) == n && Reach(off, tot') == n + 1;
    assert BlocksOf(Max(size, off + tot)) == if n < nb then nb else n;
    WriteLogNext(blocks1, ino1, blocks, ino, bmap, off / BSIZE, n, nb);
  }

  ghost predicate AllDense(blocks: seq<Block>, inodes: seq<Inode>) {
    forall i: nat :: i < |inodes| ==> Dense(blocks, inodes[i], BlocksOf(inodes[i].size))
  }

  /** A round of the loop moves the bytes from `tot` to `tot'`: to the end of the block, or all that are left. */
  predicate RoundTo(off: nat, tot: nat, tot': nat, len: nat) {
    && tot < tot' <= len && tot' - tot <= BSIZE - (off + tot) % BSIZE
    && (tot' < len ==> (off + tot') % BSIZE == 0)
  }

  /** How much of `len` bytes at `off` the round after `tot` of them moves: up to the end of the block. */
  function RoundLen(off: nat, tot: nat, len: nat): (m: nat)
    requires tot < len
    ensures 0 < m <= BSIZE - (off + tot) % BSIZE && tot + m <= len
    ensures tot + m < len ==> (off + tot + m) % BSIZE == 0
  {
    var room := BSIZE - (off + tot) % BSIZE;
    if len - tot < room then len - tot else room
  }

  /** A free inode holds nothing. */
  ghost predicate FreeEmpty(inodes: seq<Inode>) {
    forall i: nat :: i < |inodes| && inodes[i].kind == 0 ==> inodes[i].size == 0
  }

  class FileSys {
    var bits: seq<bool>
    var blocks: seq<Block>
    var inodes: seq<Inode>
    var dinodes: seq<Inode>
    ghost var owner: seq<Use>

    /** First blocks of the inodes and of the bitmap, and the blocks given to log_write so far. */
    const inodestart: nat
    const bmapstart: nat
    ghost var logged: set<nat>

    ghost predicate Valid()
      reads this
    {
      Inv(blocks, inodes, owner) && BitsOk(bits, owner) && |dinodes| == |inodes|
    }

    /** Every file has exactly the blocks of its size, and every other block is metadata or free. */
    ghost predicate Sound()
      reads this
    {
      Valid() && NoneHeld(owner) && AllDense(blocks, inodes)
    }

    /** Between operations: nothing unwritten in memory, and a free inode holds nothing. */
    ghost predicate Settled()
      reads this
    {
      Sound() && dinodes == inodes && FreeEmpty(inodes)
    }

    ghost function File(i: nat): seq<nat>
      reads this
      requires i < |inodes|
    {
      Content(blocks, inodes[i])
    }

    /** Mounting an image whose files have the blocks of their sizes. */
    constructor (bits: seq<bool>, blocks: seq<Block>, dinodes: seq<Inode>, ghost owner: seq<Use>, inodestart: nat,
                 bmapstart: nat)
      requires Inv(blocks, dinodes, owner) && BitsOk(bits, owner) && NoneHeld(owner) && AllDense(blocks, dinodes)
      requires FreeEmpty(dinodes)
      ensures Settled() && this.blocks == blocks && this.inodes == dinodes && this.owner == owner && logged == {}
      ensures this.inodestart == inodestart && this.bmapstart == bmapstart
    {
      this.bits, this.blocks, this.inodes, this.dinodes := bits, blocks, dinodes, dinodes;
      this.owner, this.logged := owner, {};
      this.inodestart, this.bmapstart := inodestart, bmapstart;
    }

    /** balloc: the first free block, marked and zeroed. */
    method BAlloc() returns (r: Option<nat>)
      requires Valid()
      modifies `bits, `blocks, `owner, `logged
      ensures Valid()
      ensures r == None <==> NFree(old(owner)) == 0
      ensures r == None ==> bits == old(bits) && blocks == old(blocks) && owner == old(owner)
      ensures r != None ==>
        && 0 < r.value < |old(owner)| && old(owner)[r.value] == Free
        && (forall c: nat :: c < r.value ==> old(owner)[c] != Free)
        && bits == old(bits)[r.value := true] && owner == old(owner)[r.value := Held]
        && blocks == old(blocks)[r.value := ZeroBlock()]
      ensures OthersSame(old(blocks), inodes, blocks, inodes, -1)
      ensures logged == old(logged) + if r == None then {} else {bmapstart + r.value / BPB, r.value}
    {
      NoneFree(owner);
      forall i: nat | i < |inodes| ensures FileSame(blocks, inodes[i], blocks, inodes[i]) {}
      var b := 0;
      while b < |bits|
        invariant forall c: nat :: c < b && c < |bits| ==> bits[c]
        invariant bits == old(bits) && logged == old(logged)
      {
        var bi := 0;
        while bi < BPB && b + bi < |bits|
          invariant bi <= BPB && forall c: nat :: c < b + bi && c < |bits| ==> bits[c]
        {
          if !bits[b + bi] {
            MarkUsed(b + bi);
            return Some(b + bi);
          }
          bi := bi + 1;
        }
        b := b + BPB;
      }
      r := None;
    }

    /** The bit of a free block set and the block zeroed. */
    method MarkUsed(b: nat)
      requires Valid() && b < |owner| && owner[b] == Free
      modifies `bits, `blocks, `owner, `logged
      ensures Valid() && OthersSame(old(blocks), inodes, blocks, inodes, -1)
      ensures bits == old(bits)[b := true] && owner == old(owner)[b := Held] && blocks == old(blocks)[b := ZeroBlock()]
      ensures logged == old(logged) + {bmapstart + b / BPB, b}
    {
      RewriteIdle(blocks, inodes, owner, b, ZeroBlock(), Held);
      bits := bits[b := true];
      blocks := blocks[b := ZeroBlock()];
      owner := owner[b := Held];
      logged := logged + {bmapstart + b / BPB, b};
    }

    /** bfree of a block no slot names any more. Its panic would need a clear bit. */
    method BFree(b: nat)
      requires Valid() && b < |owner| && owner[b] == Held
      modifies `bits, `owner, `logged
      ensures Valid() && old(bits)[b] && bits == old(bits)[b := false] && owner == old(owner)[b := Free]
      ensures logged == old(logged) + {bmapstart + b / BPB}
    {
      RewriteIdle(blocks, inodes, owner, b, blocks[b], Free);
      assert blocks[b := blocks[b]] == blocks;
      bits := bits[b := false];
      owner := owner[b := Free];
      logged := logged + {bmapstart + b / BPB};
    }

    /** A new block for address `a` of inode `i`. */
    method NewAddr(i: nat, a: nat) returns (r: Option<nat>)
      requires Valid() && i < |inodes| && a <= NDIRECT && AddrOf(inodes[i], a) == 0
      modifies `bits, `blocks, `inodes, `owner, `logged
      ensures Valid() && OthersSame(old(blocks), old(inodes), blocks, inodes, i)
      ensures r == None <==> NFree(old(owner)) == 0
      ensures r == None ==> bits == old(bits) && blocks == old(blocks) && inodes == old(inodes) && owner == old(owner)
      ensures r != None ==> Took(old(owner), owner, i, 1)
      ensures r != None ==>
        inodes[i] == old(inodes)[i].(addrs := inodes[i].addrs) && AddrOf(inodes[i], a) == r.value != 0
      ensures r != None ==> forall c: nat :: c != a ==> AddrOf(inodes[i], c) == AddrOf(old(inodes)[i], c)
      ensures r != None ==> forall k: nat :: k < MAXFILE && !(k == a < NDIRECT) ==>
        SlotSame(old(blocks), old(inodes)[i], blocks, inodes[i], k)
      ensures |bits| == |old(bits)|
        && (r != None ==> r.value < |bits| && logged == old(logged) + {bmapstart + r.value / BPB, r.value})
    {
      ghost var blocks0, inodes0, owner0 := blocks, inodes, owner;
      r := BAlloc();
      if r == None { return; }
      ghost var blocks1, inodes1 := blocks, inodes;
      LinkAddr(blocks, inodes, owner, i, a, r.value);
      inodes := WithAddr(inodes, i, a, r.value);
      owner := owner[r.value := Addr(i, a)];
      TookOne(owner0, i, r.value, Addr(i, a));
      assert owner == owner0[r.value := Addr(i, a)];
      OthersThen(blocks0, inodes0, blocks1, inodes1, blocks, inodes, i);
      forall k: nat | k < MAXFILE && !(k == a < NDIRECT) ensures SlotSame(blocks0, inodes0[i], blocks, inodes[i], k) {
        assert SlotSame(blocks0, inodes0[i], blocks1, inodes1[i], k);
      }
    }

    /** A new block for entry `j` of the indirect block of inode `i`. */
    method NewEntry(i: nat, j: nat) returns (r: Option<nat>)
      requires Valid() && i < |inodes| && j < NINDIRECT && AddrOf(inodes[i], NDIRECT) != 0
        && EntryOf(blocks, inodes[i], j) == 0
      modifies `bits, `blocks, `owner, `logged
      ensures Valid() && OthersSame(old(blocks), inodes, blocks, inodes, i)
      ensures r == None <==> NFree(old(owner)) == 0
      ensures if r == None then owner == old(owner) else Took(old(owner), owner, i, 1)
      ensures r != None ==> EntryOf(blocks, inodes[i], j) == r.value != 0
      ensures r != None ==> forall k: nat :: k < MAXFILE && k != NDIRECT + j ==>
        SlotSame(old(blocks), inodes[i], blocks, inodes[i], k)
      ensures |bits| == |old(bits)| && (r != None ==> r.value < |bits|)
      ensures r != None ==> logged == old(logged) + {bmapstart + r.value / BPB, r.value, AddrOf(inodes[i], NDIRECT)}
    {
      ghost var blocks0, owner0 := blocks, owner;
      r := BAlloc();
      if r == None { return; }
      ghost var blocks1, owner1 := blocks, owner;
      assert FileSame(blocks0, inodes[i], blocks1, inodes[i]);
      EntryKept(blocks0, inodes[i], blocks1, j);
      LinkEntry(blocks, inodes, owner, i, j, r.value);
      blocks := WithEntry(blocks, inodes[i].addrs[NDIRECT], j, r.value);
      owner := owner[r.value := Entry(i, j)];
      TookOne(owner0, i, r.value, Entry(i, j));
      assert owner == owner0[r.value := Entry(i, j)];
      logged := logged + {inodes[i].addrs[NDIRECT]};
      OthersThen(blocks0, inodes, blocks1, inodes, blocks, inodes, i);
      forall k: nat | k < MAXFILE && k != NDIRECT + j ensures SlotSame(blocks0, inodes[i], blocks, inodes[i], k) {
        assert SlotSame(blocks0, inodes[i], blocks1, inodes[i], k);
        if Slot(blocks1, inodes[i], k) != 0 { SlotOwned(blocks1, inodes, owner1, i, k); }
        assert AddrOk(blocks1, inodes, owner1, i, NDIRECT);
      }
    }

    /** bmap */
    method BMap(i: nat, n: nat) returns (r: Option<nat>)
      requires Valid() && i < |inodes| && n < MAXFILE
      modifies `bits, `blocks, `inodes, `owner, `logged
      ensures Valid() && OthersSame(old(blocks), old(inodes), blocks, inodes, i)
      ensures old(Slot(blocks, inodes[i], n)) != 0 ==>
        && r == Some(old(Slot(blocks, inodes[i], n)))
        && bits == old(bits) && blocks == old(blocks) && inodes == old(inodes) && owner == old(owner)
      ensures r == None <==> NFree(old(owner)) < old(Need(blocks, inodes[i], n))
      ensures Took(old(owner), owner, i, if r == None then NFree(old(owner)) else old(Need(blocks, inodes[i], n)))
      ensures r != None ==>
        r.value == Slot(blocks, inodes[i], n) && Extended(old(blocks), old(inodes)[i], blocks, inodes[i], n)
      ensures old(Slot(blocks, inodes[i], n)) != 0 ==> logged == old(logged)
      ensures |bits| == |old(bits)| && (old(Slot(blocks, inodes[i], n)) == 0 && r != None && |bits| <= BPB ==>
        logged == old(logged) + {bmapstart, r.value} + if n < NDIRECT then {} else {AddrOf(inodes[i], NDIRECT)})
    {
      if n < NDIRECT {
        r := MapDirect(i, n);
      } else {
        r := MapIndirect(i, n - NDIRECT);
      }
    }

    /** bmap among the direct addresses */
    method MapDirect(i: nat, n: nat) returns (r: Option<nat>)
      requires Valid() && i < |inodes| && n < NDIRECT
      modifies `bits, `blocks, `inodes, `owner, `logged
      ensures Valid() && OthersSame(old(blocks), old(inodes), blocks, inodes, i)
      ensures old(AddrOf(inodes[i], n)) != 0 ==>
        && r == Some(old(AddrOf(inodes[i], n)))
        && bits == old(bits) && blocks == old(blocks) && inodes == old(inodes) && owner == old(owner)
      ensures r == None <==> NFree(old(owner)) < old(Need(blocks, inodes[i], n))
      ensures Took(old(owner), owner, i, if r == None then NFree(old(owner)) else old(Need(blocks, inodes[i], n)))
      ensures r != None ==>
        r.value == AddrOf(inodes[i], n) && Extended(old(blocks), old(inodes)[i], blocks, inodes[i], n)
      ensures old(AddrOf(inodes[i], n)) != 0 ==> logged == old(logged)
      ensures |bits| == |old(bits)| && (old(AddrOf(inodes[i], n)) == 0 && r != None && |bits| <= BPB ==>
        logged == old(logged) + {bmapstart, r.value})
    {
      forall k: nat | k < |inodes| ensures FileSame(blocks, inodes[k], blocks, inodes[k]) {}
      if inodes[i].addrs[n] == 0 {
        var b := NewAddr(i, n);
        if b == None { return None; }
      }
      return Some(inodes[i].addrs[n]);
    }

    /** bmap past the direct addresses */
    method MapIndirect(i: nat, j: nat) returns (r: Option<nat>)
      requires Valid() && i < |inodes| && j < NINDIRECT
      modifies `bits, `blocks, `inodes, `owner, `logged
      ensures Valid() && OthersSame(old(blocks), old(inodes), blocks, inodes, i)
      ensures old(EntryOf(blocks, inodes[i], j)) != 0 ==>
        && r == Some(old(EntryOf(blocks, inodes[i], j)))
        && bits == old(bits) && blocks == old(blocks) && inodes == old(inodes) && owner == old(owner)
      ensures r == None <==> NFree(old(owner)) < old(Need(blocks, inodes[i], NDIRECT + j))
      ensures Took(old(owner), owner, i, if r == None then NFree(old(owner))
        else old(Need(blocks, inodes[i], NDIRECT + j)))
      ensures r != None ==>
        r.value == EntryOf(blocks, inodes[i], j)
          && Extended(old(blocks), old(inodes)[i], blocks, inodes[i], NDIRECT + j)
      ensures old(EntryOf(blocks, inodes[i], j)) != 0 ==> logged == old(logged)
      ensures |bits| == |old(bits)| && (old(EntryOf(blocks, inodes[i], j)) == 0 && r != None && |bits| <= BPB ==>
        logged == old(logged) + {bmapstart, r.value, AddrOf(inodes[i], NDIRECT)})
    {
      ghost var blocks0, inodes0, owner0 := blocks, inodes, owner;
      var ok := EnsureIndirect(i);
      if !ok { return None; }
      ghost var blocks1, inodes1, owner1 := blocks, inodes, owner;
      ghost var n1 := if AddrOf(inodes0[i], NDIRECT) == 0 then 1 else 0;
      assert AddrOk(blocks, inodes, owner, i, NDIRECT);
      assert SlotSame(blocks0, inodes0[i], blocks1, inodes1[i], NDIRECT + j);
      var e := Word(blocks[inodes[i].addrs[NDIRECT]], j);
      if e != 0 { return Some(e); }
      r := NewEntry(i, j);
      if r != None { TookThen(owner0, owner1, owner, i, n1, 1); }
      OthersThen(blocks0, inodes0, blocks1, inodes1, blocks, inodes, i);
      if r != None { ExtendedThen(blocks0, inodes0[i], blocks1, inodes1[i], blocks, NDIRECT + j); }
    }

    /** bmap's indirect block, allocated if need be. */
    method EnsureIndirect(i: nat) returns (ok: bool)
      requires Valid() && i < |inodes|
      modifies `bits, `blocks, `inodes, `owner, `logged
      ensures Valid() && OthersSame(old(blocks), old(inodes), blocks, inodes, i)
      ensures ok <==> old(AddrOf(inodes[i], NDIRECT)) != 0 || NFree(old(owner)) > 0
      ensures Took(old(owner), owner, i, if ok && old(AddrOf(inodes[i], NDIRECT)) == 0 then 1 else 0)
      ensures old(AddrOf(inodes[i], NDIRECT)) != 0 ==>
        bits == old(bits) && blocks == old(blocks) && inodes == old(inodes) && owner == old(owner)
          && logged == old(logged)
      ensures ok ==> AddrOf(inodes[i], NDIRECT) != 0 && inodes[i] == old(inodes)[i].(addrs := inodes[i].addrs)
      ensures forall k: nat :: k < MAXFILE ==> SlotSame(old(blocks), old(inodes)[i], blocks, inodes[i], k)
      ensures |bits| == |old(bits)| && (ok && old(AddrOf(inodes[i], NDIRECT)) == 0 && |bits| <= BPB ==>
        logged == old(logged) + {bmapstart, AddrOf(inodes[i], NDIRECT)})
    {
      forall k: nat | k < |inodes| ensures FileSame(blocks, inodes[k], blocks, inodes[k]) {}
      ok := true;
      if inodes[i].addrs[NDIRECT] == 0 {
        var b := NewAddr(i, NDIRECT);
        ok := b != None;
      }
    }

    /** One round of writei's loop. `v` is how far the file reaches before it, `v'` after it. */
    method WriteRound(i: nat, off: nat, data: seq<nat>, ghost v: nat, ghost v': nat, ghost file: seq<nat>,
                      ghost need: nat)
      returns (ok: bool)
      requires Valid() && i < |inodes| && off <= v && 0 < |data| <= BSIZE - off % BSIZE
        && off + |data| <= MAXFILE * BSIZE && IsBytes(data)
      requires Dense(blocks, inodes[i], BlocksOf(v)) && v' == Max(v, off + |data|)
        && file == Bytes(blocks, inodes[i], v)
      requires need == Need(blocks, inodes[i], off / BSIZE)
      modifies `bits, `blocks, `inodes, `owner, `logged
      ensures Valid() && OthersSame(old(blocks), old(inodes), blocks, inodes, i)
      ensures off < v ==> ok && inodes == old(inodes) && bits == old(bits)
      ensures ok <==> NFree(old(owner)) >= need
      ensures Took(old(owner), owner, i, if ok then need else NFree(old(owner)))
      ensures ok ==> inodes[i] == old(inodes)[i].(addrs := inodes[i].addrs)
      ensures ok ==> Dense(blocks, inodes[i], BlocksOf(v'))
      ensures ok ==> SlotsKept(old(blocks), old(inodes)[i], blocks, inodes[i], off / BSIZE)
      ensures |bits| == |old(bits)| && (ok && |bits| <= BPB ==>
        logged == old(logged) + {Slot(blocks, inodes[i], off / BSIZE)}
               + NewLogged(inodes[i], bmapstart, off / BSIZE, BlocksOf(v)))
      ensures ok ==> Bytes(blocks, inodes[i], v') == Spliced(file, off, data)
    {
      ghost var blocks0, inodes0 := blocks, inodes;
      var n := off / BSIZE;
      var b := BMap(i, n);
      if b == None { return false; }
      ghost var blocks1, inodes1 := blocks, inodes;
      DenseNext(blocks0, inodes0[i], blocks, inodes[i], n, BlocksOf(v));
      SlotOwned(blocks, inodes, owner, i, n);
      var row := Spliced(blocks[b.value], off % BSIZE, data);
      PatchedBlock(blocks[b.value], off % BSIZE, data);
      WriteSlot(blocks, inodes, owner, i, n, row);
      blocks := blocks[b.value := row];
      logged := logged + {b.value};
      RoundSlots(blocks0, inodes0[i], blocks1, inodes1[i], blocks, n);
      assert Slot(blocks, inodes[i], n) == b.value && (Slot(blocks0, inodes0[i], n) != 0 <==> n < BlocksOf(v));
      OthersThen(blocks0, inodes0, blocks1, inodes1, blocks, inodes, i);
      RoundAll(blocks0, inodes0[i], blocks1, inodes1[i], blocks, off, data, v, v');
      ok := true;
    }

    /** iupdate */
    method IUpdate(i: nat)
      requires i < |inodes| == |dinodes|
      modifies `dinodes, `logged
      ensures dinodes == old(dinodes)[i := inodes[i]] && logged == old(logged) + {inodestart + i / IPB}
    {
      dinodes := dinodes[i := inodes[i]];
      logged := logged + {inodestart + i / IPB};
    }

    /** writei's loop */
    method WriteLoop(i: nat, src: seq<nat>, off: nat) returns (ok: bool)
      requires Valid() && i < |inodes| && Dense(blocks, inodes[i], BlocksOf(inodes[i].size))
      requires off <= inodes[i].size && off + |src| <= MAXFILE * BSIZE && IsBytes(src)
      modifies `bits, `blocks, `inodes, `owner, `logged
      ensures Valid() && OthersSame(old(blocks), old(inodes), blocks, inodes, i)
      ensures ok <==> NFree(old(owner)) >= Cost(old(inodes)[i].size, off, |src|)
      ensures Took(old(owner), owner, i, if ok then Cost(old(inodes)[i].size, off, |src|) else NFree(old(owner)))
      ensures ok ==> Midway(old(blocks), old(inodes), old(bits), blocks, inodes, bits, i, off, src, |src|)
      ensures ok && |bits| <= BPB ==>
        LogsTo(old(logged), logged, blocks, inodes[i], bmapstart, off, |src|, old(inodes)[i].size)
    {
      ghost var blocks0, inodes0, bits0, owner0, size := blocks, inodes, bits, owner, inodes[i].size;
      MidwayStart(blocks, inodes, bits, i, off, src);
      var tot := 0;
      while tot < |src|
        invariant tot <= |src|
        invariant Writing(i, src, off, tot, blocks0, inodes0, bits0, old(logged))
        invariant Took(owner0, owner, i, Cost(size, off, tot))
      {
        ok, tot := WriteStep(i, src, off, tot, blocks0, inodes0, bits0, owner0, old(logged));
        if !ok { return; }
      }
      ok := true;
    }

    /** One round of the loop with the blocks it takes. */
    method WriteStep(i: nat, src: seq<nat>, off: nat, tot: nat, ghost blocks0: seq<Block>, ghost inodes0: seq<Inode>,
                     ghost bits0: seq<bool>, ghost owner0: seq<Use>, ghost logged0: set<nat>)
      returns (ok: bool, tot': nat)
      requires Writing(i, src, off, tot, blocks0, inodes0, bits0, logged0)
      requires tot < |src| && IsBytes(src) && off + |src| <= MAXFILE * BSIZE
      requires Took(owner0, owner, i, Cost(inodes0[i].size, off, tot))
      modifies `bits, `blocks, `inodes, `owner, `logged
      ensures Valid() && OthersSame(blocks0, inodes0, blocks, inodes, i) && tot < tot' <= |src|
      ensures ok ==> Writing(i, src, off, tot', blocks0, inodes0, bits0, logged0)
      ensures ok ==> Took(owner0, owner, i, Cost(inodes0[i].size, off, tot'))
      ensures !ok ==> NFree(owner0) < Cost(inodes0[i].size, off, |src|) && Took(owner0, owner, i, NFree(owner0))
    {
      ghost var size, owner1, need := inodes0[i].size, owner, Need(blocks, inodes[i], (off + tot) / BSIZE);
      tot' := tot + RoundLen(off, tot, |src|);
      NeedNext(blocks, inodes[i], size, off, tot, tot', |src|);
      ok := WriteNext(i, src, off, tot, tot', blocks0, inodes0, bits0, logged0, need);
      TookThen(owner0, owner1, owner, i, Cost(size, off, tot), if ok then need else NFree(owner1));
    }

    /** The state of writei's loop after `tot` bytes: the file so far and, with one bitmap block, what was logged. */
    ghost predicate Writing(i: nat, src: seq<nat>, off: nat, tot: nat, blocks0: seq<Block>, inodes0: seq<Inode>,
                            bits0: seq<bool>, logged0: set<nat>)
      reads this
    {
      && Valid() && tot <= |src| && |bits| == |bits0|
      && Midway(blocks0, inodes0, bits0, blocks, inodes, bits, i, off, src, tot)
      && (0 < tot < |src| ==> (off + tot) % BSIZE == 0)
      && (|bits| <= BPB ==> LogsTo(logged0, logged, blocks, inodes[i], bmapstart, off, tot, inodes0[i].size))
    }

    /** WriteRound as a step from one state of the loop to the next. */
    method WriteNext(i: nat, src: seq<nat>, off: nat, tot: nat, tot': nat, ghost blocks0: seq<Block>,
                     ghost inodes0: seq<Inode>,
                     ghost bits0: seq<bool>, ghost logged0: set<nat>, ghost need: nat)
      returns (ok: bool)
      requires Writing(i, src, off, tot, blocks0, inodes0, bits0, logged0)
      requires tot < |src| && IsBytes(src) && off + |src| <= MAXFILE * BSIZE
      requires RoundTo(off, tot, tot', |src|) && need == Need(blocks, inodes[i], (off + tot) / BSIZE)
      modifies `bits, `blocks, `inodes, `owner, `logged
      ensures Valid() && OthersSame(blocks0, inodes0, blocks, inodes, i)
      ensures ok <==> NFree(old(owner)) >= need
      ensures Took(old(owner), owner, i, if ok then need else NFree(old(owner)))
      ensures ok ==> Writing(i, src, off, tot', blocks0, inodes0, bits0, logged0)
    {
      ghost var blocks1, inodes1, bits1, logged1, size := blocks, inodes, bits, logged, inodes0[i].size;
      var chunk := src[tot..tot'];
      ghost var v, v' := Max(size, off + tot), Max(size, off + tot');
      ghost var file := Bytes(blocks, inodes[i], v);
      ok := WriteRound(i, off + tot, chunk, v, v', file, need);
      OthersThen(blocks0, inodes0, blocks1, inodes1, blocks, inodes, i);
      if ok {
        LogsNext(logged0, logged1, logged, blocks1, inodes1[i], blocks, inodes[i], |bits|, bmapstart, off, tot, tot',
                 size);
        MidwayNext(blocks0, inodes0, bits0, blocks1, inodes1, bits1, blocks, inodes, bits, i, off, src, tot, tot',
                   chunk, v, v', file);
      }
    }

    /** writei's last step for a file that grew */
    method SetSize(i: nat, size: nat)
      requires Valid() && i < |inodes|
      modifies `inodes, `dinodes, `logged
      ensures Valid() && inodes == old(inodes)[i := old(inodes)[i].(size := size)]
      ensures dinodes == old(dinodes)[i := inodes[i]] && logged == old(logged) + {inodestart + i / IPB}
    {
      SetFields(blocks, inodes, owner, i, inodes[i].(size := size));
      inodes := inodes[i := inodes[i].(size := size)];
      IUpdate(i);
    }

    /** writei on a file that is not a device */
    method WriteI(i: nat, src: seq<nat>, off: nat) returns (r: Option<int>)
      requires Sound() && i < |inodes| && off < 0x1_0000_0000 && |src| < 0x1_0000_0000 && IsBytes(src)
      modifies this
      ensures |inodes| == |old(inodes)| && |dinodes| == |inodes|
      ensures off > old(inodes)[i].size || off + |src| > MAXFILE * BSIZE ==>
        && r == Some(-1) && Sound() && blocks == old(blocks) && inodes == old(inodes) && dinodes == old(dinodes)
        && bits == old(bits) && owner == old(owner)
      ensures off <= old(inodes)[i].size && off + |src| <= MAXFILE * BSIZE ==>
        && r == (if NFree(old(owner)) < Cost(old(inodes)[i].size, off, |src|) then None else Some(|src|))
        && (r != None ==> Took(old(owner), owner, i, Cost(old(inodes)[i].size, off, |src|)))
      ensures off + |src| <= old(inodes)[i].size ==>
        inodes == old(inodes) && dinodes == old(dinodes) && bits == old(bits)
      ensures r == Some(|src|) ==>
        && Sound() && File(i) == Spliced(old(File(i)), off, src)
        && inodes[i] == old(inodes)[i].(addrs := inodes[i].addrs, size := |File(i)|)
        && (forall k: nat :: k < |inodes| && k != i ==>
          inodes[k] == old(inodes)[k] && dinodes[k] == old(dinodes)[k] && File(k) == old(File(k)))
        && (old(dinodes)[i] == old(inodes)[i] ==> dinodes[i] == inodes[i])
      ensures r == Some(|src|) && |bits| <= BPB ==>
        logged == old(logged) + WriteLog(blocks, inodes[i], bmapstart, off / BSIZE, Reach(off, |src|),
                                         BlocksOf(old(inodes)[i].size))
                              + if inodes[i].size > old(inodes)[i].size then {inodestart + i / IPB} else {}
    {
      if off > inodes[i].size || off + |src| >= 0x1_0000_0000 { return Some(-1); }
      if off + |src| > MAXFILE * BSIZE { return Some(-1); }
      ghost var blocks0, inodes0 := blocks, inodes;
      var ok := WriteLoop(i, src, off);
      if !ok { return None; }
      ghost var blocks1, inodes1 := blocks, inodes;
      if |src| > 0 && off + |src| > inodes[i].size {
        SetSize(i, off + |src|);
      }
      WriteLogFields(blocks, inodes1[i], inodes[i], bmapstart, off / BSIZE, Reach(off, |src|),
                     BlocksOf(inodes0[i].size));
      assert src[..|src|] == src;
      Rewritten(blocks0, inodes0, blocks1, inodes1, inodes, i, src, off);
      r := Some(|src|);
    }

    /** readi on a file that is not a device. It maps no new block, so it needs no transaction. */
    method ReadI(i: nat, off: nat, n: nat) returns (r: Option<seq<nat>>)
      requires Sound() && i < |inodes| && off < 0x1_0000_0000 && n < 0x1_0000_0000
      modifies `bits, `blocks, `inodes, `owner, `logged
      ensures bits == old(bits) && blocks == old(blocks) && inodes == old(inodes) && owner == old(owner) && Sound()
      ensures logged == old(logged)
      ensures r == None <==> off > inodes[i].size || off + n >= 0x1_0000_0000
      ensures r != None ==> r.value == File(i)[off..Min(off + n, inodes[i].size)]
    {
      if off > inodes[i].size || off + n >= 0x1_0000_0000 { return None; }
      var len := if off + n > inodes[i].size then inodes[i].size - off else n;
      var dst := ReadLoop(i, off, len);
      r := Some(dst);
    }

    /** What writei has written, readi reads back. */
    method WriteThenRead(i: nat, src: seq<nat>, off: nat) returns (w: Option<int>, r: Option<seq<nat>>)
      requires Sound() && i < |inodes| && off + |src| < 0x1_0000_0000 && IsBytes(src)
      modifies this
      ensures w == Some(|src|) ==> r == Some(src)
    {
      r := None;
      ghost var file := File(i);
      w := WriteI(i, src, off);
      if w == Some(|src|) {
        SplicedBack(file, off, src);
        r := ReadI(i, off, |src|);
      }
    }

    /** readi's loop */
    method ReadLoop(i: nat, off: nat, len: nat) returns (dst: seq<nat>)
      requires Sound() && i < |inodes| && off + len <= inodes[i].size
      modifies `bits, `blocks, `inodes, `owner, `logged
      ensures bits == old(bits) && blocks == old(blocks) && inodes == old(inodes) && owner == old(owner)
      ensures logged == old(logged)
      ensures dst == File(i)[off..off + len]
    {
      dst := [];
      var tot := 0;
      ghost var file := File(i);
      while tot < len
        invariant tot <= len && Sound()
        invariant bits == old(bits) && blocks == old(blocks) && inodes == old(inodes) && owner == old(owner)
        invariant logged == old(logged)
        invariant dst == file[off..off + tot]
      {
        var o := off + tot;
        var m := RoundLen(off, tot, len);
        var got := ReadNext(i, o, m);
        SlicesJoin(file, off, o, o + m);
        dst := dst + got;
        tot := tot + m;
      }
    }

    /** One round of readi's loop. */
    method ReadNext(i: nat, o: nat, m: nat) returns (got: seq<nat>)
      requires Sound() && i < |inodes| && 0 < m <= BSIZE - o % BSIZE && o + m <= inodes[i].size
      modifies `bits, `blocks, `inodes, `owner, `logged
      ensures bits == old(bits) && blocks == old(blocks) && inodes == old(inodes) && owner == old(owner)
      ensures logged == old(logged)
      ensures got == File(i)[o..o + m]
    {
      assert Slot(blocks, inodes[i], o / BSIZE) != 0;
      SlotOwned(blocks, inodes, owner, i, o / BSIZE);
      var b := BMap(i, o / BSIZE);
      ReadRound(blocks, inodes[i], o, m);
      got := blocks[b.value][o % BSIZE..o % BSIZE + m];
    }

    /** itrunc's loop over the direct addresses */
    method FreeDirect(i: nat)
      requires Valid() && i < |inodes|
      modifies `bits, `inodes, `owner, `logged
      ensures Valid() && OthersSame(blocks, old(inodes), blocks, inodes, i)
      ensures inodes[i] == old(inodes)[i].(addrs := inodes[i].addrs)
      ensures forall k: nat :: AddrOf(inodes[i], k) == if k < NDIRECT then 0 else AddrOf(old(inodes)[i], k)
      ensures DirectBack(old(owner), owner, i, NDIRECT)
    {
      ghost var inodes0, owner0 := inodes, owner;
      forall k: nat | k < |inodes| ensures FileSame(blocks, inodes[k], blocks, inodes[k]) {}
      var a := 0;
      while a < NDIRECT
        invariant a <= NDIRECT && Valid() && OthersSame(blocks, inodes0, blocks, inodes, i)
        invariant inodes[i] == inodes0[i].(addrs := inodes[i].addrs)
        invariant forall k: nat :: AddrOf(inodes[i], k) == if k < a then 0 else AddrOf(inodes0[i], k)
        invariant DirectBack(owner0, owner, i, a)
      {
        ghost var inodes1, owner1 := inodes, owner;
        FreeOne(i, a);
        OthersThen(blocks, inodes0, blocks, inodes1, blocks, inodes, i);
        a := a + 1;
      }
    }

    /** One round of that loop. */
    method FreeOne(i: nat, a: nat)
      requires Valid() && i < |inodes| && a < NDIRECT
      modifies `bits, `inodes, `owner, `logged
      ensures Valid() && OthersSame(blocks, old(inodes), blocks, inodes, i)
      ensures inodes[i] == old(inodes)[i].(addrs := inodes[i].addrs)
      ensures forall k: nat :: AddrOf(inodes[i], k) == if k == a then 0 else AddrOf(old(inodes)[i], k)
      ensures |owner| == |old(owner)| && forall b: nat :: b < |owner| ==>
        owner[b] == if old(owner)[b] == Addr(i, a) then Free else old(owner)[b]
    {
      forall k: nat | k < |inodes| ensures FileSame(blocks, inodes[k], blocks, inodes[k]) {}
      forall b: nat | b < |owner| && owner[b] == Addr(i, a) ensures b == AddrOf(inodes[i], a) && b != 0 {
        assert UseOk(blocks, inodes, owner, b);
      }
      var b := inodes[i].addrs[a];
      if b != 0 {
        DropAddr(blocks, inodes, owner, i, a);
        inodes := WithAddr(inodes, i, a, 0);
        owner := owner[b := Held];
        BFree(b);
      }
    }

    /**
     itrunc's part for the indirect block. The address is cleared before the blocks it leads to are
     freed, not after; no one else sees the inode in between.
     */
    method FreeIndirect(i: nat)
      requires Valid() && i < |inodes|
      modifies `bits, `inodes, `owner, `logged
      ensures Valid() && OthersSame(blocks, old(inodes), blocks, inodes, i)
      ensures inodes[i] == old(inodes)[i].(addrs := inodes[i].addrs)
      ensures forall k: nat :: AddrOf(inodes[i], k) == if k == NDIRECT then 0 else AddrOf(old(inodes)[i], k)
      ensures IndirectBack(old(owner), owner, i)
    {
      ghost var inodes0, owner0 := inodes, owner;
      forall k: nat | k < |inodes| ensures FileSame(blocks, inodes[k], blocks, inodes[k]) {}
      IndirectUses(blocks, inodes, owner, i);
      var ind := inodes[i].addrs[NDIRECT];
      if ind == 0 { return; }
      DropIndirect(blocks, inodes, owner, i);
      inodes := WithAddr(inodes, i, NDIRECT, 0);
      owner := Detached(owner, i);
      FreeEntries(i, ind, inodes0, owner0);
      BFree(ind);
    }

    /** The loop over the entries of the detached indirect block `ind`. */
    method FreeEntries(i: nat, ind: nat, ghost inodes0: seq<Inode>, ghost owner0: seq<Use>)
      requires Valid() && Inv(blocks, inodes0, owner0) && i < |inodes0| && AddrOf(inodes0[i], NDIRECT) == ind != 0
        && owner == Detached(owner0, i)
      modifies `bits, `owner, `logged
      ensures Valid() && EntriesBack(owner0, owner, i, NINDIRECT)
    {
      assert AddrOk(blocks, inodes0, owner0, i, NDIRECT);
      var j := 0;
      while j < NINDIRECT
        invariant j <= NINDIRECT && Valid() && EntriesBack(owner0, owner, i, j)
      {
        EntryAlone(blocks, inodes0, owner0, i, j);
        var e := Word(blocks[ind], j);
        if e != 0 {
          assert EntryOk(blocks, inodes0, owner0, i, j);
          BFree(e);
        }
        j := j + 1;
      }
    }

    /** itrunc: the file is empty and exactly its blocks are free again. */
    method ITrunc(i: nat)
      requires Sound() && i < |inodes|
      modifies `bits, `inodes, `dinodes, `owner, `logged
      ensures Sound() && OthersSame(blocks, old(inodes), blocks, inodes, i)
      ensures inodes[i].size == 0 && inodes[i] == old(inodes)[i].(size := 0, addrs := inodes[i].addrs)
        && forall k: nat :: AddrOf(inodes[i], k) == 0
      ensures dinodes == old(dinodes)[i := inodes[i]]
      ensures |owner| == |old(owner)| && forall b: nat :: b < |owner| ==>
        owner[b] == if BlockOfFile(old(owner)[b], i) then Free else old(owner)[b]
    {
      ghost var inodes0, owner0, blocks0 := inodes, owner, blocks;
      AddrUses(blocks, inodes, owner);
      FreeDirect(i);
      ghost var inodes1 := inodes;
      FreeIndirect(i);
      OthersThen(blocks, inodes0, blocks, inodes1, blocks, inodes, i);
      ghost var inodes2 := inodes;
      SetFields(blocks, inodes, owner, i, inodes[i].(size := 0));
      inodes := inodes[i := inodes[i].(size := 0)];
      OthersThen(blocks, inodes0, blocks, inodes2, blocks, inodes, i);
      IUpdate(i);
      forall k: nat ensures AddrOf(inodes[i], k) == 0 {
        assert AddrOf(inodes2[i], k) == if k == NDIRECT then 0 else AddrOf(inodes1[i], k);
        assert AddrOf(inodes1[i], k) == if k < NDIRECT then 0 else AddrOf(inodes0[i], k);
      }
      DenseEmpty(blocks, inodes[i]);
      forall k: nat | k < |inodes| ensures Dense(blocks, inodes[k], BlocksOf(inodes[k].size)) {
        if k != i { ContentSame(blocks, inodes0[k], blocks, inodes[k]); }
      }
    }

    /** iput's last step for an inode without links: truncate, mark free, write out. */
    method IFree(i: nat)
      requires Settled() && i < |inodes|
      modifies `bits, `inodes, `dinodes, `owner, `logged
      ensures Settled() && OthersSame(blocks, old(inodes), blocks, inodes, i)
      ensures inodes[i].kind == 0 && inodes[i].size == 0
      ensures |owner| == |old(owner)| && forall b: nat :: b < |owner| ==>
        owner[b] == if BlockOfFile(old(owner)[b], i) then Free else old(owner)[b]
    {
      ghost var inodes0 := inodes;
      ITrunc(i);
      ghost var inodes1 := inodes;
      SetFields(blocks, inodes, owner, i, inodes[i].(kind := 0));
      inodes := inodes[i := inodes[i].(kind := 0)];
      OthersThen(blocks, inodes0, blocks, inodes1, blocks, inodes, i);
      IUpdate(i);
      assert dinodes == inodes;
      forall k: nat | k < |inodes| ensures Dense(blocks, inodes[k], BlocksOf(inodes[k].size)) {
        DenseFields(blocks, inodes1[k], inodes[k], BlocksOf(inodes[k].size));
      }
    }

    /** ialloc: the first free inode, cleared and marked; the copy in memory is the one ilock will read. */
    method IAlloc(kind: nat) returns (r: Option<nat>)
      requires Settled() && kind != 0
      modifies `inodes, `dinodes, `logged
      ensures Settled() && |inodes| == |old(inodes)|
      ensures r == None <==> forall k: nat :: 1 <= k < |old(inodes)| ==> old(inodes)[k].kind != 0
      ensures r == None ==> inodes == old(inodes)
      ensures r != None ==>
        && 1 <= r.value < |inodes| && old(inodes)[r.value].kind == 0
        && (forall k: nat :: 1 <= k < r.value ==> old(inodes)[k].kind != 0)
        && inodes == old(inodes)[r.value := Cleared(kind)] && OthersSame(blocks, old(inodes), blocks, inodes, r.value)
        && inodes[r.value].kind == kind && inodes[r.value].nlink == 0 && inodes[r.value].size == 0
        && inodes[r.value].major == 0 && inodes[r.value].minor == 0 && forall a: nat :: AddrOf(inodes[r.value], a) == 0
    {
      var inum := 1;
      while inum < |dinodes|
        invariant 1 <= inum && dinodes == old(dinodes) && inodes == old(inodes)
        invariant forall k: nat :: 1 <= k < inum && k < |inodes| ==> inodes[k].kind != 0
      {
        if dinodes[inum].kind == 0 {
          NoAddrs(blocks, inodes[inum]);
          SetFields(blocks, inodes, owner, inum, Cleared(kind));
          DenseFields(blocks, inodes[inum], Cleared(kind), 0);
          dinodes := dinodes[inum := Cleared(kind)];
          inodes := inodes[inum := dinodes[inum]];
          logged := logged + {inodestart + inum / IPB};
          return Some(inum);
        }
        inum := inum + 1;
      }
      r := None;
    }

    /**
     filewrite on an inode: `done` bytes were written and the offset moved by as many. It falls short only
     of the largest file, after whole chunks, or where the offset is past the end, before any. It panics
     exactly if the blocks for what it would write are not there.
     */
    method FileWrite(i: nat, off: nat, data: seq<nat>) returns (r: Option<int>, done: nat)
      requires Sound() && i < |inodes| && off < 0x1_0000_0000 && |data| < 0x8000_0000 && IsBytes(data)
      modifies this
      ensures r == None <==>
        NFree(old(owner)) < Cost(old(inodes)[i].size, off, Target(old(inodes)[i].size, off, |data|))
      ensures r != None ==> done == Target(old(inodes)[i].size, off, |data|)
      ensures r != None ==> done <= |data| && r == Some(if done == |data| then |data| else -1)
      ensures r != None ==> Filing(i, off, data, done, old(blocks), old(inodes))
      ensures r != None ==> Took(old(owner), owner, i, Cost(old(inodes)[i].size, off, done))
    {
      ghost var blocks0, inodes0, owner0, size, len := blocks, inodes, owner, inodes[i].size, |data|;
      ghost var chunks := 0;
      done := 0;
      WroteNothing(blocks, inodes, i, off);
      assert data[..0] == [];
      assert size <= MAXFILE * BSIZE by { assert Dense(blocks, inodes[i], BlocksOf(size)); }
      while done < |data|
        invariant done <= len && (done == CHUNK * chunks || done == len)
        invariant Filing(i, off, data, done, blocks0, inodes0)
        invariant Took(owner0, owner, i, Cost(size, off, done))
      {
        r, done := FileStep(i, off, data, done, chunks, blocks0, inodes0, owner0);
        if r == None || r == Some(-1) { return; }
        chunks := chunks + 1;
      }
      TargetAll(size, off, len);
      r := Some(|data|);
    }

    /** One round of filewrite's loop. */
    method FileStep(i: nat, off: nat, data: seq<nat>, done: nat, ghost chunks: nat, ghost blocks0: seq<Block>,
                    ghost inodes0: seq<Inode>, ghost owner0: seq<Use>) returns (r: Option<int>, done': nat)
      requires Filing(i, off, data, done, blocks0, inodes0) && Took(owner0, owner, i, Cost(inodes0[i].size, off, done))
      requires off < 0x1_0000_0000 && |data| < 0x8000_0000 && IsBytes(data)
      requires done == CHUNK * chunks && done < |data| && inodes0[i].size <= MAXFILE * BSIZE
      modifies this
      ensures r == None ==> NFree(owner0) < Cost(inodes0[i].size, off, Target(inodes0[i].size, off, |data|))
      ensures r != None ==> Filing(i, off, data, done', blocks0, inodes0)
      ensures r != None ==> Took(owner0, owner, i, Cost(inodes0[i].size, off, done'))
      ensures r == Some(-1) ==> done' == Target(inodes0[i].size, off, |data|) && done' < |data|
      ensures r != None && r != Some(-1) ==>
        done < done' <= |data| && (done' == CHUNK * (chunks + 1) || done' == |data|)
    {
      var n1 := Min(|data| - done, CHUNK);
      ghost var owner1, need, size := owner, Cost(inodes[i].size, off + done, n1), inodes0[i].size;
      NextChunk(size, off, |data|, chunks, done, n1, inodes[i].size, need);
      r := FileRound(i, off, data, done, n1, blocks0, inodes0, need);
      done' := if r == Some(n1) then done + n1 else done;
      if r == Some(n1) { TookThen(owner0, owner1, owner, i, Cost(size, off, done), need); }
    }

    /** The file system after `done` bytes of filewrite. */
    ghost predicate Filing(i: nat, off: nat, data: seq<nat>, done: nat, blocks0: seq<Block>, inodes0: seq<Inode>)
      reads this
    {
      && Sound() && done <= |data| && Wrote(blocks0, inodes0, blocks, inodes, i, off, data[..done])
      && (done > 0 ==> Fits(inodes0[i].size, off, done))
      && inodes[i].size == if done == 0 then inodes0[i].size else Max(inodes0[i].size, off + done)
    }

    /** writei on one chunk. */
    method FileRound(i: nat, off: nat, data: seq<nat>, done: nat, n1: nat, ghost blocks0: seq<Block>,
                     ghost inodes0: seq<Inode>,
                     ghost need: nat) returns (r: Option<int>)
      requires Filing(i, off, data, done, blocks0, inodes0) && need == Cost(inodes[i].size, off + done, n1)
      requires off < 0x1_0000_0000 && |data| < 0x8000_0000 && IsBytes(data) && 0 < n1 && done + n1 <= |data|
      modifies this
      ensures r == None || r == Some(-1) || r == Some(n1)
      ensures r == Some(-1) <==> !Fits(inodes0[i].size, off, done + n1)
      ensures r == None <==> Fits(inodes0[i].size, off, done + n1) && NFree(old(owner)) < need
      ensures r == Some(-1) ==> Filing(i, off, data, done, blocks0, inodes0) && owner == old(owner)
      ensures r == Some(n1) ==> Filing(i, off, data, done + n1, blocks0, inodes0) && Took(old(owner), owner, i, need)
    {
      ghost var blocks1, inodes1 := blocks, inodes;
      var chunk := data[done..done + n1];
      FitsThen(inodes0[i].size, off, done, n1, inodes[i].size);
      assert |chunk| == n1 && need == Cost(inodes[i].size, off + done, |chunk|);
      r := WriteI(i, chunk, off + done);
      if r == Some(n1) {
        WroteNext(blocks0, inodes0, blocks1, inodes1, blocks, inodes, i, off, data, done, n1);
        WroteSize(blocks0, inodes0, blocks, inodes, i, off, data[..done + n1]);
      }
    }
  }

  lemma WroteNext(blocks0: seq<Block>, inodes0: seq<Inode>, blocks1: seq<Block>, inodes1: seq<Inode>,
                  blocks: seq<Block>, inodes: seq<Inode>,
                  i: nat, off: nat, data: seq<nat>, done: nat, n1: nat)
    requires done + n1 <= |data| && Wrote(blocks0, inodes0, blocks1, inodes1, i, off, data[..done])
      && |inodes| == |inodes1|
    requires off + done <= inodes1[i].size && off <= inodes0[i].size
    requires Content(blocks, inodes[i]) == Spliced(Content(blocks1, inodes1[i]), off + done, data[done..done + n1])
    requires forall k: nat :: k < |inodes| && k != i ==>
      inodes[k] == inodes1[k] && Content(blocks, inodes[k]) == Content(blocks1, inodes1[k])
    ensures Wrote(blocks0, inodes0, blocks, inodes, i, off, data[..done + n1])
  {
    SplicedTwice(Content(blocks0, inodes0[i]), off, data, done, n1);
  }

  /** Writing as far as `n` bytes after `off` is what writei accepts. */
  predicate Fits(size: nat, off: nat, n: nat) { off <= size && off + n <= MAXFILE * BSIZE }

  lemma FitsThen(size: nat, off: nat, done: nat, n: nat, size': nat)
    requires done > 0 ==> Fits(size, off, done)
    requires size' == if done == 0 then size else Max(size, off + done)
    ensures Fits(size, off, done + n) <==> off + done <= size' && off + done + n <= MAXFILE * BSIZE
  {
  }

  /** How many of `len` bytes filewrite writes: all, or the whole chunks that fit the largest file. */
  function Target(size: nat, off: nat, len: nat): (n: nat)
    ensures n <= len
  {
    if off > size then 0
    else if off + len <= MAXFILE * BSIZE then len
    else if off <= MAXFILE * BSIZE then (MAXFILE * BSIZE - off) / CHUNK * CHUNK
    else 0
  }

  lemma TargetAll(size: nat, off: nat, len: nat)
    requires len == 0 || Fits(size, off, len)
    ensures Target(size, off, len) == len
  {
  }

  lemma ChunkQuotient(a: nat, k: nat)
    ensures CHUNK * k <= a < CHUNK * k + CHUNK ==> a / CHUNK == k
    ensures CHUNK * k <= a ==> k <= a / CHUNK
  {
  }

  lemma NextTarget(size: nat, off: nat, len: nat, chunks: nat, done: nat, n1: nat)
    requires done == CHUNK * chunks && done < len && n1 == Min(len - done, CHUNK) && size <= MAXFILE * BSIZE
    requires done > 0 ==> Fits(size, off, done)
    ensures if Fits(size, off, done + n1) then done + n1 <= Target(size, off, len) else done == Target(size, off, len)
  {
    if off <= size && off + len > MAXFILE * BSIZE {
      ChunkQuotient(MAXFILE * BSIZE - off, chunks);
      ChunkQuotient(MAXFILE * BSIZE - off, chunks + 1);
    }
  }

  /** What the next chunk means for the whole: the blocks it needs, and where the end is if it is refused. */
  lemma NextChunk(size: nat, off: nat, len: nat, chunks: nat, done: nat, n1: nat, size': nat, need: nat)
    requires done == CHUNK * chunks && done < len && n1 == Min(len - done, CHUNK) && size <= MAXFILE * BSIZE
    requires done > 0 ==> Fits(size, off, done)
    requires size' == (if done == 0 then size else Max(size, off + done)) && need == Cost(size', off + done, n1)
    ensures !Fits(size, off, done + n1) ==> done == Target(size, off, len) && done < len
    ensures Fits(size, off, done + n1) ==> Cost(size, off, done) + need == Cost(size, off, done + n1)
    ensures Fits(size, off, done + n1) ==> Cost(size, off, done + n1) <= Cost(size, off, Target(size, off, len))
  {
    NextTarget(size, off, len, chunks, done, n1);
    if Fits(size, off, done + n1) {
      CostSplit(size, off, done, n1, size');
      CostGrows(size, off, done + n1, Target(size, off, len));
    }
  }

  /** File `i` has `data` laid over it at `off`; past its end only nothing can be. No other file changed. */
  ghost predicate Wrote(blocks0: seq<Block>, inodes0: seq<Inode>, blocks: seq<Block>, inodes: seq<Inode>, i: nat,
                        off: nat, data: seq<nat>) {
    && |inodes| == |inodes0| && i < |inodes|
    && Content(blocks, inodes[i]) ==
       (if off <= inodes0[i].size then Spliced(Content(blocks0, inodes0[i]), off, data)
         else Content(blocks0, inodes0[i]))
    && (off > inodes0[i].size ==> data == [])
    && forall k: nat :: k < |inodes| && k != i ==>
      inodes[k] == inodes0[k] && Content(blocks, inodes[k]) == Content(blocks0, inodes0[k])
  }

  lemma WroteSize(blocks0: seq<Block>, inodes0: seq<Inode>, blocks: seq<Block>, inodes: seq<Inode>, i: nat, off: nat,
                  data: seq<nat>)
    requires Wrote(blocks0, inodes0, blocks, inodes, i, off, data) && i < |inodes0|
    ensures inodes[i].size == if data == [] then inodes0[i].size else Max(inodes0[i].size, off + |data|)
  {
    assert |Content(blocks, inodes[i])| == inodes[i].size && |Content(blocks0, inodes0[i])| == inodes0[i].size;
  }

  lemma WroteNothing(blocks: seq<Block>, inodes: seq<Inode>, i: nat, off: nat)
    requires i < |inodes|
    ensures Wrote(blocks, inodes, blocks, inodes, i, off, [])
  {
  }

  /** The most filewrite puts into one transaction. */
  const CHUNK := 6656

  function Cleared(kind: nat): Inode { Inode(kind, 0, 0, 0, 0, seq(NDIRECT + 1, _ => 0)) }

  lemma NoAddrs(blocks: seq<Block>, ino: Inode)
    requires Dense(blocks, ino, 0) && |ino.addrs| == NDIRECT + 1
    ensures ino.addrs == Cleared(1).addrs
  {
    forall a | 0 <= a < NDIRECT + 1 ensures ino.addrs[a] == 0 {
      assert a < NDIRECT ==> Slot(blocks, ino, a) == ino.addrs[a];
      assert AddrOf(ino, NDIRECT) == ino.addrs[NDIRECT];
    }
  }

  /** The first `a` direct blocks of `i` are free, the others are used as before. */
  ghost predicate DirectBack(owner0: seq<Use>, owner: seq<Use>, i: nat, a: nat) {
    |owner| == |owner0| && forall b: nat :: b < |owner| ==>
      owner[b] == if owner0[b].Addr? && owner0[b].i == i && owner0[b].a < a then Free else owner0[b]
  }

  /** The indirect block is held, the blocks of its first `j` entries are free, those of the others held. */
  ghost predicate EntriesBack(owner0: seq<Use>, owner: seq<Use>, i: nat, j: nat) {
    |owner| == |owner0| && forall b: nat :: b < |owner| ==>
      owner[b] == if owner0[b] == Addr(i, NDIRECT) then Held
                  else if owner0[b].Entry? && owner0[b].i == i then (if owner0[b].j < j then Free else Held)
                  else owner0[b]
  }

  ghost predicate IndirectBack(owner0: seq<Use>, owner: seq<Use>, i: nat) {
    |owner| == |owner0| && forall b: nat :: b < |owner| ==>
      owner[b] == if owner0[b] == Addr(i, NDIRECT) || (owner0[b].Entry? && owner0[b].i == i) then Free else owner0[b]
  }

  lemma IndirectUses(blocks: seq<Block>, inodes: seq<Inode>, owner: seq<Use>, i: nat)
    requires Inv(blocks, inodes, owner) && i < |inodes|
    ensures forall b: nat :: b < |owner| && owner[b] == Addr(i, NDIRECT) ==> b == AddrOf(inodes[i], NDIRECT) != 0
    ensures forall b: nat :: b < |owner| && owner[b].Entry? && owner[b].i == i ==>
      AddrOf(inodes[i], NDIRECT) != 0 && owner[b].j < NINDIRECT
    ensures AddrOk(blocks, inodes, owner, i, NDIRECT)
  {
    forall b: nat | b < |owner| && owner[b] == Addr(i, NDIRECT) ensures b == AddrOf(inodes[i], NDIRECT) != 0 {
      assert UseOk(blocks, inodes, owner, b);
    }
    forall b: nat | b < |owner| && owner[b].Entry? && owner[b].i == i
      ensures AddrOf(inodes[i], NDIRECT) != 0 && owner[b].j < NINDIRECT {
      assert UseOk(blocks, inodes, owner, b);
    }
  }

  lemma AddrUses(blocks: seq<Block>, inodes: seq<Inode>, owner: seq<Use>)
    requires Inv(blocks, inodes, owner)
    ensures forall b: nat :: b < |owner| && owner[b].Addr? ==> owner[b].a <= NDIRECT
  {
    forall b: nat | b < |owner| && owner[b].Addr? ensures owner[b].a <= NDIRECT {
      assert UseOk(blocks, inodes, owner, b);
    }
  }

  lemma DenseEmpty(blocks: seq<Block>, ino: Inode)
    requires forall k: nat :: AddrOf(ino, k) == 0
    ensures Dense(blocks, ino, 0)
  {
  }

  lemma EntryAlone(blocks: seq<Block>, inodes: seq<Inode>, owner: seq<Use>, i: nat, j: nat)
    requires Inv(blocks, inodes, owner) && i < |inodes|
    ensures forall b: nat :: b < |owner| && owner[b] == Entry(i, j) ==> b == EntryOf(blocks, inodes[i], j) != 0
  {
    forall b: nat | b < |owner| && owner[b] == Entry(i, j) ensures b == EntryOf(blocks, inodes[i], j) != 0 {
      assert UseOk(blocks, inodes, owner, b);
    }
  }

  lemma SlicesJoin(s: seq<nat>, a: nat, b: nat, c: nat)
    requires a <= b <= c <= |s|
    ensures s[a..b] + s[b..c] == s[a..c]
  {
  }

  function Min(a: nat, b: nat): nat { if a < b then a else b }

  /** The part of one block that readi copies is a part of the content. */
  lemma ReadRound(blocks: seq<Block>, ino: Inode, o: nat, m: nat)
    requires o + m <= ino.size && o % BSIZE + m <= BSIZE
    requires var b := Slot(blocks, ino, o / BSIZE); b < |blocks| && IsBlock(blocks[b])
    ensures blocks[Slot(blocks, ino, o / BSIZE)][o % BSIZE..o % BSIZE + m] == Content(blocks, ino)[o..o + m]
  {
    var row, c := blocks[Slot(blocks, ino, o / BSIZE)], Content(blocks, ino);
    var x, y := row[o % BSIZE..o % BSIZE + m], c[o..o + m];
    forall k | 0 <= k < m ensures x[k] == y[k] {
      assert (o + k) / BSIZE == o / BSIZE && (o + k) % BSIZE == o % BSIZE + k;
    }
  }

  /** The content of every file after writei's loop and the new size. */
  lemma Rewritten(blocks0: seq<Block>, inodes0: seq<Inode>, blocks: seq<Block>, inodes1: seq<Inode>, inodes: seq<Inode>,
                  i: nat, src: seq<nat>, off: nat)
    requires i < |inodes0| == |inodes1| == |inodes| && off <= inodes0[i].size
      && OthersSame(blocks0, inodes0, blocks, inodes1, i)
    requires AllDense(blocks0, inodes0)
    requires inodes1[i] == inodes0[i].(addrs := inodes1[i].addrs)
    requires inodes == inodes1[i := inodes1[i].(size := Max(inodes0[i].size, off + |src|))]
    requires Dense(blocks, inodes1[i], BlocksOf(Max(inodes0[i].size, off + |src|)))
    requires Bytes(blocks, inodes1[i], Max(inodes0[i].size, off + |src|)) ==
      Spliced(Content(blocks0, inodes0[i]), off, src)
    ensures Content(blocks, inodes[i]) == Spliced(Content(blocks0, inodes0[i]), off, src)
    ensures AllDense(blocks, inodes)
    ensures forall k: nat :: k < |inodes| && k != i ==> Content(blocks, inodes[k]) == Content(blocks0, inodes0[k])
  {
    var v := Max(inodes0[i].size, off + |src|);
    forall k: nat | k < v ensures ByteAt(blocks, inodes[i], k) == ByteAt(blocks, inodes1[i], k) {}
    assert Bytes(blocks, inodes[i], v) == Bytes(blocks, inodes1[i], v);
    forall k: nat | k < |inodes| && k != i
      ensures Dense(blocks, inodes[k], BlocksOf(inodes[k].size))
        && Content(blocks, inodes[k]) == Content(blocks0, inodes0[k])
    {
      ContentSame(blocks0, inodes0[k], blocks, inodes[k]);
    }
    DenseFields(blocks, inodes1[i], inodes[i], BlocksOf(inodes[i].size));
  }

  lemma WriteLogFields(blocks: seq<Block>, ino: Inode, ino': Inode, bmap: nat, lo: nat, hi: nat, nb: nat)
    requires ino'.addrs == ino.addrs && hi <= MAXFILE
    ensures WriteLog(blocks, ino', bmap, lo, hi, nb) == WriteLog(blocks, ino, bmap, lo, hi, nb)
  {
    SlotsSame(blocks, ino, blocks, ino', lo, hi);
  }

  lemma DenseFields(blocks: seq<Block>, ino: Inode, ino': Inode, n: nat)
    requires Dense(blocks, ino, n) && ino'.addrs == ino.addrs
    ensures Dense(blocks, ino', n)
  {
    forall k: nat | k < MAXFILE ensures Slot(blocks, ino', k) == Slot(blocks, ino, k) {}
  }
}
