/**
 Blocks and inodes as fs.c lays them out. A file's blocks are twelve addresses in the inode and up to 128
 more in an indirect block. Every disk block has one use, and an address that is not zero names a block
 with the use that slot gives it, so no block is in two places; none is free, held or metadata as well.
 */
module FsBlocks {

  const BSIZE := 512
  const NDIRECT := 12
  const NINDIRECT := 128
  const MAXFILE := 140

  type Block = seq<nat>

  datatype Inode = Inode(kind: nat, major: int, minor: int, nlink: int, size: nat, addrs: seq<nat>)

  /** What a block is for: an address slot `a` of inode `i`, slot 12 being its indirect block, or entry `j` of that. */
  datatype Use = Meta | Free | Held | Addr(i: nat, a: nat) | Entry(i: nat, j: nat)

  // ----- the words of a block -----

  predicate IsBlock(b: Block) { |b| == BSIZE && forall k :: 0 <= k < BSIZE ==> b[k] < 256 }

  function ZeroBlock(): (b: Block)
    ensures IsBlock(b)
  {
    seq(BSIZE, _ => 0)
  }

  function Word(b: Block, j: nat): nat {
    if 4 * j + 3 < |b| then b[4 * j] + 256 * (b[4 * j + 1] + 256 * (b[4 * j + 2] + 256 * b[4 * j + 3])) else 0
  }

  function WithWord(b: Block, j: nat, w: nat): (r: Block)
    requires 4 * j + 3 < |b| && w < 0x1_0000_0000
    ensures |r| == |b|
  {
    b[4 * j := w % 256][4 * j + 1 := w / 256 % 256][4 * j + 2 := w / 65536 % 256][4 * j + 3 := w / 16777216 % 256]
  }

  lemma WordParts(w: nat)
    requires w < 0x1_0000_0000
    ensures w % 256 + 256 * (w / 256 % 256 + 256 * (w / 65536 % 256 + 256 * (w / 16777216 % 256))) == w
  {
  }

  /** A word written is the word read, and the others stay. */
  lemma WithWordAt(b: Block, j: nat, w: nat, k: nat)
    requires IsBlock(b) && j < NINDIRECT && w < 0x1_0000_0000
    ensures IsBlock(WithWord(b, j, w))
    ensures Word(WithWord(b, j, w), k) == if k == j then w else Word(b, k)
  {
    WordParts(w);
  }

  lemma ZeroWord(j: nat)
    ensures Word(ZeroBlock(), j) == 0
  {
  }

  // ----- the blocks of a file -----

  function AddrOf(ino: Inode, a: nat): nat { if a < |ino.addrs| then ino.addrs[a] else 0 }

  function BlockAt(blocks: seq<Block>, b: nat): Block { if b < |blocks| then blocks[b] else [] }

  function EntryOf(blocks: seq<Block>, ino: Inode, j: nat): nat {
    if AddrOf(ino, NDIRECT) == 0 then 0 else Word(BlockAt(blocks, AddrOf(ino, NDIRECT)), j)
  }

  /** The address of block `n` of a file, zero if it has none. */
  function Slot(blocks: seq<Block>, ino: Inode, n: nat): nat {
    if n < NDIRECT then AddrOf(ino, n) else if n < MAXFILE then EntryOf(blocks, ino, n - NDIRECT) else 0
  }

  function BlocksOf(size: nat): nat { (size + BSIZE - 1) / BSIZE }

  /** A file has exactly its first `n` blocks, and an indirect block exactly if they need one. */
  ghost predicate Dense(blocks: seq<Block>, ino: Inode, n: nat) {
    && n <= MAXFILE && (AddrOf(ino, NDIRECT) != 0 <==> n > NDIRECT)
    && forall k: nat :: k < MAXFILE ==> (Slot(blocks, ino, k) != 0 <==> k < n)
  }

  function ByteAt(blocks: seq<Block>, ino: Inode, k: nat): nat {
    var b := BlockAt(blocks, Slot(blocks, ino, k / BSIZE));
    if k % BSIZE < |b| then b[k % BSIZE] else 0
  }

  /** The first `v` bytes of a file. */
  function Bytes(blocks: seq<Block>, ino: Inode, v: nat): (s: seq<nat>)
    ensures |s| == v
  {
    seq(v, k requires 0 <= k < v => ByteAt(blocks, ino, k))
  }

  function Content(blocks: seq<Block>, ino: Inode): (s: seq<nat>)
    ensures |s| == ino.size
  {
    Bytes(blocks, ino, ino.size)
  }

  // ----- one use per block -----

  ghost predicate AddrOk(blocks: seq<Block>, inodes: seq<Inode>, owner: seq<Use>, i: nat, a: nat) {
    i < |inodes| && AddrOf(inodes[i], a) != 0 ==>
      AddrOf(inodes[i], a) < |owner| && owner[AddrOf(inodes[i], a)] == Addr(i, a)
  }

  ghost predicate EntryOk(blocks: seq<Block>, inodes: seq<Inode>, owner: seq<Use>, i: nat, j: nat) {
    i < |inodes| && j < NINDIRECT && EntryOf(blocks, inodes[i], j) != 0 ==>
      EntryOf(blocks, inodes[i], j) < |owner| && owner[EntryOf(blocks, inodes[i], j)] == Entry(i, j)
  }

  ghost predicate UseOk(blocks: seq<Block>, inodes: seq<Inode>, owner: seq<Use>, b: nat)
    requires b < |owner|
  {
    match owner[b]
    case Addr(i, a) => i < |inodes| && a <= NDIRECT && AddrOf(inodes[i], a) == b && b != 0
    case Entry(i, j) => i < |inodes| && j < NINDIRECT && EntryOf(blocks, inodes[i], j) == b && b != 0
    case _ => true
  }

  ghost predicate Shaped(blocks: seq<Block>, inodes: seq<Inode>, owner: seq<Use>) {
    && 0 < |owner| == |blocks| < 0x1_0000_0000 && owner[0] == Meta
    && (forall b: nat :: b < |blocks| ==> IsBlock(blocks[b]))
    && forall i: nat :: i < |inodes| ==> |inodes[i].addrs| == NDIRECT + 1
  }

  ghost predicate Inv(blocks: seq<Block>, inodes: seq<Inode>, owner: seq<Use>) {
    && Shaped(blocks, inodes, owner)
    && (forall i: nat, a: nat :: AddrOk(blocks, inodes, owner, i, a))
    && (forall i: nat, j: nat :: EntryOk(blocks, inodes, owner, i, j))
    && forall b: nat :: b < |owner| ==> UseOk(blocks, inodes, owner, b)
  }

  /** The bitmap: a bit is set exactly when its block is in use. */
  ghost predicate BitsOk(bits: seq<bool>, owner: seq<Use>) {
    |bits| == |owner| && forall b: nat :: b < |bits| ==> (bits[b] <==> owner[b] != Free)
  }

  /** Held is a use in passing: no block keeps it between operations. */
  ghost predicate NoneHeld(owner: seq<Use>) {
    forall b: nat :: b < |owner| ==> owner[b] != Held
  }

  /** Where the blocks of a file are: its `MAXFILE` slots, and the indirect block after them. */
  function Place(blocks: seq<Block>, ino: Inode, n: nat): nat {
    if n < MAXFILE then Slot(blocks, ino, n) else if n == MAXFILE then AddrOf(ino, NDIRECT) else 0
  }

  function PlaceUse(i: nat, n: nat): Use {
    if n == MAXFILE then Addr(i, NDIRECT) else SlotUse(i, n)
  }

  lemma PlaceOwned(blocks: seq<Block>, inodes: seq<Inode>, owner: seq<Use>, i: nat, n: nat)
    requires Inv(blocks, inodes, owner) && i < |inodes| && Place(blocks, inodes[i], n) != 0
    ensures Place(blocks, inodes[i], n) < |owner| && owner[Place(blocks, inodes[i], n)] == PlaceUse(i, n)
      && n <= MAXFILE
  {
    if n < MAXFILE {
      SlotOwned(blocks, inodes, owner, i, n);
    } else {
      assert AddrOk(blocks, inodes, owner, i, NDIRECT);
    }
  }

  /** A block used by a file is in a place of that file. */
  lemma UsePlaced(blocks: seq<Block>, inodes: seq<Inode>, owner: seq<Use>, b: nat) returns (i: nat, n: nat)
    requires Inv(blocks, inodes, owner) && b < |owner| && (owner[b].Addr? || owner[b].Entry?)
    ensures i < |inodes| && n <= MAXFILE && Place(blocks, inodes[i], n) == b != 0
  {
    assert UseOk(blocks, inodes, owner, b);
    i := owner[b].i;
    n := if owner[b].Entry? then NDIRECT + owner[b].j else if owner[b].a == NDIRECT then MAXFILE else owner[b].a;
  }

  /** Block `b` is in place `n` of file `i`. */
  ghost predicate InPlace(blocks: seq<Block>, inodes: seq<Inode>, b: nat, i: nat, n: nat) {
    i < |inodes| && b != 0 && Place(blocks, inodes[i], n) == b
  }

  /**
   The bitmap is exact: a bit is set if and only if its block is metadata or in a place of a file, never
   both, and then in one place of one file.
   */
  lemma BitSetIff(blocks: seq<Block>, inodes: seq<Inode>, owner: seq<Use>, bits: seq<bool>, b: nat)
    requires Inv(blocks, inodes, owner) && BitsOk(bits, owner) && NoneHeld(owner) && b < |bits|
    ensures bits[b] <==> owner[b] == Meta || exists i: nat, n: nat :: InPlace(blocks, inodes, b, i, n)
    ensures owner[b] == Meta ==> !exists i: nat, n: nat :: InPlace(blocks, inodes, b, i, n)
    ensures forall i: nat, n: nat, i': nat, n': nat ::
      InPlace(blocks, inodes, b, i, n) && InPlace(blocks, inodes, b, i', n') ==> i == i' && n == n'
  {
    forall i: nat, n: nat | InPlace(blocks, inodes, b, i, n) ensures owner[b] == PlaceUse(i, n) && n <= MAXFILE {
      PlaceOwned(blocks, inodes, owner, i, n);
    }
    if owner[b].Addr? || owner[b].Entry? {
      var i, n := UsePlaced(blocks, inodes, owner, b);
      assert InPlace(blocks, inodes, b, i, n);
    }
  }

  // ----- free blocks -----

  ghost function FreeSet(owner: seq<Use>): set<nat> {
    set b: nat | b < |owner| && owner[b] == Free
  }

  /** How many blocks are free. */
  ghost function NFree(owner: seq<Use>): nat {
    |FreeSet(owner)|
  }

  lemma NoneFree(owner: seq<Use>)
    ensures NFree(owner) == 0 <==> forall b: nat :: b < |owner| ==> owner[b] != Free
  {
    if b: nat :| b < |owner| && owner[b] == Free { assert b in FreeSet(owner); }
    if NFree(owner) != 0 {
      var b :| b in FreeSet(owner);
    }
  }

  lemma TakenFree(owner: seq<Use>, b: nat, u: Use)
    requires b < |owner| && owner[b] == Free && u != Free
    ensures NFree(owner[b := u]) == NFree(owner) - 1
  {
    assert FreeSet(owner[b := u]) == FreeSet(owner) - {b};
  }

  /** A block of file `i`. */
  ghost predicate BlockOfFile(u: Use, i: nat) {
    (u.Addr? && u.i == i) || (u.Entry? && u.i == i)
  }

  /** File `i` took `n` free blocks and put each of them to use; every other block is used as before. */
  ghost predicate Took(owner0: seq<Use>, owner: seq<Use>, i: nat, n: int) {
    && |owner| == |owner0| && NFree(owner) + n == NFree(owner0)
    && forall b: nat :: b < |owner| ==> owner[b] == owner0[b] || (owner0[b] == Free && BlockOfFile(owner[b], i))
  }

  lemma TookThen(o0: seq<Use>, o1: seq<Use>, o2: seq<Use>, i: nat, n: int, m: int)
    requires Took(o0, o1, i, n) && Took(o1, o2, i, m)
    ensures Took(o0, o2, i, n + m)
  {
  }

  lemma TookOne(owner: seq<Use>, i: nat, b: nat, u: Use)
    requires b < |owner| && owner[b] == Free && BlockOfFile(u, i)
    ensures Took(owner, owner[b := u], i, 1)
  {
    TakenFree(owner, b, u);
  }

  /** The use of block `n` of file `i`. */
  function SlotUse(i: nat, n: nat): Use {
    if n < NDIRECT then Addr(i, n) else if n < MAXFILE then Entry(i, n - NDIRECT) else Meta
  }

  lemma SlotOwned(blocks: seq<Block>, inodes: seq<Inode>, owner: seq<Use>, i: nat, n: nat)
    requires Inv(blocks, inodes, owner) && i < |inodes| && Slot(blocks, inodes[i], n) != 0
    ensures Slot(blocks, inodes[i], n) < |owner| && owner[Slot(blocks, inodes[i], n)] == SlotUse(i, n) && n < MAXFILE
  {
    if n < NDIRECT {
      assert AddrOk(blocks, inodes, owner, i, n);
    } else {
      assert EntryOk(blocks, inodes, owner, i, n - NDIRECT);
    }
  }

  /** No block is in two places. */
  lemma SlotsDistinct(blocks: seq<Block>, inodes: seq<Inode>, owner: seq<Use>, i: nat, n: nat, i': nat, n': nat)
    requires Inv(blocks, inodes, owner) && i < |inodes| && i' < |inodes|
    requires Slot(blocks, inodes[i], n) == Slot(blocks, inodes[i'], n') != 0
    ensures i == i' && n == n'
  {
    SlotOwned(blocks, inodes, owner, i, n);
    SlotOwned(blocks, inodes, owner, i', n');
  }

  // ----- what changes and what does not -----

  /** Block `n` of a file: its address and what is in it. */
  ghost predicate SlotSame(blocks: seq<Block>, ino: Inode, blocks': seq<Block>, ino': Inode, n: nat) {
    && Slot(blocks', ino', n) == Slot(blocks, ino, n)
    && (Slot(blocks, ino, n) != 0 ==> BlockAt(blocks', Slot(blocks, ino, n)) == BlockAt(blocks, Slot(blocks, ino, n)))
  }

  ghost predicate FileSame(blocks: seq<Block>, ino: Inode, blocks': seq<Block>, ino': Inode) {
    && ino'.size == ino.size && AddrOf(ino', NDIRECT) == AddrOf(ino, NDIRECT)
    && forall n: nat :: n < MAXFILE ==> SlotSame(blocks, ino, blocks', ino', n)
  }

  /** Every file but `i` is as before. */
  ghost predicate OthersSame(blocks: seq<Block>, inodes: seq<Inode>, blocks': seq<Block>, inodes': seq<Inode>, i: int) {
    |inodes'| == |inodes| && forall k: nat :: k < |inodes| && k != i ==>
      inodes'[k] == inodes[k] && FileSame(blocks, inodes[k], blocks', inodes'[k])
  }

  lemma OthersThen(blocks: seq<Block>, inodes: seq<Inode>, b1: seq<Block>, i1: seq<Inode>, b2: seq<Block>,
                   i2: seq<Inode>, i: int)
    requires OthersSame(blocks, inodes, b1, i1, i) && OthersSame(b1, i1, b2, i2, i)
    ensures OthersSame(blocks, inodes, b2, i2, i)
  {
    forall k: nat | k < |inodes| && k != i ensures i2[k] == inodes[k] && FileSame(blocks, inodes[k], b2, i2[k]) {
      SameThen(blocks, inodes[k], b1, i1[k], b2, i2[k]);
    }
  }

  lemma SameThen(blocks: seq<Block>, ino: Inode, b1: seq<Block>, ino1: Inode, b2: seq<Block>, ino2: Inode)
    requires FileSame(blocks, ino, b1, ino1) && FileSame(b1, ino1, b2, ino2)
    ensures FileSame(blocks, ino, b2, ino2)
  {
    forall n: nat | n < MAXFILE ensures SlotSame(blocks, ino, b2, ino2, n) {
      assert SlotSame(blocks, ino, b1, ino1, n) && SlotSame(b1, ino1, b2, ino2, n);
    }
  }

  /** A file whose blocks are the same has the same content, if it has all the blocks of its size. */
  lemma ContentSame(blocks: seq<Block>, ino: Inode, blocks': seq<Block>, ino': Inode)
    requires FileSame(blocks, ino, blocks', ino') && Dense(blocks, ino, BlocksOf(ino.size))
    ensures Content(blocks', ino') == Content(blocks, ino) && Dense(blocks', ino', BlocksOf(ino.size))
  {
    forall k: nat | k < ino.size ensures ByteAt(blocks', ino', k) == ByteAt(blocks, ino, k) {
      assert SlotSame(blocks, ino, blocks', ino', k / BSIZE);
    }
    forall n: nat | n < MAXFILE ensures Slot(blocks', ino', n) != 0 <==> n < BlocksOf(ino.size) {
      assert SlotSame(blocks, ino, blocks', ino', n);
    }
  }

  // ----- a block that holds neither entries nor is in any slot -----

  ghost predicate Idle(owner: seq<Use>, b: nat) { b < |owner| && (owner[b] == Free || owner[b] == Held) }

  lemma IdleEntry(blocks: seq<Block>, inodes: seq<Inode>, owner: seq<Use>, b: nat, row: Block, i: nat, j: nat)
    requires Inv(blocks, inodes, owner) && b < |owner| && !owner[b].Addr? && i < |inodes|
    ensures EntryOf(blocks[b := row], inodes[i], j) == EntryOf(blocks, inodes[i], j)
  {
    assert AddrOk(blocks, inodes, owner, i, NDIRECT);
  }

  lemma IdleSame(blocks: seq<Block>, inodes: seq<Inode>, owner: seq<Use>, b: nat, row: Block, i: nat)
    requires Inv(blocks, inodes, owner) && Idle(owner, b) && i < |inodes|
    ensures FileSame(blocks, inodes[i], blocks[b := row], inodes[i])
  {
    var m := blocks[b := row];
    forall n: nat | n < MAXFILE ensures SlotSame(blocks, inodes[i], m, inodes[i], n) {
      if n >= NDIRECT { IdleEntry(blocks, inodes, owner, b, row, i, n - NDIRECT); }
      if Slot(blocks, inodes[i], n) != 0 { SlotOwned(blocks, inodes, owner, i, n); }
    }
  }

  /** A free or held block may get any content and pass between those uses. */
  lemma RewriteIdle(blocks: seq<Block>, inodes: seq<Inode>, owner: seq<Use>, b: nat, row: Block, u: Use)
    requires Inv(blocks, inodes, owner) && Idle(owner, b) && IsBlock(row) && (u == Free || u == Held)
    ensures Inv(blocks[b := row], inodes, owner[b := u])
    ensures OthersSame(blocks, inodes, blocks[b := row], inodes, -1)
  {
    var m, o := blocks[b := row], owner[b := u];
    forall i: nat, a: nat ensures AddrOk(m, inodes, o, i, a) {
      assert AddrOk(blocks, inodes, owner, i, a);
    }
    forall i: nat, j: nat ensures EntryOk(m, inodes, o, i, j) {
      assert EntryOk(blocks, inodes, owner, i, j);
      if i < |inodes| { IdleEntry(blocks, inodes, owner, b, row, i, j); }
    }
    forall c: nat | c < |o| ensures UseOk(m, inodes, o, c) {
      assert UseOk(blocks, inodes, owner, c);
      if owner[c].Entry? { IdleEntry(blocks, inodes, owner, b, row, owner[c].i, owner[c].j); }
    }
    forall i: nat | i < |inodes| ensures FileSame(blocks, inodes[i], m, inodes[i]) {
      IdleSame(blocks, inodes, owner, b, row, i);
    }
  }

  // ----- new blocks -----

  function WithAddr(inodes: seq<Inode>, i: nat, a: nat, b: nat): (r: seq<Inode>)
    requires i < |inodes| && a < |inodes[i].addrs|
    ensures |r| == |inodes|
  {
    inodes[i := inodes[i].(addrs := inodes[i].addrs[a := b])]
  }

  /** A held, zeroed block becomes address `a` of inode `i`. */
  lemma LinkAddr(blocks: seq<Block>, inodes: seq<Inode>, owner: seq<Use>, i: nat, a: nat, b: nat)
    requires Inv(blocks, inodes, owner) && i < |inodes| && a <= NDIRECT && AddrOf(inodes[i], a) == 0
    requires 0 < b < |owner| && owner[b] == Held && blocks[b] == ZeroBlock()
    ensures var r := WithAddr(inodes, i, a, b);
      && Inv(blocks, r, owner[b := Addr(i, a)])
      && OthersSame(blocks, inodes, blocks, r, i) && r[i] == inodes[i].(addrs := r[i].addrs)
      && (forall k: nat :: AddrOf(r[i], k) == if k == a then b else AddrOf(inodes[i], k))
      && (forall j: nat :: EntryOf(blocks, r[i], j) == EntryOf(blocks, inodes[i], j))
  {
    var r, o := WithAddr(inodes, i, a, b), owner[b := Addr(i, a)];
    forall j: nat ensures EntryOf(blocks, r[i], j) == EntryOf(blocks, inodes[i], j) {
      ZeroWord(j);
    }
    forall k: nat, c: nat ensures AddrOk(blocks, r, o, k, c) {
      assert AddrOk(blocks, inodes, owner, k, c);
    }
    forall k: nat, j: nat ensures EntryOk(blocks, r, o, k, j) {
      assert EntryOk(blocks, inodes, owner, k, j);
    }
    forall c: nat | c < |o| ensures UseOk(blocks, r, o, c) {
      assert UseOk(blocks, inodes, owner, c);
    }
  }

  function WithEntry(blocks: seq<Block>, ind: nat, j: nat, b: nat): (r: seq<Block>)
    requires ind < |blocks| && 4 * j + 3 < |blocks[ind]| && b < 0x1_0000_0000
    ensures |r| == |blocks|
  {
    blocks[ind := WithWord(blocks[ind], j, b)]
  }

  lemma WithEntryAt(blocks: seq<Block>, inodes: seq<Inode>, owner: seq<Use>, i: nat, j: nat, b: nat, k: nat, m: nat)
    requires Inv(blocks, inodes, owner) && i < |inodes| && j < NINDIRECT && AddrOf(inodes[i], NDIRECT) != 0
      && b < |owner|
    requires k < |inodes|
    ensures AddrOf(inodes[i], NDIRECT) < |blocks|
    ensures EntryOf(WithEntry(blocks, AddrOf(inodes[i], NDIRECT), j, b), inodes[k], m) ==
            if k == i && m == j then b else EntryOf(blocks, inodes[k], m)
  {
    assert AddrOk(blocks, inodes, owner, i, NDIRECT) && AddrOk(blocks, inodes, owner, k, NDIRECT);
    WithWordAt(blocks[AddrOf(inodes[i], NDIRECT)], j, b, m);
  }

  /** A held block becomes entry `j` of the indirect block of inode `i`. */
  lemma LinkEntry(blocks: seq<Block>, inodes: seq<Inode>, owner: seq<Use>, i: nat, j: nat, b: nat)
    requires Inv(blocks, inodes, owner) && i < |inodes| && j < NINDIRECT
    requires AddrOf(inodes[i], NDIRECT) != 0 && EntryOf(blocks, inodes[i], j) == 0
    requires 0 < b < |owner| && owner[b] == Held
    ensures AddrOf(inodes[i], NDIRECT) < |blocks|
    ensures var m := WithEntry(blocks, AddrOf(inodes[i], NDIRECT), j, b);
      && Inv(m, inodes, owner[b := Entry(i, j)])
      && OthersSame(blocks, inodes, m, inodes, i)
      && (forall k: nat :: EntryOf(m, inodes[i], k) == if k == j then b else EntryOf(blocks, inodes[i], k))
      && (forall c: nat :: c < |blocks| && c != AddrOf(inodes[i], NDIRECT) ==> m[c] == blocks[c])
  {
    assert AddrOk(blocks, inodes, owner, i, NDIRECT);
    var ind := AddrOf(inodes[i], NDIRECT);
    var m, o := WithEntry(blocks, ind, j, b), owner[b := Entry(i, j)];
    WithWordAt(blocks[ind], j, b, 0);
    forall k: nat ensures EntryOf(m, inodes[i], k) == if k == j then b else EntryOf(blocks, inodes[i], k) {
      WithEntryAt(blocks, inodes, owner, i, j, b, i, k);
    }
    forall k: nat, a: nat ensures AddrOk(m, inodes, o, k, a) {
      assert AddrOk(blocks, inodes, owner, k, a);
    }
    forall k: nat, e: nat ensures EntryOk(m, inodes, o, k, e) {
      assert EntryOk(blocks, inodes, owner, k, e);
      if k < |inodes| { WithEntryAt(blocks, inodes, owner, i, j, b, k, e); }
    }
    forall c: nat | c < |o| ensures UseOk(m, inodes, o, c) {
      assert UseOk(blocks, inodes, owner, c);
      if owner[c].Entry? { WithEntryAt(blocks, inodes, owner, i, j, b, owner[c].i, owner[c].j); }
    }
    forall k: nat | k < |inodes| && k != i ensures FileSame(blocks, inodes[k], m, inodes[k]) {
      EntryOthers(blocks, inodes, owner, i, j, b, k);
    }
  }

  lemma EntryOthers(blocks: seq<Block>, inodes: seq<Inode>, owner: seq<Use>, i: nat, j: nat, b: nat, k: nat)
    requires Inv(blocks, inodes, owner) && i < |inodes| && j < NINDIRECT && AddrOf(inodes[i], NDIRECT) != 0
      && b < |owner|
    requires k < |inodes| && k != i && AddrOf(inodes[i], NDIRECT) < |blocks|
    ensures FileSame(blocks, inodes[k], WithEntry(blocks, AddrOf(inodes[i], NDIRECT), j, b), inodes[k])
  {
    var m := WithEntry(blocks, AddrOf(inodes[i], NDIRECT), j, b);
    assert AddrOk(blocks, inodes, owner, i, NDIRECT);
    forall n: nat | n < MAXFILE ensures SlotSame(blocks, inodes[k], m, inodes[k], n) {
      if n >= NDIRECT { WithEntryAt(blocks, inodes, owner, i, j, b, k, n - NDIRECT); }
      if Slot(blocks, inodes[k], n) != 0 { SlotOwned(blocks, inodes, owner, k, n); }
    }
  }

  // ----- data -----

  /** Rewriting block `n` of file `i` changes nothing else. */
  lemma WriteSlot(blocks: seq<Block>, inodes: seq<Inode>, owner: seq<Use>, i: nat, n: nat, row: Block)
    requires Inv(blocks, inodes, owner) && i < |inodes| && Slot(blocks, inodes[i], n) != 0 && IsBlock(row)
    ensures Slot(blocks, inodes[i], n) < |blocks| && n < MAXFILE
    ensures var m := blocks[Slot(blocks, inodes[i], n) := row];
      && Inv(m, inodes, owner) && OthersSame(blocks, inodes, m, inodes, i)
      && (forall k: nat :: Slot(m, inodes[i], k) == Slot(blocks, inodes[i], k))
      && (forall k: nat :: k < MAXFILE && k != n ==> SlotSame(blocks, inodes[i], m, inodes[i], k))
  {
    SlotOwned(blocks, inodes, owner, i, n);
    var b := Slot(blocks, inodes[i], n);
    var m := blocks[b := row];
    forall k: nat, j: nat | k < |inodes| ensures EntryOf(m, inodes[k], j) == EntryOf(blocks, inodes[k], j) {
      assert AddrOk(blocks, inodes, owner, k, NDIRECT);
    }
    forall k: nat, a: nat ensures AddrOk(m, inodes, owner, k, a) {
      assert AddrOk(blocks, inodes, owner, k, a);
    }
    forall k: nat, j: nat ensures EntryOk(m, inodes, owner, k, j) {
      assert EntryOk(blocks, inodes, owner, k, j);
    }
    forall c: nat | c < |owner| ensures UseOk(m, inodes, owner, c) {
      assert UseOk(blocks, inodes, owner, c);
    }
    forall k: nat, e: nat | k < |inodes| && e < MAXFILE && !(k == i && e == n)
      ensures SlotSame(blocks, inodes[k], m, inodes[k], e) {
      if Slot(blocks, inodes[k], e) == b { SlotsDistinct(blocks, inodes, owner, k, e, i, n); }
    }
  }

  // ----- giving blocks up -----

  /** Clearing a direct address: its block becomes held. */
  lemma DropAddr(blocks: seq<Block>, inodes: seq<Inode>, owner: seq<Use>, i: nat, a: nat)
    requires Inv(blocks, inodes, owner) && i < |inodes| && a < NDIRECT && AddrOf(inodes[i], a) != 0
    ensures var b, r := AddrOf(inodes[i], a), WithAddr(inodes, i, a, 0);
      && b < |owner| && owner[b] == Addr(i, a)
      && Inv(blocks, r, owner[b := Held]) && OthersSame(blocks, inodes, blocks, r, i)
  {
    var b, r := AddrOf(inodes[i], a), WithAddr(inodes, i, a, 0);
    assert AddrOk(blocks, inodes, owner, i, a);
    var o := owner[b := Held];
    forall k: nat, c: nat ensures AddrOk(blocks, r, o, k, c) {
      assert AddrOk(blocks, inodes, owner, k, c);
    }
    forall k: nat, j: nat ensures EntryOk(blocks, r, o, k, j) {
      assert EntryOk(blocks, inodes, owner, k, j);
    }
    forall c: nat | c < |o| ensures UseOk(blocks, r, o, c) {
      assert UseOk(blocks, inodes, owner, c);
    }
  }

  /** The indirect block of `i` and the blocks it names become held. */
  ghost function Detached(owner: seq<Use>, i: nat): (o: seq<Use>)
    ensures |o| == |owner|
  {
    seq(|owner|, b requires 0 <= b < |owner| =>
      if owner[b] == Addr(i, NDIRECT) || (owner[b].Entry? && owner[b].i == i) then Held else owner[b])
  }

  lemma DropIndirect(blocks: seq<Block>, inodes: seq<Inode>, owner: seq<Use>, i: nat)
    requires Inv(blocks, inodes, owner) && i < |inodes|
    ensures var r := WithAddr(inodes, i, NDIRECT, 0);
      Inv(blocks, r, Detached(owner, i)) && OthersSame(blocks, inodes, blocks, r, i)
  {
    var r, o := WithAddr(inodes, i, NDIRECT, 0), Detached(owner, i);
    forall k: nat, c: nat ensures AddrOk(blocks, r, o, k, c) {
      assert AddrOk(blocks, inodes, owner, k, c);
    }
    forall k: nat, j: nat ensures EntryOk(blocks, r, o, k, j) {
      assert EntryOk(blocks, inodes, owner, k, j);
    }
    forall c: nat | c < |o| ensures UseOk(blocks, r, o, c) {
      assert UseOk(blocks, inodes, owner, c);
    }
  }

  /** The other fields of an inode have no part in this. */
  lemma SetFields(blocks: seq<Block>, inodes: seq<Inode>, owner: seq<Use>, i: nat, ino: Inode)
    requires Inv(blocks, inodes, owner) && i < |inodes| && ino.addrs == inodes[i].addrs
    ensures Inv(blocks, inodes[i := ino], owner) && OthersSame(blocks, inodes, blocks, inodes[i := ino], i)
    ensures forall n: nat :: SlotSame(blocks, inodes[i], blocks, ino, n)
  {
    var r := inodes[i := ino];
    forall k: nat, c: nat ensures AddrOk(blocks, r, owner, k, c) {
      assert AddrOk(blocks, inodes, owner, k, c);
    }
    forall k: nat, j: nat ensures EntryOk(blocks, r, owner, k, j) {
      assert EntryOk(blocks, inodes, owner, k, j);
    }
    forall c: nat | c < |owner| ensures UseOk(blocks, r, owner, c) {
      assert UseOk(blocks, inodes, owner, c);
    }
  }
}
