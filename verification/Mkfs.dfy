/**
 mkfs: the image every file system starts from. Blocks are handed out in order, so the bitmap is a prefix.
 */
module Mkfs {
  import opened FsBlocks
  import opened Fs
  import opened FsLogged
  import opened Options

  /** The use of blocks while the image is built: metadata, blocks handed out, blocks still free. */
  ghost predicate InOrder(owner: seq<Use>, nmeta: nat, freeblock: nat) {
    && nmeta <= freeblock <= |owner|
    && NoneHeld(owner)
    && forall b: nat :: b < |owner| ==> if b < nmeta then owner[b] == Meta else (owner[b] == Free <==> b >= freeblock)
  }

  ghost predicate ZeroFrom(blocks: seq<Block>, freeblock: nat) {
    forall b: nat :: freeblock <= b < |blocks| ==> blocks[b] == ZeroBlock()
  }

  /** A free, zeroed block taken into use as address `a` of inode `i`. */
  lemma TakeAddr(blocks: seq<Block>, inodes: seq<Inode>, owner: seq<Use>, i: nat, a: nat, b: nat)
    requires Inv(blocks, inodes, owner) && i < |inodes| && a <= NDIRECT && AddrOf(inodes[i], a) == 0
    requires 0 < b < |owner| && owner[b] == Free && blocks[b] == ZeroBlock()
    ensures var r := WithAddr(inodes, i, a, b);
      && Inv(blocks, r, owner[b := Addr(i, a)])
      && OthersSame(blocks, inodes, blocks, r, i) && r[i] == inodes[i].(addrs := r[i].addrs)
      && (forall k: nat :: AddrOf(r[i], k) == if k == a then b else AddrOf(inodes[i], k))
      && (forall j: nat :: EntryOf(blocks, r[i], j) == EntryOf(blocks, inodes[i], j))
  {
    RewriteIdle(blocks, inodes, owner, b, blocks[b], Held);
    assert blocks[b := blocks[b]] == blocks;
    LinkAddr(blocks, inodes, owner[b := Held], i, a, b);
    assert owner[b := Held][b := Addr(i, a)] == owner[b := Addr(i, a)];
  }

  /** The same for entry `j` of the indirect block. */
  lemma TakeEntry(blocks: seq<Block>, inodes: seq<Inode>, owner: seq<Use>, i: nat, j: nat, b: nat)
    requires Inv(blocks, inodes, owner) && i < |inodes| && j < NINDIRECT
    requires AddrOf(inodes[i], NDIRECT) != 0 && EntryOf(blocks, inodes[i], j) == 0
    requires 0 < b < |owner| && owner[b] == Free
    ensures AddrOf(inodes[i], NDIRECT) < |blocks|
    ensures var m := WithEntry(blocks, AddrOf(inodes[i], NDIRECT), j, b);
      && Inv(m, inodes, owner[b := Entry(i, j)])
      && OthersSame(blocks, inodes, m, inodes, i)
      && (forall k: nat :: EntryOf(m, inodes[i], k) == if k == j then b else EntryOf(blocks, inodes[i], k))
      && (forall c: nat :: c < |blocks| && c != AddrOf(inodes[i], NDIRECT) ==> m[c] == blocks[c])
  {
    RewriteIdle(blocks, inodes, owner, b, blocks[b], Held);
    assert blocks[b := blocks[b]] == blocks;
    LinkEntry(blocks, inodes, owner[b := Held], i, j, b);
    assert owner[b := Held][b := Entry(i, j)] == owner[b := Entry(i, j)];
  }

  class Image {
    const nmeta: nat
    var blocks: seq<Block>
    var dinodes: seq<Inode>
    var freeblock: nat
    var freeinode: nat
    ghost var owner: seq<Use>

    ghost predicate Valid()
      reads this
    {
      && Inv(blocks, dinodes, owner) && InOrder(owner, nmeta, freeblock) && ZeroFrom(blocks, freeblock) && 0 < nmeta
      && 0 < freeinode <= |dinodes| && forall k: nat :: freeinode <= k < |dinodes| ==> dinodes[k] == Cleared(0)
    }

    /** The zeroed image with its metadata blocks set aside. */
    constructor (size: nat, nmeta: nat, ninodes: nat)
      requires 0 < nmeta <= size < 0x1_0000_0000 && 0 < ninodes
      ensures Valid() && this.nmeta == nmeta && freeblock == nmeta && freeinode == 1 && |blocks| == size
        && |dinodes| == ninodes
      ensures AllDense(blocks, dinodes) && KindsOk(dinodes, 1)
    {
      this.nmeta := nmeta;
      blocks := seq(size, _ => ZeroBlock());
      dinodes := seq(ninodes, _ => Cleared(0));
      freeblock := nmeta;
      freeinode := 1;
      owner := seq(size, b requires 0 <= b < size => if b < nmeta then Meta else Free);
    }

    /** mkfs's ialloc */
    method IAlloc(kind: nat) returns (inum: nat)
      requires Valid() && AllDense(blocks, dinodes) && freeinode < |dinodes| && kind != 0
      modifies `dinodes, `freeinode
      ensures Valid() && AllDense(blocks, dinodes) && inum == old(freeinode) && freeinode == inum + 1
      ensures dinodes == old(dinodes)[inum := Cleared(kind).(nlink := 1)]
      ensures OthersSame(blocks, old(dinodes), blocks, dinodes, inum)
    {
      inum := freeinode;
      var din := Cleared(kind).(nlink := 1);
      SetFields(blocks, dinodes, owner, inum, din);
      DenseFields(blocks, dinodes[inum], din, 0);
      freeinode := freeinode + 1;
      dinodes := dinodes[inum := din];
    }

    /** The part of iappend that finds or adds block `n` of a file. Fails when the image is full. */
    method MapBlock(i: nat, n: nat) returns (ok: bool, x: nat)
      requires Valid() && i < freeinode && n < MAXFILE
      modifies `blocks, `dinodes, `freeblock, `owner
      ensures Valid() && |dinodes| == |old(dinodes)| && |blocks| == |old(blocks)|
        && OthersSame(old(blocks), old(dinodes), blocks, dinodes, i)
      ensures old(Slot(blocks, dinodes[i], n)) != 0 ==> ok && blocks == old(blocks) && dinodes == old(dinodes)
      ensures ok <==> old(freeblock + Need(blocks, dinodes[i], n)) <= |blocks|
      ensures ok ==> freeblock == old(freeblock + Need(blocks, dinodes[i], n))
      ensures ok ==> x == Slot(blocks, dinodes[i], n) && Extended(old(blocks), old(dinodes)[i], blocks, dinodes[i], n)
    {
      if n < NDIRECT {
        ok, x := MapDirect(i, n);
      } else {
        ok, x := MapIndirect(i, n - NDIRECT);
      }
    }

    method MapDirect(i: nat, n: nat) returns (ok: bool, x: nat)
      requires Valid() && i < freeinode && n < NDIRECT
      modifies `blocks, `dinodes, `freeblock, `owner
      ensures Valid() && |dinodes| == |old(dinodes)| && blocks == old(blocks)
        && OthersSame(old(blocks), old(dinodes), blocks, dinodes, i)
      ensures old(AddrOf(dinodes[i], n)) != 0 ==> ok && dinodes == old(dinodes)
      ensures ok <==> old(freeblock + Need(blocks, dinodes[i], n)) <= |blocks|
      ensures ok ==> freeblock == old(freeblock + Need(blocks, dinodes[i], n))
      ensures ok ==> x == AddrOf(dinodes[i], n) && Extended(old(blocks), old(dinodes)[i], blocks, dinodes[i], n)
    {
      forall k: nat | k < |dinodes| ensures FileSame(blocks, dinodes[k], blocks, dinodes[k]) {}
      if dinodes[i].addrs[n] == 0 {
        ok := AddAddr(i, n);
        if !ok { return false, 0; }
      }
      return true, dinodes[i].addrs[n];
    }

    method MapIndirect(i: nat, j: nat) returns (ok: bool, x: nat)
      requires Valid() && i < freeinode && j < NINDIRECT
      modifies `blocks, `dinodes, `freeblock, `owner
      ensures Valid() && |dinodes| == |old(dinodes)| && |blocks| == |old(blocks)|
        && OthersSame(old(blocks), old(dinodes), blocks, dinodes, i)
      ensures old(EntryOf(blocks, dinodes[i], j)) != 0 ==> ok && blocks == old(blocks) && dinodes == old(dinodes)
      ensures ok <==> old(freeblock + Need(blocks, dinodes[i], NDIRECT + j)) <= |blocks|
      ensures ok ==> freeblock == old(freeblock + Need(blocks, dinodes[i], NDIRECT + j))
      ensures ok ==>
        x == EntryOf(blocks, dinodes[i], j) && Extended(old(blocks), old(dinodes)[i], blocks, dinodes[i], NDIRECT + j)
    {
      ghost var blocks0, dinodes0 := blocks, dinodes;
      forall k: nat | k < |dinodes| ensures FileSame(blocks, dinodes[k], blocks, dinodes[k]) {}
      if dinodes[i].addrs[NDIRECT] == 0 {
        ok := AddAddr(i, NDIRECT);
        if !ok { return false, 0; }
      }
      ghost var blocks1, dinodes1 := blocks, dinodes;
      assert AddrOk(blocks, dinodes, owner, i, NDIRECT);
      assert SlotSame(blocks0, dinodes0[i], blocks1, dinodes1[i], NDIRECT + j);
      x := Word(blocks[dinodes[i].addrs[NDIRECT]], j);
      if x != 0 { return true, x; }
      ok := AddEntry(i, j);
      OthersThen(blocks0, dinodes0, blocks1, dinodes1, blocks, dinodes, i);
      if ok {
        ExtendedThen(blocks0, dinodes0[i], blocks1, dinodes1[i], blocks, NDIRECT + j);
        x := EntryOf(blocks, dinodes[i], j);
      }
    }

    /** freeblock++ into an address */
    method AddAddr(i: nat, a: nat) returns (ok: bool)
      requires Valid() && i < freeinode && a <= NDIRECT && AddrOf(dinodes[i], a) == 0
      modifies `dinodes, `freeblock, `owner
      ensures Valid() && |dinodes| == |old(dinodes)| && OthersSame(blocks, old(dinodes), blocks, dinodes, i)
      ensures ok <==> old(freeblock) < |blocks|
      ensures !ok ==> dinodes == old(dinodes) && freeblock == old(freeblock)
      ensures ok ==> freeblock == old(freeblock) + 1
      ensures ok ==>
        dinodes[i] == old(dinodes)[i].(addrs := dinodes[i].addrs) && AddrOf(dinodes[i], a) == old(freeblock) != 0
      ensures ok ==> forall c: nat :: c != a ==> AddrOf(dinodes[i], c) == AddrOf(old(dinodes)[i], c)
      ensures ok ==> forall k: nat :: k < MAXFILE && !(k == a < NDIRECT) ==>
        SlotSame(blocks, old(dinodes)[i], blocks, dinodes[i], k)
    {
      forall k: nat | k < |dinodes| ensures FileSame(blocks, dinodes[k], blocks, dinodes[k]) {}
      if freeblock >= |blocks| { return false; }
      TakeAddr(blocks, dinodes, owner, i, a, freeblock);
      dinodes := WithAddr(dinodes, i, a, freeblock);
      owner := owner[freeblock := Addr(i, a)];
      freeblock := freeblock + 1;
      ok := true;
    }

    /** freeblock++ into an entry of the indirect block */
    method AddEntry(i: nat, j: nat) returns (ok: bool)
      requires Valid() && i < freeinode && j < NINDIRECT && AddrOf(dinodes[i], NDIRECT) != 0
        && EntryOf(blocks, dinodes[i], j) == 0
      modifies `blocks, `freeblock, `owner
      ensures Valid() && |blocks| == |old(blocks)| && OthersSame(old(blocks), dinodes, blocks, dinodes, i)
      ensures ok <==> old(freeblock) < |blocks|
      ensures ok ==> freeblock == old(freeblock) + 1
      ensures ok ==> EntryOf(blocks, dinodes[i], j) == old(freeblock) != 0
      ensures ok ==> forall k: nat :: k < MAXFILE && k != NDIRECT + j ==>
        SlotSame(old(blocks), dinodes[i], blocks, dinodes[i], k)
    {
      ghost var blocks0, owner0 := blocks, owner;
      forall k: nat | k < |dinodes| ensures FileSame(blocks, dinodes[k], blocks, dinodes[k]) {}
      if freeblock >= |blocks| { return false; }
      assert AddrOk(blocks, dinodes, owner, i, NDIRECT);
      TakeEntry(blocks, dinodes, owner, i, j, freeblock);
      blocks := WithEntry(blocks, dinodes[i].addrs[NDIRECT], j, freeblock);
      owner := owner[freeblock := Entry(i, j)];
      freeblock := freeblock + 1;
      forall k: nat | k < MAXFILE && k != NDIRECT + j ensures SlotSame(blocks0, dinodes[i], blocks, dinodes[i], k) {
        if Slot(blocks0, dinodes[i], k) != 0 { SlotOwned(blocks0, dinodes, owner0, i, k); }
      }
      ok := true;
    }

    /** One round of iappend's loop. The file reaches to byte `v` so far. */
    method AppendRound(i: nat, data: seq<nat>, v: nat, ghost need: nat) returns (ok: bool)
      requires Valid() && i < freeinode && Dense(blocks, dinodes[i], BlocksOf(v)) && IsBytes(data)
      requires 0 < |data| <= BSIZE - v % BSIZE && v + |data| <= MAXFILE * BSIZE
      requires need == Need(blocks, dinodes[i], v / BSIZE)
      modifies `blocks, `dinodes, `freeblock, `owner
      ensures Valid() && |dinodes| == |old(dinodes)| && |blocks| == |old(blocks)|
        && OthersSame(old(blocks), old(dinodes), blocks, dinodes, i)
      ensures ok <==> old(freeblock) + need <= |blocks|
      ensures ok ==> freeblock == old(freeblock) + need
      ensures ok ==>
        dinodes[i] == old(dinodes)[i].(addrs := dinodes[i].addrs) && Dense(blocks, dinodes[i], BlocksOf(v + |data|))
      ensures ok ==> Bytes(blocks, dinodes[i], v + |data|) == old(Bytes(blocks, dinodes[i], v)) + data
    {
      ghost var blocks0, dinodes0 := blocks, dinodes;
      var n := v / BSIZE;
      var x;
      ok, x := MapBlock(i, n);
      if !ok { return; }
      ghost var blocks1, dinodes1 := blocks, dinodes;
      DenseNext(blocks0, dinodes0[i], blocks, dinodes[i], n, BlocksOf(v));
      SlotOwned(blocks, dinodes, owner, i, n);
      var row := Spliced(blocks[x], v % BSIZE, data);
      PatchedBlock(blocks[x], v % BSIZE, data);
      WriteSlot(blocks, dinodes, owner, i, n, row);
      blocks := blocks[x := row];
      OthersThen(blocks0, dinodes0, blocks1, dinodes1, blocks, dinodes, i);
      RoundAll(blocks0, dinodes0[i], blocks1, dinodes1[i], blocks, v, data, v, v + |data|);
      SplicedEnd(Bytes(blocks0, dinodes0[i], v), data);
    }

    /** iappend; it stops exactly where the file or the image is full. */
    method IAppend(i: nat, data: seq<nat>) returns (ok: bool)
      requires Valid() && i < freeinode && AllDense(blocks, dinodes) && IsBytes(data)
      modifies `blocks, `dinodes, `freeblock, `owner
      ensures Valid() && |dinodes| == |old(dinodes)| && |blocks| == |old(blocks)|
      ensures ok <==> AppendFits(old(dinodes)[i].size, |data|, old(freeblock), |blocks|)
      ensures ok ==> freeblock == old(freeblock) + Cost(old(dinodes)[i].size, old(dinodes)[i].size, |data|)
      ensures ok ==> AllDense(blocks, dinodes) && Content(blocks, dinodes[i]) == old(Content(blocks, dinodes[i])) + data
      ensures ok ==> dinodes[i] == old(dinodes)[i].(addrs := dinodes[i].addrs, size := old(dinodes)[i].size + |data|)
      ensures ok ==> forall k: nat :: k < |dinodes| && k != i ==>
        dinodes[k] == old(dinodes)[k] && Content(blocks, dinodes[k]) == old(Content(blocks, dinodes[k]))
    {
      ghost var blocks0, dinodes0 := blocks, dinodes;
      var size := dinodes[i].size;
      ok := AppendLoop(i, data);
      if !ok { return; }
      ghost var dinodes1 := dinodes;
      SetFields(blocks, dinodes, owner, i, dinodes[i].(size := size + |data|));
      dinodes := dinodes[i := dinodes[i].(size := size + |data|)];
      SplicedEnd(Content(blocks0, dinodes0[i]), data);
      Rewritten(blocks0, dinodes0, blocks, dinodes1, dinodes, i, data, size);
    }

    /** iappend's loop */
    method AppendLoop(i: nat, data: seq<nat>) returns (ok: bool)
      requires Valid() && i < freeinode && Dense(blocks, dinodes[i], BlocksOf(dinodes[i].size)) && IsBytes(data)
      modifies `blocks, `dinodes, `freeblock, `owner
      ensures Valid() && |dinodes| == |old(dinodes)| && |blocks| == |old(blocks)|
        && OthersSame(old(blocks), old(dinodes), blocks, dinodes, i)
      ensures ok <==> AppendFits(old(dinodes)[i].size, |data|, old(freeblock), |blocks|)
      ensures ok ==> freeblock == old(freeblock) + Cost(old(dinodes)[i].size, old(dinodes)[i].size, |data|)
      ensures ok ==> Appending(old(blocks), old(dinodes), blocks, dinodes, i, data)
    {
      ghost var blocks0, dinodes0, free0 := blocks, dinodes, freeblock;
      forall k: nat | k < |dinodes| ensures FileSame(blocks, dinodes[k], blocks, dinodes[k]) {}
      var off, done := dinodes[i].size, 0;
      assert Content(blocks, dinodes[i]) + data[..0] == Content(blocks, dinodes[i]);
      while done < |data|
        invariant done <= |data| && Valid() && |blocks| == |blocks0|
          && Appending(blocks0, dinodes0, blocks, dinodes, i, data[..done])
        invariant freeblock == free0 + Cost(off, off, done) <= |blocks|
      {
        if off + done >= MAXFILE * BSIZE { return false; }
        ok, done := AppendStep(i, data, off, done, blocks0, dinodes0, free0);
        if !ok { return; }
      }
      assert data[..done] == data;
      ok := true;
    }

    /** One round of the loop with the blocks it takes. */
    method AppendStep(i: nat, data: seq<nat>, off: nat, done: nat, ghost blocks0: seq<Block>,
                      ghost dinodes0: seq<Inode>, ghost free0: nat)
      returns (ok: bool, done': nat)
      requires Valid() && i < freeinode && IsBytes(data) && done < |data| && off + done < MAXFILE * BSIZE
        && i < |dinodes0| && off == dinodes0[i].size
      requires Appending(blocks0, dinodes0, blocks, dinodes, i, data[..done])
        && freeblock == free0 + Cost(off, off, done)
      modifies `blocks, `dinodes, `freeblock, `owner
      ensures Valid() && |blocks| == |old(blocks)| && OthersSame(blocks0, dinodes0, blocks, dinodes, i)
        && done < done' <= |data|
      ensures ok ==> Appending(blocks0, dinodes0, blocks, dinodes, i, data[..done'])
      ensures ok ==> freeblock == free0 + Cost(off, off, done') <= |blocks|
      ensures !ok ==> !AppendFits(off, |data|, free0, |blocks|)
    {
      done' := done + RoundLen(off, done, |data|);
      ghost var need := Need(blocks, dinodes[i], (off + done) / BSIZE);
      AppendNeed(blocks, dinodes[i], off, done, done', |data|);
      ok := AppendNext(i, data, off, done, done', blocks0, dinodes0, need);
    }

    /** AppendRound as a step from one state of the loop to the next. */
    method AppendNext(i: nat, data: seq<nat>, off: nat, done: nat, done': nat, ghost blocks0: seq<Block>,
                      ghost dinodes0: seq<Inode>,
                      ghost need: nat) returns (ok: bool)
      requires Valid() && i < freeinode && IsBytes(data) && off + done' <= MAXFILE * BSIZE && i < |dinodes0|
        && off == dinodes0[i].size
      requires RoundTo(off, done, done', |data|) && need == Need(blocks, dinodes[i], (off + done) / BSIZE)
      requires Appending(blocks0, dinodes0, blocks, dinodes, i, data[..done])
      modifies `blocks, `dinodes, `freeblock, `owner
      ensures Valid() && |blocks| == |old(blocks)| && OthersSame(blocks0, dinodes0, blocks, dinodes, i)
      ensures ok <==> old(freeblock) + need <= |blocks|
      ensures ok ==> freeblock == old(freeblock) + need
      ensures ok ==> Appending(blocks0, dinodes0, blocks, dinodes, i, data[..done'])
    {
      ghost var blocks1, dinodes1 := blocks, dinodes;
      var chunk := data[done..done'];
      ok := AppendRound(i, chunk, off + done, need);
      OthersThen(blocks0, dinodes0, blocks1, dinodes1, blocks, dinodes, i);
      if ok { AppendedNext(blocks0, dinodes0, blocks1, dinodes1, blocks, dinodes, i, data, done, done', chunk); }
    }

    /**
     mkfs's main: a root directory, one file for each argument, the root size rounded up, and the bitmap.
     The rounding always adds at least a byte, so a directory that exactly fills its blocks comes out one
     block larger than what it has.
     */
    method Build(dot: seq<nat>, dotdot: seq<nat>, files: seq<Source>) returns (ok: bool, bits: seq<bool>)
      requires Valid() && freeinode == 1 && AllDense(blocks, dinodes) && KindsOk(dinodes, 1) && |files| + 2 <= |dinodes|
      requires IsDirent(dot) && IsDirent(dotdot) && forall k: nat :: k < |files| ==>
        IsDirent(files[k].dirent) && IsBytes(files[k].content)
      modifies this
      ensures ok <==> ImageFits(files, old(freeblock), |old(blocks)|) && ImageEnd(files, old(freeblock)) < BPB
      ensures ok ==> Inv(blocks, dinodes, owner) && BitsOk(bits, owner) && NoneHeld(owner)
      ensures ok ==> KindsOk(dinodes, |files| + 2)
      ensures ok ==> |owner| == |old(blocks)| && forall b: nat :: b < |owner| && b < nmeta ==> owner[b] == Meta
      ensures ok ==> |dinodes| == |old(dinodes)| && dinodes[ROOT].size == (DIRENT * (|files| + 2) / BSIZE + 1) * BSIZE
      ensures ok ==> Content(blocks, dinodes[ROOT])[..DIRENT * (|files| + 2)] == Listing(dot, dotdot, files)
      ensures ok ==> forall k: nat :: k < |files| ==> Content(blocks, dinodes[k + 2]) == files[k].content
      ensures ok ==> (AllDense(blocks, dinodes) <==> (|files| + 2) % (BSIZE / DIRENT) != 0)
    {
      bits := [];
      ImagePrefix(files, 0, freeblock, |blocks|);
      ok := MakeRoot(dot, dotdot);
      if !ok { return; }
      ok := AddFiles(dot, dotdot, files, old(freeblock));
      if !ok { return; }
      if freeblock >= BPB { return false, []; }
      ListingSize(dot, dotdot, files);
      bits := FixRoot(|files|);
    }

    /** The root directory with its own two entries. */
    method MakeRoot(dot: seq<nat>, dotdot: seq<nat>) returns (ok: bool)
      requires Valid() && freeinode == 1 < |dinodes| && AllDense(blocks, dinodes) && IsDirent(dot) && IsDirent(dotdot)
      requires KindsOk(dinodes, 1)
      modifies this
      ensures |dinodes| == |old(dinodes)| && |blocks| == |old(blocks)|
      ensures ok <==> ImageFits([], old(freeblock), |blocks|)
      ensures ok ==> freeblock == ImageEnd([], old(freeblock)) && KindsOk(dinodes, 2)
      ensures ok ==>
        Valid() && AllDense(blocks, dinodes) && freeinode == 2 && Content(blocks, dinodes[ROOT]) == dot + dotdot
    {
      var root := IAlloc(T_DIR);
      assert Content(blocks, dinodes[root]) == [];
      ok := IAppend(root, dot);
      if !ok { return; }
      ok := IAppend(root, dotdot);
    }

    /** The last two steps: the size of the root directory and the bitmap. */
    method FixRoot(ghost n: nat) returns (bits: seq<bool>)
      requires Valid() && AllDense(blocks, dinodes) && KindsOk(dinodes, n + 2) && ROOT < |dinodes|
        && dinodes[ROOT].size == DIRENT * (n + 2)
      modifies `dinodes
      ensures Inv(blocks, dinodes, owner) && BitsOk(bits, owner) && NoneHeld(owner) && |dinodes| == |old(dinodes)|
      ensures KindsOk(dinodes, n + 2)
      ensures dinodes[ROOT].size == (old(dinodes)[ROOT].size / BSIZE + 1) * BSIZE
      ensures Content(blocks, dinodes[ROOT])[..old(dinodes)[ROOT].size] == old(Content(blocks, dinodes[ROOT]))
      ensures forall k: nat :: k < |dinodes| && k != ROOT ==> dinodes[k] == old(dinodes)[k]
      ensures AllDense(blocks, dinodes) <==> (n + 2) % (BSIZE / DIRENT) != 0
    {
      bits := Bitmap();
      ghost var dinodes0 := dinodes;
      var size := (dinodes[ROOT].size / BSIZE + 1) * BSIZE;
      SetFields(blocks, dinodes, owner, ROOT, dinodes[ROOT].(size := size));
      dinodes := dinodes[ROOT := dinodes[ROOT].(size := size)];
      RootFixed(blocks, dinodes0, dinodes, n);
    }

    /** mkfs's loop over its arguments */
    method AddFiles(ghost dot: seq<nat>, ghost dotdot: seq<nat>, files: seq<Source>, ghost free0: nat)
      returns (ok: bool)
      requires Valid() && AllDense(blocks, dinodes) && freeinode == 2 && |files| + 2 <= |dinodes| && IsDirent(dot)
        && IsDirent(dotdot)
      requires Content(blocks, dinodes[ROOT]) == Listing(dot, dotdot, []) && KindsOk(dinodes, 2)
      requires ImageFits([], free0, |blocks|) && freeblock == ImageEnd([], free0)
      requires forall k: nat :: k < |files| ==> IsDirent(files[k].dirent) && IsBytes(files[k].content)
      modifies this
      ensures |dinodes| == |old(dinodes)| && |blocks| == |old(blocks)|
      ensures ok <==> ImageFits(files, free0, |blocks|)
      ensures ok ==> freeblock == ImageEnd(files, free0) && KindsOk(dinodes, |files| + 2)
      ensures ok ==>
        Valid() && AllDense(blocks, dinodes) && Content(blocks, dinodes[ROOT]) == Listing(dot, dotdot, files)
      ensures ok ==> forall k: nat :: k < |files| ==> Content(blocks, dinodes[k + 2]) == files[k].content
    {
      var i := 0;
      assert files[..0] == [];
      while i < |files|
        invariant i <= |files| && Adding(dot, dotdot, files, i, free0)
        invariant |dinodes| == |old(dinodes)| && |blocks| == |old(blocks)|
      {
        ok := AddNext(dot, dotdot, files, i, free0);
        if !ok { return; }
        i := i + 1;
      }
      assert files[..i] == files;
      ok := true;
    }

    /** mkfs's loop after `i` arguments. */
    ghost predicate Adding(dot: seq<nat>, dotdot: seq<nat>, files: seq<Source>, i: nat, free0: nat)
      reads this
      requires i <= |files|
    {
      && Valid() && AllDense(blocks, dinodes) && KindsOk(dinodes, i + 2) && freeinode == i + 2
      && ImageFits(files[..i], free0, |blocks|) && freeblock == ImageEnd(files[..i], free0)
      && Content(blocks, dinodes[ROOT]) == Listing(dot, dotdot, files[..i])
      && forall k: nat :: k < i ==> Content(blocks, dinodes[k + 2]) == files[k].content
    }

    method AddNext(ghost dot: seq<nat>, ghost dotdot: seq<nat>, files: seq<Source>, i: nat, ghost free0: nat)
      returns (ok: bool)
      requires i < |files| && |files| + 2 <= |dinodes| && IsDirent(dot) && IsDirent(dotdot)
      requires forall k: nat :: k < |files| ==> IsDirent(files[k].dirent) && IsBytes(files[k].content)
      requires Adding(dot, dotdot, files, i, free0)
      modifies this
      ensures |dinodes| == |old(dinodes)| && |blocks| == |old(blocks)|
      ensures if ok then Adding(dot, dotdot, files, i + 1, free0) else !ImageFits(files, free0, |blocks|)
    {
      ghost var root := dinodes[ROOT].size;
      NextFile(dot, dotdot, files, i, free0, |blocks|, root);
      ok := AddFile(files[i]);
    }

    /** One argument: a new inode, its directory entry and its content. */
    method AddFile(f: Source) returns (ok: bool)
      requires Valid() && AllDense(blocks, dinodes) && 2 <= freeinode < |dinodes| && IsDirent(f.dirent)
        && IsBytes(f.content) && KindsOk(dinodes, freeinode)
      modifies this
      ensures |dinodes| == |old(dinodes)| && |blocks| == |old(blocks)|
      ensures ok <==> FileFits(old(dinodes)[ROOT].size, f, old(freeblock), |blocks|)
      ensures ok ==>
        freeblock ==
          old(freeblock) + Cost(old(dinodes)[ROOT].size, old(dinodes)[ROOT].size, DIRENT) + Total(|f.content|)
      ensures ok ==> Valid() && AllDense(blocks, dinodes) && freeinode == old(freeinode) + 1
      ensures ok ==> KindsOk(dinodes, freeinode)
      ensures ok ==> Content(blocks, dinodes[ROOT]) == old(Content(blocks, dinodes[ROOT])) + f.dirent
      ensures ok ==> Content(blocks, dinodes[old(freeinode)]) == f.content
      ensures ok ==> forall k: nat :: 2 <= k < old(freeinode) ==>
        Content(blocks, dinodes[k]) == old(Content(blocks, dinodes[k]))
    {
      ghost var blocks0, dinodes0 := blocks, dinodes;
      var inum := IAlloc(T_FILE);
      forall k: nat | k < |dinodes0| && k != inum
        ensures Content(blocks, dinodes[k]) == Content(blocks0, dinodes0[k]) {}
      assert Content(blocks, dinodes[inum]) == [];
      ghost var dinodes1 := dinodes;
      ok := IAppend(ROOT, f.dirent);
      if !ok { return; }
      assert Content(blocks, dinodes[inum]) == [];
      ghost var dinodes2 := dinodes;
      ok := IAppend(inum, f.content);
      if ok { KindsKept(dinodes0, dinodes1, dinodes2, dinodes, inum); }
    }

    /** mkfs's balloc: the bitmap of the blocks handed out. */
    method Bitmap() returns (bits: seq<bool>)
      requires Valid()
      ensures BitsOk(bits, owner)
    {
      bits := seq(|blocks|, _ => false);
      var i := 0;
      while i < freeblock
        invariant i <= freeblock && |bits| == |blocks| && forall b: nat :: b < |bits| ==> (bits[b] <==> b < i)
      {
        bits := bits[i := true];
        i := i + 1;
      }
    }
  }

  const T_DIR := 1
  const T_FILE := 2

  /** What mkfs makes of inode `k` when it has handed out those below `n`. */
  predicate KindOk(ino: Inode, k: nat, n: nat) {
    if k == 0 || k >= n then ino.kind == 0 && ino.nlink == 0
    else ino.kind == (if k == ROOT then T_DIR else T_FILE) && ino.nlink == 1
  }

  /** The root is a directory and the others are files, each with one link, and a free inode holds nothing. */
  ghost predicate KindsOk(dinodes: seq<Inode>, n: nat) {
    FreeEmpty(dinodes) && forall k: nat :: k < |dinodes| ==> KindOk(dinodes[k], k, n)
  }

  lemma KindsKept(d0: seq<Inode>, d1: seq<Inode>, d2: seq<Inode>, d3: seq<Inode>, inum: nat)
    requires 2 <= inum < |d0| == |d1| == |d2| == |d3| && KindsOk(d0, inum)
    requires d1 == d0[inum := Cleared(T_FILE).(nlink := 1)]
    requires d2[ROOT] == d1[ROOT].(addrs := d2[ROOT].addrs, size := d2[ROOT].size)
    requires forall k: nat :: k < |d2| && k != ROOT ==> d2[k] == d1[k]
    requires d3[inum] == d2[inum].(addrs := d3[inum].addrs, size := d3[inum].size)
    requires forall k: nat :: k < |d3| && k != inum ==> d3[k] == d2[k]
    ensures KindsOk(d3, inum + 1)
  {
    assert KindOk(d0[ROOT], ROOT, inum);
    forall k: nat | k < |d3| ensures KindOk(d3[k], k, inum + 1) {
      assert KindOk(d0[k], k, inum);
    }
  }

  /**
   mkfs with its layout, and the kernel mounting the image: boot and super block, log, inode blocks, bitmap.
   The file system it starts from keeps everything it relies on, bitmap and inode blocks being metadata.
   */
  method MakeAndMount(size: nat, nlog: nat, ninodes: nat, dot: seq<nat>, dotdot: seq<nat>, files: seq<Source>)
    returns (ok: bool, fs: FileSys?)
    requires Nmeta(size, nlog, ninodes) <= size < 0x1_0000_0000 && |files| + 2 <= ninodes
    requires IsDirent(dot) && IsDirent(dotdot) && forall k: nat :: k < |files| ==>
      IsDirent(files[k].dirent) && IsBytes(files[k].content)
    ensures ok <==>
      && ImageFits(files, Nmeta(size, nlog, ninodes), size) && ImageEnd(files, Nmeta(size, nlog, ninodes)) < BPB
      && (|files| + 2) % (BSIZE / DIRENT) != 0
    ensures ok ==> fs != null && fresh(fs) && fs.Settled() && |fs.inodes| == ninodes
    ensures ok ==> KindsOk(fs.inodes, |files| + 2)
    ensures ok ==> forall k: nat :: k < |files| ==> fs.File(k + 2) == files[k].content
    ensures ok ==> forall i: nat :: i < ninodes ==> MetaBlocks(fs.owner, fs.bmapstart, fs.inodestart + i / IPB)
  {
    fs := null;
    var image := new Image(size, Nmeta(size, nlog, ninodes), ninodes);
    var bits;
    ok, bits := image.Build(dot, dotdot, files);
    ok := ok && (|files| + 2) % (BSIZE / DIRENT) != 0;
    if ok {
      fs := new FileSys(bits, image.blocks, image.dinodes, image.owner, 2 + nlog, 2 + nlog + ninodes / IPB + 1);
    }
  }

  /** The blocks mkfs sets aside. */
  function Nmeta(size: nat, nlog: nat, ninodes: nat): nat {
    2 + nlog + (ninodes / IPB + 1) + (size / BPB + 1)
  }

  const ROOT := 1
  const DIRENT := 16

  /** An argument of mkfs: its directory entry and its content. */
  datatype Source = Source(dirent: seq<nat>, content: seq<nat>)

  predicate IsDirent(d: seq<nat>) { |d| == DIRENT && IsBytes(d) }

  // ----- what fits into an image -----

  /** `n` bytes appended to a file of `size` bytes stay within the largest file and the image. */
  predicate AppendFits(size: nat, n: nat, free: nat, nblocks: nat) {
    (n == 0 || size + n <= MAXFILE * BSIZE) && free + Cost(size, size, n) <= nblocks
  }

  /** A directory entry and the content of a file. */
  predicate FileFits(root: nat, f: Source, free: nat, nblocks: nat) {
    && root + DIRENT <= MAXFILE * BSIZE && |f.content| <= MAXFILE * BSIZE
    && free + Cost(root, root, DIRENT) + Total(|f.content|) <= nblocks
  }

  /** The blocks of the files. */
  function FileBlocks(files: seq<Source>): nat {
    if files == [] then 0 else FileBlocks(files[..|files| - 1]) + Total(|files[|files| - 1].content|)
  }

  /** The first block the image does not use. */
  function ImageEnd(files: seq<Source>, free: nat): nat {
    free + Total(DIRENT * (|files| + 2)) + FileBlocks(files)
  }

  /** The root directory and every file within the largest file, and all of them within the image. */
  predicate ImageFits(files: seq<Source>, free: nat, nblocks: nat) {
    && DIRENT * (|files| + 2) <= MAXFILE * BSIZE
    && (forall k :: 0 <= k < |files| ==> |files[k].content| <= MAXFILE * BSIZE)
    && ImageEnd(files, free) <= nblocks
  }

  lemma {:induction false} ImagePrefix(files: seq<Source>, k: nat, free: nat, nblocks: nat)
    requires k <= |files|
    ensures ImageFits(files, free, nblocks) ==> ImageFits(files[..k], free, nblocks)
    decreases |files|
  {
    var n := |files| - 1;
    if k == |files| {
      assert files[..k] == files;
    } else {
      ImagePrefix(files[..n], k, free, nblocks);
      assert files[..n][..k] == files[..k];
      TotalGrows(DIRENT * (n + 2), DIRENT * (n + 3));
    }
  }

  lemma ImageNext(files: seq<Source>, k: nat, free: nat, nblocks: nat)
    requires k < |files| && ImageFits(files[..k], free, nblocks)
    ensures ImageFits(files[..k + 1], free, nblocks) <==>
      FileFits(DIRENT * (k + 2), files[k], ImageEnd(files[..k], free), nblocks)
    ensures ImageEnd(files[..k + 1], free) ==
      ImageEnd(files[..k], free) + Cost(DIRENT * (k + 2), DIRENT * (k + 2), DIRENT) + Total(|files[k].content|)
  {
    var next := files[..k + 1];
    assert next[..k] == files[..k] && next[k] == files[k];
    assert forall i :: 0 <= i < k ==> next[i] == files[..k][i];
  }

  /** What one more file means for the whole image. */
  lemma NextFile(dot: seq<nat>, dotdot: seq<nat>, files: seq<Source>, k: nat, free: nat, nblocks: nat, root: nat)
    requires k < |files| && IsDirent(dot) && IsDirent(dotdot) && forall i: nat :: i < |files| ==>
      IsDirent(files[i].dirent)
    requires ImageFits(files[..k], free, nblocks) && root == |Listing(dot, dotdot, files[..k])|
    ensures Listing(dot, dotdot, files[..k + 1]) == Listing(dot, dotdot, files[..k]) + files[k].dirent
    ensures ImageEnd(files[..k + 1], free) ==
      ImageEnd(files[..k], free) + Cost(root, root, DIRENT) + Total(|files[k].content|)
    ensures FileFits(root, files[k], ImageEnd(files[..k], free), nblocks) ==> ImageFits(files[..k + 1], free, nblocks)
    ensures !FileFits(root, files[k], ImageEnd(files[..k], free), nblocks) ==> !ImageFits(files, free, nblocks)
  {
    NextListing(dot, dotdot, files, k);
    ImageNext(files, k, free, nblocks);
    ImagePrefix(files, k + 1, free, nblocks);
  }

  lemma NextListing(dot: seq<nat>, dotdot: seq<nat>, files: seq<Source>, k: nat)
    requires k < |files| && IsDirent(dot) && IsDirent(dotdot) && forall i: nat :: i < |files| ==>
      IsDirent(files[i].dirent)
    ensures Listing(dot, dotdot, files[..k + 1]) == Listing(dot, dotdot, files[..k]) + files[k].dirent
    ensures |Listing(dot, dotdot, files[..k])| == DIRENT * (k + 2)
  {
    ListingSize(dot, dotdot, files[..k]);
    assert files[..k + 1][..k] == files[..k];
  }

  /** The blocks for one round of iappend's loop, and that they are part of what all of it needs. */
  lemma AppendNeed(blocks: seq<Block>, ino: Inode, off: nat, done: nat, done': nat, len: nat)
    requires done < len && off + done < MAXFILE * BSIZE && done' == done + RoundLen(off, done, len)
    requires Dense(blocks, ino, BlocksOf(off + done))
    ensures off + done' <= MAXFILE * BSIZE && RoundTo(off, done, done', len)
    ensures Cost(off, off, done') == Cost(off, off, done) + Need(blocks, ino, (off + done) / BSIZE)
    ensures Cost(off, off, done') <= Cost(off, off, len)
  {
    NeedIs(blocks, ino, off + done, done' - done, off + done, off + done');
    CostNext(off, off, done, done');
    CostGrows(off, off, done', len);
  }

  /** The root directory: its two own entries and one for each file. */
  function Listing(dot: seq<nat>, dotdot: seq<nat>, files: seq<Source>): seq<nat> {
    if files == [] then dot + dotdot else Listing(dot, dotdot, files[..|files| - 1]) + files[|files| - 1].dirent
  }

  lemma {:induction false} ListingSize(dot: seq<nat>, dotdot: seq<nat>, files: seq<Source>)
    requires IsDirent(dot) && IsDirent(dotdot) && forall k: nat :: k < |files| ==> IsDirent(files[k].dirent)
    ensures |Listing(dot, dotdot, files)| == DIRENT * (|files| + 2)
  {
    if files != [] { ListingSize(dot, dotdot, files[..|files| - 1]); }
  }

  /** Rounding the root size up keeps the file system sound exactly if the directory does not fill its last block. */
  lemma RootFixed(blocks: seq<Block>, dinodes: seq<Inode>, dinodes': seq<Inode>, n: nat)
    requires AllDense(blocks, dinodes) && |dinodes| > ROOT && dinodes[ROOT].size == DIRENT * (n + 2)
    requires dinodes' == dinodes[ROOT := dinodes[ROOT].(size := (dinodes[ROOT].size / BSIZE + 1) * BSIZE)]
    ensures AllDense(blocks, dinodes') <==> (n + 2) % (BSIZE / DIRENT) != 0
    ensures Content(blocks, dinodes'[ROOT])[..dinodes[ROOT].size] == Content(blocks, dinodes[ROOT])
  {
    var size := dinodes[ROOT].size;
    var nb, nb' := BlocksOf(size), BlocksOf(dinodes'[ROOT].size);
    assert nb == nb' <==> (n + 2) % (BSIZE / DIRENT) != 0;
    DenseFields(blocks, dinodes[ROOT], dinodes'[ROOT], nb);
    if nb != nb' { DenseOnce(blocks, dinodes'[ROOT], nb, nb'); }
    forall k: nat | k < size ensures ByteAt(blocks, dinodes'[ROOT], k) == ByteAt(blocks, dinodes[ROOT], k) {}
  }

  lemma DenseOnce(blocks: seq<Block>, ino: Inode, n: nat, n': nat)
    requires Dense(blocks, ino, n) && n < n'
    ensures !Dense(blocks, ino, n')
  {
    if n < MAXFILE { assert Slot(blocks, ino, n) == 0; }
  }


  /** iappend's loop after `done` was appended to file `i`. */
  ghost predicate Appending(blocks0: seq<Block>, dinodes0: seq<Inode>, blocks: seq<Block>, dinodes: seq<Inode>, i: nat,
                            done: seq<nat>) {
    && i < |dinodes0| && OthersSame(blocks0, dinodes0, blocks, dinodes, i)
    && dinodes[i] == dinodes0[i].(addrs := dinodes[i].addrs)
    && Dense(blocks, dinodes[i], BlocksOf(dinodes0[i].size + |done|))
    && Bytes(blocks, dinodes[i], dinodes0[i].size + |done|) == Content(blocks0, dinodes0[i]) + done
  }

  lemma AppendedNext(blocks0: seq<Block>, dinodes0: seq<Inode>, blocks1: seq<Block>, dinodes1: seq<Inode>,
                     blocks: seq<Block>,
                     dinodes: seq<Inode>, i: nat, data: seq<nat>, done: nat, done': nat, chunk: seq<nat>)
    requires done < done' <= |data| && chunk == data[done..done']
      && Appending(blocks0, dinodes0, blocks1, dinodes1, i, data[..done])
    requires OthersSame(blocks0, dinodes0, blocks, dinodes, i) && dinodes[i] == dinodes1[i].(addrs := dinodes[i].addrs)
    requires Dense(blocks, dinodes[i], BlocksOf(dinodes0[i].size + done + |chunk|))
    requires Bytes(blocks, dinodes[i], dinodes0[i].size + done + |chunk|) ==
      Bytes(blocks1, dinodes1[i], dinodes0[i].size + done) + chunk
    ensures Appending(blocks0, dinodes0, blocks, dinodes, i, data[..done'])
  {
    Concat(Content(blocks0, dinodes0[i]), data, done, done' - done);
  }

  lemma Concat(s: seq<nat>, data: seq<nat>, done: nat, m: nat)
    requires done + m <= |data|
    ensures s + data[..done] + data[done..done + m] == s + data[..done + m]
  {
  }

  lemma SplicedEnd(s: seq<nat>, data: seq<nat>)
    ensures Spliced(s, |s|, data) == s + data
  {
  }
}
