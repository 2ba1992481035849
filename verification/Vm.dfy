/**
 The page allocator and the operations on address spaces, over the memory and the uses of PageTable.
 */
module Vm {
  import opened PageTable
  import opened Options

  const KERNBASE := 0x8000_0000

  // ----- the free list: a chain through the first words of the free frames -----

  function Ptr(f: nat): nat { KERNBASE + f * 4096 }

  function NextPtr(free: seq<nat>, k: nat): nat { if k < |free| then Ptr(free[k]) else 0 }

  ghost predicate OnList(mem: Memory, owner: seq<Use>, free: seq<nat>, k: nat)
    requires k < |free|
  {
    free[k] < |owner| && owner[free[k]] == Free && Word(mem, free[k], 0) == NextPtr(free, k + 1)
  }

  ghost predicate FreeList(mem: Memory, owner: seq<Use>, head: nat, free: seq<nat>) {
    && head == NextPtr(free, 0)
    && (forall k: nat :: k < |free| ==> OnList(mem, owner, free, k))
    && (forall j, k :: 0 <= j < k < |free| ==> free[j] != free[k])
    && (forall f: nat :: f < |owner| && owner[f] == Free ==> f in free)
  }

  function Junk(next: nat): seq<nat> { [next] + seq(ENTRIES - 1, _ => 0x0101_0101) }

  lemma Popped(mem: Memory, owner: seq<Use>, head: nat, free: seq<nat>)
    requires Inv(mem, owner) && FreeList(mem, owner, head, free) && free != []
    ensures free[0] < |mem| && owner[free[0]] == Free && head == Ptr(free[0])
    ensures FreeList(mem, owner[free[0] := Held], mem[free[0]][0], free[1..])
  {
    assert OnList(mem, owner, free, 0);
    var o, rest := owner[free[0] := Held], free[1..];
    forall k: nat | k < |rest| ensures OnList(mem, o, rest, k) {
      assert OnList(mem, owner, free, k + 1);
    }
    forall f: nat | f < |o| && o[f] == Free ensures f in rest {
      assert f in free;
      var k :| 0 <= k < |free| && free[k] == f;
      assert rest[k - 1] == f;
    }
  }

  lemma Pushed(mem: Memory, owner: seq<Use>, head: nat, free: seq<nat>, f: nat)
    requires Inv(mem, owner) && FreeList(mem, owner, head, free) && f < |mem| && owner[f] == Held
    ensures FreeList(mem[f := Junk(head)], owner[f := Free], Ptr(f), [f] + free)
  {
    var m, o, all := mem[f := Junk(head)], owner[f := Free], [f] + free;
    forall k: nat | k < |all| ensures OnList(m, o, all, k) {
      if k > 0 { assert OnList(mem, owner, free, k - 1); }
    }
    forall k: nat | k < |free| ensures free[k] != f {
      assert OnList(mem, owner, free, k);
    }
  }

  lemma NoneFree(mem: Memory, owner: seq<Use>, head: nat)
    requires FreeList(mem, owner, head, [])
    ensures forall f: nat :: f < |owner| ==> owner[f] != Free
  {
  }

  /** The free list does not look at frames that are not free. */
  lemma ListKept(mem: Memory, owner: seq<Use>, mem': Memory, owner': seq<Use>, head: nat, free: seq<nat>)
    requires FreeList(mem, owner, head, free) && |mem'| == |mem| == |owner| == |owner'|
    requires forall f: nat :: f < |mem| && owner[f] == Free ==> mem'[f] == mem[f]
    requires forall f: nat :: f < |mem| ==> (owner'[f] == Free <==> owner[f] == Free)
    ensures FreeList(mem', owner', head, free)
  {
    forall k: nat | k < |free| ensures OnList(mem', owner', free, k) {
      assert OnList(mem, owner, free, k);
    }
  }

  // ----- which pages deallocuvm looks at -----

  /** The loop from page `a` up to `hi` looks at `vp`: where no table is, it steps 1024 pages at once. */
  predicate Visits(mem: Memory, d: nat, a: nat, hi: nat, vp: nat)
    decreases hi - a
  {
    a < hi &&
    if HasTable(mem, d, a / ENTRIES) then a == vp || Visits(mem, d, a + 1, hi, vp)
    else Visits(mem, d, a + ENTRIES, hi, vp)
  }

  lemma {:induction false} VisitsWithin(mem: Memory, d: nat, a: nat, hi: nat, vp: nat)
    requires Visits(mem, d, a, hi, vp)
    ensures a <= vp < hi && HasTable(mem, d, vp / ENTRIES)
    decreases hi - a
  {
    if HasTable(mem, d, a / ENTRIES) {
      if a != vp { VisitsWithin(mem, d, a + 1, hi, vp); }
    } else {
      VisitsWithin(mem, d, a + ENTRIES, hi, vp);
    }
  }

  /** The frame of a page of `d` that the loop looks at. */
  ghost predicate VisitedFrame(mem: Memory, owner: seq<Use>, d: nat, a: nat, hi: nat, f: nat) {
    f < |owner| && owner[f].Page? && owner[f].d == d && Visits(mem, d, a, hi, owner[f].vp)
  }

  /** Exactly the first `n` user pages are mapped. */
  ghost predicate Prefix(mem: Memory, d: nat, n: nat) {
    forall vp: nat :: vp < USER ==> (Look(mem, d, vp).Mapped? <==> vp < n)
  }

  /** The first `n` user pages are mapped but for those in `holes`, and no others. */
  ghost predicate Shows(mem: Memory, d: nat, n: nat, holes: set<nat>) {
    && (forall h :: h in holes ==> h < n)
    && forall vp: nat :: vp < USER ==> (Look(mem, d, vp).Mapped? <==> vp < n && vp !in holes)
  }

  lemma PrefixShows(mem: Memory, d: nat, n: nat)
    ensures Prefix(mem, d, n) <==> Shows(mem, d, n, {})
  {
  }

  /** A range of mapped pages is looked at whole. */
  lemma {:induction false} RangeVisited(mem: Memory, d: nat, k: nat, a: nat, hi: nat, vp: nat)
    requires (forall wp: nat :: a <= wp < k ==> Look(mem, d, wp).Mapped?) && a <= vp < k <= hi
    ensures Visits(mem, d, a, hi, vp)
    decreases hi - a
  {
    assert Look(mem, d, a).Mapped?;
    if a != vp { RangeVisited(mem, d, k, a + 1, hi, vp); }
  }

  /** With the mapped pages a prefix, the skip misses none of them. */
  lemma PrefixVisited(mem: Memory, d: nat, n: nat, a: nat, hi: nat, vp: nat)
    requires Prefix(mem, d, n) && a <= vp < hi <= USER && vp < n
    ensures Visits(mem, d, a, hi, vp)
  {
    RangeVisited(mem, d, vp + 1, a, hi, vp);
  }

  /** From an aligned address, or one with a table, the skip misses no page that has a table. */
  lemma {:induction false} AlignedVisits(mem: Memory, d: nat, a: nat, hi: nat, vp: nat)
    requires a % ENTRIES == 0 || HasTable(mem, d, a / ENTRIES)
    ensures Visits(mem, d, a, hi, vp) <==> a <= vp < hi && HasTable(mem, d, vp / ENTRIES)
    decreases hi - a
  {
    if a < hi {
      if HasTable(mem, d, a / ENTRIES) {
        AlignedVisits(mem, d, a + 1, hi, vp);
      } else {
        AlignedVisits(mem, d, a + ENTRIES, hi, vp);
      }
    }
  }

  /** Table `j` is the first one after that of page `a`, which has none. */
  ghost predicate NextTable(mem: Memory, d: nat, a: nat, j: nat) {
    && a / ENTRIES < j && HasTable(mem, d, j)
    && forall t: nat :: a / ENTRIES <= t < j ==> !HasTable(mem, d, t)
  }

  /** From an address without a table the loop comes down in the next table, as far into it as it was before. */
  lemma {:induction false} SkipLands(mem: Memory, d: nat, a: nat, hi: nat, vp: nat, j: nat)
    requires NextTable(mem, d, a, j)
    ensures Visits(mem, d, a, hi, vp) <==>
      j * ENTRIES + a % ENTRIES <= vp < hi && HasTable(mem, d, vp / ENTRIES)
    decreases j - a / ENTRIES
  {
    var b := a + ENTRIES;
    if a >= hi {
      assert a < j * ENTRIES + a % ENTRIES;
    } else if HasTable(mem, d, b / ENTRIES) {
      assert j == b / ENTRIES;
      AlignedVisits(mem, d, b, hi, vp);
    } else {
      SkipLands(mem, d, b, hi, vp, j);
    }
  }

  lemma {:induction false} NoTableLeft(mem: Memory, d: nat, a: nat, hi: nat, vp: nat)
    requires forall t: nat :: a / ENTRIES <= t ==> !HasTable(mem, d, t)
    ensures !Visits(mem, d, a, hi, vp)
    decreases hi - a
  {
    if a < hi { NoTableLeft(mem, d, a + ENTRIES, hi, vp); }
  }

  /**
   The loop that starts at page `lo` steps over `vp`: there is no table at `lo`, and `vp` is in the next
   table, nearer to its start than `lo` is to the start of its own.
   */
  ghost predicate Skipped(mem: Memory, d: nat, lo: nat, vp: nat) {
    NextTable(mem, d, lo, vp / ENTRIES) && vp % ENTRIES < lo % ENTRIES
  }

  /** Exactly the pages deallocuvm looks at: those with a table, but for the ones stepped over. */
  lemma VisitsIff(mem: Memory, d: nat, lo: nat, hi: nat, vp: nat)
    ensures Visits(mem, d, lo, hi, vp) <==>
      lo <= vp < hi && HasTable(mem, d, vp / ENTRIES) && !Skipped(mem, d, lo, vp)
  {
    if HasTable(mem, d, lo / ENTRIES) || lo % ENTRIES == 0 {
      AlignedVisits(mem, d, lo, hi, vp);
    } else if j: nat :| NextTable(mem, d, lo, j) {
      SkipLands(mem, d, lo, hi, vp, j);
      if lo <= vp && HasTable(mem, d, vp / ENTRIES) { SkippedIff(mem, d, lo, vp, j); }
    } else {
      TablesEnd(mem, d, lo);
      NoTableLeft(mem, d, lo, hi, vp);
    }
  }

  lemma SkippedIff(mem: Memory, d: nat, lo: nat, vp: nat, j: nat)
    requires NextTable(mem, d, lo, j) && HasTable(mem, d, vp / ENTRIES) && lo <= vp
    ensures Skipped(mem, d, lo, vp) <==> vp < j * ENTRIES + lo % ENTRIES
  {
    var t := vp / ENTRIES;
    assert t >= j;
    if t == j {
      assert vp == j * ENTRIES + vp % ENTRIES;
    } else {
      assert vp >= (j + 1) * ENTRIES;
    }
  }

  lemma {:induction false} FirstTable(mem: Memory, d: nat, a: nat, t: nat) returns (j: nat)
    requires a / ENTRIES <= t && HasTable(mem, d, t)
    requires !HasTable(mem, d, a / ENTRIES)
    ensures NextTable(mem, d, a, j)
    decreases t
  {
    if s: nat :| a / ENTRIES <= s < t && HasTable(mem, d, s) {
      j := FirstTable(mem, d, a, s);
    } else {
      j := t;
    }
  }

  lemma TablesEnd(mem: Memory, d: nat, lo: nat)
    requires !HasTable(mem, d, lo / ENTRIES) && forall j: nat :: !NextTable(mem, d, lo, j)
    ensures forall t: nat :: lo / ENTRIES <= t ==> !HasTable(mem, d, t)
  {
    forall t: nat | lo / ENTRIES <= t ensures !HasTable(mem, d, t) {
      if HasTable(mem, d, t) { var j := FirstTable(mem, d, lo, t); }
    }
  }

  /** The loop from `lo` up to `hi` looks at every user page mapped from `lo` on. */
  ghost predicate AllReached(mem: Memory, d: nat, lo: nat, hi: nat) {
    forall vp: nat :: lo <= vp < USER && Look(mem, d, vp).Mapped? ==> Visits(mem, d, lo, hi, vp)
  }

  /** It does if and only if no page is mapped from `hi` on and none that is stepped over. */
  lemma AllReachedIff(mem: Memory, d: nat, lo: nat, hi: nat)
    ensures AllReached(mem, d, lo, hi) <==>
      forall vp: nat :: lo <= vp < USER && Look(mem, d, vp).Mapped? ==> vp < hi && !Skipped(mem, d, lo, vp)
  {
    forall vp: nat | lo <= vp < USER && Look(mem, d, vp).Mapped?
      ensures Visits(mem, d, lo, hi, vp) <==> vp < hi && !Skipped(mem, d, lo, vp)
    {
      VisitsIff(mem, d, lo, hi, vp);
    }
  }

  /** What deallocuvm from `hi` down to `lo` takes away: the pages between, but for those stepped over. */
  ghost predicate Dropped(mem: Memory, d: nat, lo: nat, hi: nat, vp: nat) {
    lo <= vp < hi && !Skipped(mem, d, lo, vp)
  }

  ghost predicate DroppedFrame(mem: Memory, owner: seq<Use>, d: nat, lo: nat, hi: nat, f: nat) {
    f < |owner| && owner[f].Page? && owner[f].d == d && Dropped(mem, d, lo, hi, owner[f].vp)
  }

  lemma LooksDropped(mem: Memory, d: nat, lo: nat, hi: nat)
    ensures forall vp: nat :: Look(mem, d, vp).Mapped? ==> (Visits(mem, d, lo, hi, vp) <==> Dropped(mem, d, lo, hi, vp))
    ensures forall vp: nat :: Visits(mem, d, lo, hi, vp) ==> lo <= vp
  {
    forall vp: nat ensures Look(mem, d, vp).Mapped? ==> (Visits(mem, d, lo, hi, vp) <==> Dropped(mem, d, lo, hi, vp))
      ensures Visits(mem, d, lo, hi, vp) ==> lo <= vp
    {
      VisitsIff(mem, d, lo, hi, vp);
    }
  }

  lemma FramesDropped(mem: Memory, owner: seq<Use>, d: nat, lo: nat, hi: nat)
    requires Inv(mem, owner)
    ensures forall f: nat :: f < |owner| ==>
      (VisitedFrame(mem, owner, d, lo, hi, f) <==> DroppedFrame(mem, owner, d, lo, hi, f))
  {
    forall f: nat | f < |owner|
      ensures VisitedFrame(mem, owner, d, lo, hi, f) <==> DroppedFrame(mem, owner, d, lo, hi, f)
    {
      assert UseOk(mem, owner, f);
      if owner[f].Page? { VisitsIff(mem, d, lo, hi, owner[f].vp); }
    }
  }

  /** Where the loop reaches every page, the frames that come back are those of all pages from `lo` on. */
  lemma Returned(mem: Memory, owner: seq<Use>, d: nat, lo: nat, hi: nat)
    requires Inv(mem, owner) && AllReached(mem, d, lo, hi)
    ensures forall f: nat :: f < |owner| ==>
      (DroppedFrame(mem, owner, d, lo, hi, f) <==> owner[f].Page? && owner[f].d == d && lo <= owner[f].vp)
  {
    forall f: nat | f < |owner|
      ensures DroppedFrame(mem, owner, d, lo, hi, f) <==> owner[f].Page? && owner[f].d == d && lo <= owner[f].vp
    {
      assert UseOk(mem, owner, f);
      if owner[f].Page? && owner[f].d == d {
        assert Look(mem, d, owner[f].vp).Mapped?;
        VisitsIff(mem, d, lo, hi, owner[f].vp);
      }
    }
  }

  lemma AlignedReached(mem: Memory, d: nat, lo: nat)
    requires lo % ENTRIES == 0
    ensures AllReached(mem, d, lo, USER)
  {
    forall vp: nat | lo <= vp < USER && Look(mem, d, vp).Mapped? ensures Visits(mem, d, lo, USER, vp) {
      AlignedVisits(mem, d, lo, USER, vp);
    }
  }

  lemma PrefixReached(mem: Memory, d: nat, n: nat, lo: nat, hi: nat)
    requires Prefix(mem, d, n) && n <= hi <= USER
    ensures AllReached(mem, d, lo, hi)
  {
    forall vp: nat | lo <= vp < USER && Look(mem, d, vp).Mapped? ensures Visits(mem, d, lo, hi, vp) {
      PrefixVisited(mem, d, n, lo, hi, vp);
    }
  }

  function PagesOf(size: nat): nat { (size + 4095) / 4096 }

  // ----- what mapping a range of pages costs -----

  /** Mapping page `vp` of a range that starts at `lo` takes a new table. */
  predicate Needs(mem: Memory, d: nat, lo: nat, vp: nat) {
    !HasTable(mem, d, vp / ENTRIES) && (vp == lo || vp % ENTRIES == 0)
  }

  /** Frames taken to map the pages from `lo` up to `hi`: one each, and one for each new table. */
  function Cost(mem: Memory, d: nat, lo: nat, hi: nat): nat
    decreases hi
  {
    if hi <= lo then 0 else Cost(mem, d, lo, hi - 1) + 1 + if Needs(mem, d, lo, hi - 1) then 1 else 0
  }

  lemma {:induction false} CostGrows(mem: Memory, d: nat, lo: nat, k: nat, hi: nat)
    requires lo <= k <= hi
    ensures Cost(mem, d, lo, k) + (hi - k) <= Cost(mem, d, lo, hi)
    decreases hi
  {
    if k < hi { CostGrows(mem, d, lo, k, hi - 1); }
  }

  /** Table `i` holds a page of `lo..k`. */
  predicate Touched(lo: nat, k: nat, i: nat) { lo < k && lo / ENTRIES <= i <= (k - 1) / ENTRIES }

  ghost predicate TablesGrown(mem0: Memory, mem: Memory, d: nat, lo: nat, k: nat) {
    forall j: nat :: HasTable(mem, d, j) <==> HasTable(mem0, d, j) || Touched(lo, k, j)
  }

  /** The next page takes a new table exactly when its table is neither there at first nor made on the way. */
  lemma NeedsNow(mem0: Memory, mem: Memory, d: nat, lo: nat, k: nat)
    requires lo <= k && TablesGrown(mem0, mem, d, lo, k)
    ensures HasTable(mem, d, k / ENTRIES) <==> !Needs(mem0, d, lo, k)
  {
  }

  lemma TouchedNext(lo: nat, k: nat, i: nat)
    requires lo <= k
    ensures Touched(lo, k + 1, i) <==> Touched(lo, k, i) || i == k / ENTRIES
  {
  }

  /** With no table beyond the first page's, a range takes one table for each it reaches. */
  lemma {:induction false} CountTables(mem: Memory, d: nat, lo: nat, hi: nat)
    requires lo < hi && forall i: nat :: lo / ENTRIES < i <= (hi - 1) / ENTRIES ==> !HasTable(mem, d, i)
    ensures Cost(mem, d, lo, hi) == hi - lo + (hi - 1) / ENTRIES - lo / ENTRIES + if HasTable(mem, d, lo / ENTRIES)
      then 0 else 1
    decreases hi
  {
    if lo + 1 < hi {
      CountTables(mem, d, lo, hi - 1);
    } else {
      assert Cost(mem, d, lo, lo) == 0;
    }
  }

  // ----- an address space while it grows -----

  const RW := PTE_P + PTE_W + PTE_U

  /** The flags and the content wanted for a page. */
  datatype Content = Content(flags: nat, words: seq<nat>)

  function ZeroPages(n: nat): seq<Content> { seq(n, _ => Content(RW, Zeros())) }

  ghost predicate PageIs(mem: Memory, d: nat, vp: nat, want: Content) {
    Look(mem, d, vp).Mapped? && Look(mem, d, vp).flags == want.flags && Look(mem, d, vp).words == want.words
  }

  /** Page `vp` of `d` is mapped with what is wanted; everything else shows as before. */
  ghost predicate PutPage(mem0: Memory, owner0: seq<Use>, mem: Memory, d: nat, vp: nat, want: Content) {
    && Elsewhere(mem0, owner0, mem, d, vp, vp + 1) && PageIs(mem, d, vp, want)
    && forall j: nat :: HasTable(mem, d, j) <==> HasTable(mem0, d, j) || j == vp / ENTRIES
  }

  /** Pages `lo..k` of `d` are mapped with what is wanted; everything else shows as before. */
  ghost predicate Grew(mem0: Memory, owner0: seq<Use>, mem: Memory, d: nat, lo: nat, k: nat, want: seq<Content>) {
    && k <= |want|
    && Elsewhere(mem0, owner0, mem, d, lo, k)
    && TablesGrown(mem0, mem, d, lo, k)
    && forall vp: nat :: lo <= vp < k ==> PageIs(mem, d, vp, want[vp])
  }

  /** Frames in use keep their use; a free one is now a page `lo..k` of `d`, a table of `d`, or lost. */
  ghost predicate UsesGrown(owner0: seq<Use>, owner: seq<Use>, d: nat, lo: nat, k: nat, lost: set<nat>) {
    && |owner| == |owner0| && (forall f: nat :: f in lost ==> f < |owner|)
    && forall f: nat :: f < |owner| ==>
      if owner0[f] != Free then owner[f] == owner0[f] && f !in lost
      else
        match owner[f]
        case Free => f !in lost
        case Table(e, i) => e == d && f !in lost
        case Page(e, vp) => e == d && lo <= vp < k && f !in lost
        case Lost => f in lost
        case _ => false
  }

  class Machine {
    /** Frames below `lo` hold the kernel. */
    const lo: nat
    var mem: Memory
    var freelist: nat
    ghost var owner: seq<Use>
    ghost var free: seq<nat>

    ghost predicate Valid()
      reads this
    {
      && Inv(mem, owner) && FreeList(mem, owner, freelist, free) && 0 < lo <= |mem|
      && forall f: nat :: f < |owner| ==> (f < lo <==> owner[f] == Boot)
    }

    constructor (lo: nat, n: nat)
      requires 0 < lo <= n
      ensures Valid() && this.lo == lo && |mem| == n && free == []
      ensures owner == seq(n, f requires 0 <= f < n => if f < lo then Boot else Held)
    {
      this.lo := lo;
      mem := seq(n, _ => Zeros());
      freelist := 0;
      owner := seq(n, f requires 0 <= f < n => if f < lo then Boot else Held);
      free := [];
    }

    /** freerange: every frame of the range joins the free list. */
    method FreeRange(from: nat, to: nat)
      requires Valid() && from <= to <= |mem| && forall f: nat :: from <= f < to ==> owner[f] == Held
      modifies this
      ensures Valid() && |mem| == old(|mem|) && |free| == old(|free|) + (to - from)
      ensures forall f: nat :: f < |owner| ==> owner[f] == if from <= f < to then Free else old(owner)[f]
    {
      var p := from;
      while p < to
        invariant from <= p <= to && Valid() && |mem| == old(|mem|) && |free| == old(|free|) + (p - from)
        invariant |owner| == |old(owner)| && forall f: nat :: f < |owner| ==>
          owner[f] == if from <= f < p then Free else old(owner)[f]
      {
        Kfree(p);
        p := p + 1;
      }
    }

    /** kalloc */
    method Kalloc() returns (r: Option<nat>)
      requires Valid()
      modifies `freelist, `owner, `free
      ensures Valid()
      ensures old(free) == [] ==> r == None && owner == old(owner) && free == []
      ensures old(free) != [] ==>
        && r == Some(old(free)[0]) && r.value < |mem| && old(owner)[r.value] == Free
        && free == old(free)[1..] && owner == old(owner)[r.value := Held]
    {
      if freelist == 0 { return None; }
      var f := (freelist - KERNBASE) / 4096;
      Popped(mem, owner, freelist, free);
      freelist := mem[f][0];
      owner := owner[f := Held];
      RewriteUnused(mem, old(owner), f, mem[f], Held);
      assert mem[f := mem[f]] == mem;
      free := free[1..];
      return Some(f);
    }

    /** kfree; its panic needs a frame of the kernel image. */
    method Kfree(f: nat)
      requires Valid() && f < |mem| && owner[f] == Held
      modifies this
      ensures Valid() && lo <= f
      ensures free == [f] + old(free) && owner == old(owner)[f := Free]
      ensures mem == old(mem)[f := Junk(old(freelist))]
      ensures Elsewhere(old(mem), old(owner), mem, 0, 0, 0)
    {
      Pushed(mem, owner, freelist, free, f);
      RewriteUnused(mem, owner, f, Junk(freelist), Free);
      mem := mem[f := Junk(freelist)];
      freelist := Ptr(f);
      owner := owner[f := Free];
      free := [f] + free;
    }

    /** memset of a frame the caller holds. */
    method Clear(f: nat)
      requires Valid() && f < |mem| && owner[f] == Held
      modifies `mem
      ensures Valid() && mem == old(mem)[f := Zeros()]
      ensures Elsewhere(old(mem), owner, mem, 0, 0, 0)
    {
      RewriteUnused(mem, owner, f, Zeros(), Held);
      assert owner[f := Held] == owner;
      ListKept(mem, owner, mem[f := Zeros()], owner, freelist, free);
      mem := mem[f := Zeros()];
    }

    /** walkpgdir, for the directory entry of `vp` */
    method Walk(d: nat, vp: nat, alloc: bool) returns (ok: bool)
      requires Valid() && IsDir(owner, d) && vp / ENTRIES < ENTRIES
      modifies this
      ensures Valid() && |mem| == old(|mem|)
      ensures ok <==> HasTable(mem, d, vp / ENTRIES)
      ensures old(HasTable(mem, d, vp / ENTRIES)) || !alloc || old(free) == [] ==>
        mem == old(mem) && owner == old(owner) && free == old(free) && (ok <==> old(HasTable(mem, d, vp / ENTRIES)))
      ensures !old(HasTable(mem, d, vp / ENTRIES)) && alloc && old(free) != [] ==>
        && ok && free == old(free)[1..] && old(free)[0] < |mem| && old(owner)[old(free)[0]] == Free
        && owner == old(owner)[old(free)[0] := Table(d, vp / ENTRIES)]
      ensures Elsewhere(old(mem), old(owner), mem, 0, 0, 0)
      ensures forall wp: nat :: Pte(mem, d, wp) == old(Pte(mem, d, wp))
      ensures forall j: nat :: HasTable(mem, d, j) <==> old(HasTable(mem, d, j)) || (ok && j == vp / ENTRIES)
      ensures forall g: nat :: g < |mem| && old(owner)[g] == Held ==> mem[g] == old(mem)[g]
    {
      var i := vp / ENTRIES;
      if Present(mem[d][i]) { return true; }
      if !alloc { return false; }
      var r := Kalloc();
      if r == None { return false; }
      NewTable(d, i, r.value);
      ok := true;
    }

    method NewTable(d: nat, i: nat, f: nat)
      requires Valid() && IsDir(owner, d) && i < ENTRIES && !HasTable(mem, d, i) && f < |mem| && owner[f] == Held
      modifies this
      ensures Valid() && |mem| == old(|mem|) && free == old(free) && owner == old(owner)[f := Table(d, i)]
      ensures Elsewhere(old(mem), old(owner), mem, 0, 0, 0)
      ensures forall wp: nat :: Pte(mem, d, wp) == old(Pte(mem, d, wp))
      ensures forall j: nat :: HasTable(mem, d, j) <==> old(HasTable(mem, d, j)) || j == i
      ensures forall g: nat :: g < |mem| && g != f && old(owner)[g] == Held ==> mem[g] == old(mem)[g]
    {
      ghost var mem0, owner0 := mem, owner;
      Clear(f);
      ghost var mem1 := mem;
      forall wp: nat ensures Pte(mem1, d, wp) == Pte(mem0, d, wp) {
        PteKept(mem0, owner0, f, Zeros(), d, wp);
      }
      LinkTable(mem, owner, d, i, f);
      ListKept(mem, owner, Linked(mem, d, i, f), owner[f := Table(d, i)], freelist, free);
      mem := Linked(mem, d, i, f);
      owner := owner[f := Table(d, i)];
    }

    /** The body of deallocuvm's loop for a present entry. */
    method DropPage(d: nat, vp: nat)
      requires Valid() && IsDir(owner, d) && vp < USER && Present(Pte(mem, d, vp))
      modifies this
      ensures Valid() && |mem| == old(|mem|)
      ensures var f := old(FrameOf(Pte(mem, d, vp)));
        f < |mem| && old(owner)[f] == Page(d, vp) && owner == old(owner)[f := Free] && free == [f] + old(free)
      ensures Look(mem, d, vp) == Unmapped && Elsewhere(old(mem), old(owner), mem, d, vp, vp + 1)
      ensures forall j: nat :: HasTable(mem, d, j) <==> old(HasTable(mem, d, j))
    {
      var f := FrameOf(Pte(mem, d, vp));
      ghost var mem0, owner0 := mem, owner;
      ClearPage(mem, owner, d, vp);
      var m := WithPte(mem, d, vp, 0);
      WithPteFree(d, vp, f);
      mem := m;
      owner := owner[f := Held];
      ghost var owner1 := owner;
      Kfree(f);
      forall e: nat, wp: nat | IsDir(owner0, e) && wp < USER && !(e == d && wp == vp)
        ensures Look(mem, e, wp) == Look(mem0, e, wp)
      {
        assert IsDir(owner1, e);
      }
      assert IsDir(owner1, d);
    }

    lemma WithPteFree(d: nat, vp: nat, f: nat)
      requires Valid() && IsDir(owner, d) && vp < USER && Present(Pte(mem, d, vp)) && f < |mem|
        && owner[f] == Page(d, vp)
      ensures FreeList(WithPte(mem, d, vp, 0), owner[f := Held], freelist, free)
    {
      var m := WithPte(mem, d, vp, 0);
      forall g: nat | g < |mem| && owner[g] == Free ensures m[g] == mem[g] {
        WithPteRows(mem, owner, d, vp, 0, g);
      }
      WithPteRows(mem, owner, d, vp, 0, f);
      ListKept(mem, owner, m, owner[f := Held], freelist, free);
    }

    /** One round of deallocuvm's loop at a page with a table. */
    method VisitPage(d: nat, vp: nat)
      requires Valid() && IsDir(owner, d) && vp < USER
      modifies this
      ensures Valid() && |mem| == old(|mem|) && Look(mem, d, vp) == Unmapped
      ensures Elsewhere(old(mem), old(owner), mem, d, vp, vp + 1) && Freed(old(owner), owner, d, {vp})
      ensures forall j: nat :: HasTable(mem, d, j) <==> old(HasTable(mem, d, j))
    {
      forall f: nat | f < |owner| && owner[f] == Page(d, vp)
        ensures Present(Pte(mem, d, vp)) && f == FrameOf(Pte(mem, d, vp))
      {
        assert UseOk(mem, owner, f);
      }
      if Present(Pte(mem, d, vp)) {
        DropPage(d, vp);
      }
    }

    /** deallocuvm in pages: every page visited from `lo` up to `hi` is unmapped and its frame freed. */
    method DropPages(d: nat, from: nat, hi: nat)
      requires Valid() && IsDir(owner, d) && hi <= USER
      modifies this
      ensures Valid() && |mem| == old(|mem|)
      ensures forall vp: nat :: vp < USER ==>
        Look(mem, d, vp) == if old(Visits(mem, d, from, hi, vp)) then Unmapped else old(Look(mem, d, vp))
      ensures Elsewhere(old(mem), old(owner), mem, d, 0, USER)
      ensures forall f: nat :: f < |mem| ==>
        owner[f] == if old(VisitedFrame(mem, owner, d, from, hi, f)) then Free else old(owner)[f]
      ensures forall j: nat :: HasTable(mem, d, j) <==> old(HasTable(mem, d, j))
    {
      var a := from;
      ghost var done: set<nat> := {};
      ghost var mem0, owner0 := mem, owner;
      while a < hi
        invariant Valid() && |mem| == |mem0| && IsDir(owner, d)
        invariant forall vp: nat :: Visits(mem0, d, from, hi, vp) <==> vp in done || Visits(mem0, d, a, hi, vp)
        invariant forall vp: nat :: vp in done ==> vp < a
        invariant forall vp: nat :: vp < USER ==> Look(mem, d, vp) == if vp in done then Unmapped else Look(mem0, d, vp)
        invariant Elsewhere(mem0, owner0, mem, d, 0, USER)
        invariant Freed(owner0, owner, d, done)
        invariant forall j: nat :: HasTable(mem, d, j) <==> HasTable(mem0, d, j)
        decreases hi - a
      {
        if !Present(mem[d][a / ENTRIES]) {
          assert !HasTable(mem0, d, a / ENTRIES);
          a := a + ENTRIES;
        } else {
          assert HasTable(mem0, d, a / ENTRIES);
          ghost var owner1 := owner;
          VisitPage(d, a);
          FreedNext(owner0, owner1, owner, d, done, a);
          done := done + {a};
          a := a + 1;
        }
      }
    }

    /** mappages of one user page */
    method MapUser(d: nat, vp: nat, f: nat, perm: nat) returns (ok: bool)
      requires Valid() && IsDir(owner, d) && vp < USER && !Present(Pte(mem, d, vp))
      requires f < |mem| && owner[f] == Held && perm < 4096
      modifies this
      ensures Valid() && |mem| == old(|mem|)
      ensures ok <==> old(HasTable(mem, d, vp / ENTRIES)) || old(free) != []
      ensures !ok ==> mem == old(mem) && owner == old(owner) && free == old(free)
      ensures ok ==> PutPage(old(mem), old(owner), mem, d, vp, Content(WithP(perm), old(mem)[f]))
      ensures ok ==> UsesMapped(old(owner), owner, d, vp, f)
      ensures ok ==> |free| + (if old(HasTable(mem, d, vp / ENTRIES)) then 0 else 1) == |old(free)|
    {
      ghost var mem0, owner0 := mem, owner;
      ok := Walk(d, vp, true);
      if !ok { return; }
      assert IsDir(owner, d) && owner[f] == Held;
      ghost var mem1, owner1 := mem, owner;
      var w := Entry(f, WithP(perm));
      EntryParts(f, WithP(perm));
      SetPage(mem, owner, d, vp, f, w);
      SetPageFree(d, vp, f, w);
      mem := WithPte(mem, d, vp, w);
      owner := owner[f := Page(d, vp)];
      ElsewhereThen(mem0, owner0, mem1, owner1, mem, d, vp, vp + 1);
    }

    lemma SetPageFree(d: nat, vp: nat, f: nat, w: nat)
      requires Valid() && IsDir(owner, d) && vp < USER && HasTable(mem, d, vp / ENTRIES) && f < |mem|
        && owner[f] == Held
      ensures FreeList(WithPte(mem, d, vp, w), owner[f := Page(d, vp)], freelist, free)
    {
      var m := WithPte(mem, d, vp, w);
      forall g: nat | g < |mem| && owner[g] == Free ensures m[g] == mem[g] {
        WithPteRows(mem, owner, d, vp, w, g);
      }
      WithPteRows(mem, owner, d, vp, w, f);
      ListKept(mem, owner, m, owner[f := Page(d, vp)], freelist, free);
    }

    /** Ghost bookkeeping: a held frame no one will give back. */
    ghost method Lose(f: nat)
      requires Valid() && f < |mem| && owner[f] == Held
      modifies `owner
      ensures Valid() && owner == old(owner)[f := Lost]
    {
      RewriteUnused(mem, owner, f, mem[f], Lost);
      assert mem[f := mem[f]] == mem;
      ListKept(mem, owner, mem, owner[f := Lost], freelist, free);
      owner := owner[f := Lost];
    }

    /** kalloc and memset, seen from the space `d` */
    method ZeroFrame(ghost d: nat) returns (r: Option<nat>)
      requires Valid() && IsDir(owner, d)
      modifies this
      ensures Valid() && |mem| == old(|mem|)
      ensures r == None <==> old(free) == []
      ensures r == None ==> mem == old(mem) && owner == old(owner) && free == []
      ensures r != None ==>
        && r.value < |mem| && old(owner)[r.value] == Free && owner == old(owner)[r.value := Held]
        && free == old(free)[1..] && mem == old(mem)[r.value := Zeros()]
      ensures Elsewhere(old(mem), old(owner), mem, 0, 0, 0)
      ensures forall wp: nat :: Pte(mem, d, wp) == old(Pte(mem, d, wp))
      ensures forall j: nat :: HasTable(mem, d, j) <==> old(HasTable(mem, d, j))
    {
      ghost var mem0, owner0 := mem, owner;
      r := ZeroPage();
      if r == None { return; }
      forall wp: nat ensures Pte(mem, d, wp) == Pte(mem0, d, wp) {
        PteKept(mem0, owner0, r.value, Zeros(), d, wp);
      }
    }

    /** One round of allocuvm's loop. When mappages fails its result is dropped and the frame is lost. */
    method GrowPage(d: nat, vp: nat) returns (got: bool, ghost mapped: bool, ghost f: nat)
      requires Valid() && IsDir(owner, d) && vp < USER && !Present(Pte(mem, d, vp))
      modifies this
      ensures Valid() && |mem| == old(|mem|)
      ensures got <==> old(free) != []
      ensures !got ==> mem == old(mem) && owner == old(owner) && free == []
      ensures got ==> (mapped <==> old(HasTable(mem, d, vp / ENTRIES)) || |old(free)| > 1)
      ensures got && mapped ==>
        && PutPage(old(mem), old(owner), mem, d, vp, Content(RW, Zeros()))
        && UsesGrown(old(owner), owner, d, vp, vp + 1, {})
        && |free| + 1 + (if old(HasTable(mem, d, vp / ENTRIES)) then 0 else 1) == |old(free)|
      ensures got && !mapped ==>
        && free == [] && f < |owner| && old(owner)[f] == Free && owner == old(owner)[f := Lost]
        && Elsewhere(old(mem), old(owner), mem, 0, 0, 0)
        && forall j: nat :: HasTable(mem, d, j) <==> old(HasTable(mem, d, j))
    {
      ghost var mem0, owner0 := mem, owner;
      f := 0;
      mapped := false;
      var r := ZeroFrame(d);
      if r == None { return false, false, 0; }
      got := true;
      f := r.value;
      ghost var mem1, owner1 := mem, owner;
      var ok := MapUser(d, vp, r.value, RW);
      mapped := ok;
      if ok {
        PutThen(mem0, owner0, mem1, owner1, mem, d, vp, Content(RW, Zeros()));
        UsesPut(owner0, owner, d, vp, f);
      } else {
        Lose(f);
      }
    }

    /** allocuvm */
    method AllocUvm(d: nat, oldsz: nat, newsz: nat, ghost holes: set<nat>) returns (r: nat, ghost k: nat)
      requires Valid() && IsDir(owner, d) && oldsz < KERNBASE && Shows(mem, d, PagesOf(oldsz), holes)
      modifies this
      ensures Valid() && |mem| == old(|mem|) && IsDir(owner, d)
      ensures newsz >= KERNBASE ==> r == 0 && mem == old(mem) && owner == old(owner)
      ensures newsz < oldsz ==> r == oldsz && mem == old(mem) && owner == old(owner)
      ensures oldsz <= newsz < KERNBASE ==> r == newsz || r == 0
      ensures oldsz <= newsz < KERNBASE ==>
        GrowOutcome(old(mem), old(owner), |old(free)|, mem, owner, |free|, d, PagesOf(oldsz), PagesOf(newsz), k,
                    newsz == 0 || r != 0, ZeroPages(PagesOf(newsz)), holes)
    {
      if newsz >= KERNBASE { return 0, 0; }
      if newsz < oldsz { return oldsz, 0; }
      var done;
      done, k := GrowPages(d, PagesOf(oldsz), PagesOf(newsz), holes);
      return if done then newsz else 0, k;
    }

    /** allocuvm's loop */
    method GrowPages(d: nat, lo: nat, hi: nat, ghost holes: set<nat>) returns (done: bool, ghost k: nat)
      requires Valid() && IsDir(owner, d) && lo <= hi <= USER && Shows(mem, d, lo, holes)
      modifies this
      ensures Valid() && |mem| == old(|mem|) && IsDir(owner, d)
      ensures GrowOutcome(old(mem), old(owner), |old(free)|, mem, owner, |free|, d, lo, hi, k, done, ZeroPages(hi),
                          holes)
    {
      var a := lo;
      ghost var have, want := |free|, ZeroPages(hi);
      ghost var mem0, owner0 := mem, owner;
      ghost var lost: set<nat> := {};
      k := lo;
      while a < hi
        invariant Valid() && |mem| == |mem0| && IsDir(owner, d) && a <= hi
        invariant Growing(mem0, owner0, have, mem, owner, |free|, d, lo, a, k, lost, want)
        decreases hi - a
      {
        var got;
        got, k, lost := GrowRound(d, lo, a, k, lost, mem0, owner0, have, want, holes);
        if !got {
          GiveBack(d, lo, hi, k, lost, mem0, owner0, want, holes);
          Stuck(mem0, owner0, have, mem, owner, |free|, d, lo, hi, k, false, lost, want, holes);
          return false, k;
        }
        a := a + 1;
      }
      ShowsGrown(mem0, owner0, mem, d, lo, k, want, holes);
      if lost != {} { Stuck(mem0, owner0, have, mem, owner, |free|, d, lo, hi, k, true, lost, want, holes); }
      done := true;
    }

    /** GrowPage as a step from one state of the loop to the next. */
    method GrowRound(d: nat, ghost lo: nat, a: nat, ghost k: nat, ghost lost: set<nat>,
                     ghost mem0: Memory, ghost owner0: seq<Use>, ghost have: nat, ghost want: seq<Content>,
                     ghost holes: set<nat>)
      returns (got: bool, ghost k': nat, ghost lost': set<nat>)
      requires Valid() && IsDir(owner, d) && a < USER && Inv(mem0, owner0) && IsDir(owner0, d)
      requires Shows(mem0, d, lo, holes)
      requires Growing(mem0, owner0, have, mem, owner, |free|, d, lo, a, k, lost, want) && a < |want|
        && want[a] == Content(RW, Zeros())
      modifies this
      ensures Valid() && |mem| == old(|mem|) && IsDir(owner, d)
      ensures got ==> Growing(mem0, owner0, have, mem, owner, |free|, d, lo, a + 1, k', lost', want)
      ensures !got ==> free == old(free) == [] && k' == k && lost' == lost && mem == old(mem) && owner == old(owner)
    {
      ShowsGrown(mem0, owner0, mem, d, lo, k, want, holes);
      assert Look(mem, d, a) == Unmapped;
      ghost var mem1, owner1, left := mem, owner, |free|;
      ghost var mapped, f;
      got, mapped, f := GrowPage(d, a);
      k', lost' := k, lost;
      if got && mapped {
        k' := k + 1;
        Advance(mem0, owner0, have, mem1, owner1, left, mem, owner, |free|, d, lo, k, want);
      } else if got {
        lost' := {f};
        AdvanceLost(mem0, owner0, have, mem1, owner1, mem, owner, d, lo, k, f, want);
      }
    }

    /** allocuvm's way out: deallocuvm from the new size to the old one. */
    method GiveBack(d: nat, lo: nat, hi: nat, ghost k: nat, ghost lost: set<nat>, ghost mem0: Memory,
                    ghost owner0: seq<Use>, ghost want: seq<Content>, ghost holes: set<nat>)
      requires Valid() && IsDir(owner, d) && lo <= k < hi <= USER && Inv(mem0, owner0) && IsDir(owner0, d)
        && Shows(mem0, d, lo, holes)
      requires Grew(mem0, owner0, mem, d, lo, k, want) && UsesGrown(owner0, owner, d, lo, k, lost)
      modifies this
      ensures Valid() && |mem| == old(|mem|) && IsDir(owner, d)
      ensures Elsewhere(mem0, owner0, mem, 0, 0, 0) && UsesGrown(owner0, owner, d, lo, lo, lost)
    {
      ShowsGrown(mem0, owner0, mem, d, lo, k, want, holes);
      ghost var mem1, owner1 := mem, owner;
      forall vp: nat | lo <= vp < k ensures Visits(mem1, d, lo, hi, vp) {
        RangeVisited(mem1, d, k, lo, hi, vp);
      }
      forall f: nat | VisitedFrame(mem1, owner1, d, lo, hi, f) ensures owner0[f] == Free {
        VisitsWithin(mem1, d, lo, hi, owner1[f].vp);
        assert UseOk(mem0, owner0, f);
        assert owner0[f].Page? ==> owner0[f].vp < USER && Look(mem0, owner0[f].d, owner0[f].vp).Mapped?;
      }
      DropPages(d, lo, hi);
      forall e: nat, vp: nat | IsDir(owner0, e) && vp < USER ensures Look(mem, e, vp) == Look(mem0, e, vp) {
        assert IsDir(owner1, e);
        if e == d && Visits(mem1, d, lo, hi, vp) { VisitsWithin(mem1, d, lo, hi, vp); }
      }
    }

    /**
     deallocuvm on any space. The size given may be larger than what is mapped. Every page from the new size
     on is gone if and only if the loop reaches all that are mapped.
     */
    method DeallocUvm(d: nat, oldsz: nat, newsz: nat) returns (r: nat)
      requires Valid() && IsDir(owner, d) && oldsz <= KERNBASE
      modifies this
      ensures Valid() && |mem| == old(|mem|)
      ensures newsz >= oldsz ==> r == oldsz && mem == old(mem) && owner == old(owner)
      ensures newsz < oldsz ==> r == newsz && Elsewhere(old(mem), old(owner), mem, d, PagesOf(newsz), USER)
      ensures newsz < oldsz ==> forall vp: nat :: vp < USER ==>
        Look(mem, d, vp) == if old(Dropped(mem, d, PagesOf(newsz), PagesOf(oldsz), vp)) then Unmapped
          else old(Look(mem, d, vp))
      ensures newsz < oldsz ==> |owner| == |old(owner)| && forall f: nat :: f < |owner| ==>
        owner[f] == if old(DroppedFrame(mem, owner, d, PagesOf(newsz), PagesOf(oldsz), f)) then Free else old(owner)[f]
      ensures newsz < oldsz ==>
        (old(AllReached(mem, d, PagesOf(newsz), PagesOf(oldsz))) <==>
         forall vp: nat :: PagesOf(newsz) <= vp < USER ==> Look(mem, d, vp) == Unmapped)
    {
      if newsz >= oldsz { return oldsz; }
      ghost var mem0, owner0 := mem, owner;
      ghost var lo, hi := PagesOf(newsz), PagesOf(oldsz);
      DropPages(d, PagesOf(newsz), PagesOf(oldsz));
      LooksDropped(mem0, d, lo, hi);
      FramesDropped(mem0, owner0, d, lo, hi);
      AllReachedIff(mem0, d, lo, hi);
      return newsz;
    }

    /** freevm: every frame of the space comes back, once, and no other, whatever pages are mapped. */
    method FreeVm(d: nat)
      requires Valid() && IsDir(owner, d)
      modifies this
      ensures Valid() && |mem| == old(|mem|)
      ensures forall f: nat :: f < |owner| ==> owner[f] == if Belongs(old(owner), d, f) then Free else old(owner)[f]
      ensures Elsewhere(old(mem), old(owner), mem, d, 0, USER)
    {
      ghost var mem0, owner0 := mem, owner;
      DropAll(d);
      ghost var mem1, owner1 := mem, owner;
      FreeDir(d);
      TwiceElsewhere(mem0, owner0, mem1, owner1, mem, d);
    }

    /** deallocuvm down to nothing */
    method DropAll(d: nat)
      requires Valid() && IsDir(owner, d)
      modifies this
      ensures Valid() && |mem| == old(|mem|) && IsDir(owner, d) && Elsewhere(old(mem), old(owner), mem, d, 0, USER)
      ensures forall vp: nat :: vp < USER ==> Look(mem, d, vp) == Unmapped
      ensures |owner| == |old(owner)| && forall f: nat :: f < |owner| ==>
        owner[f] == if old(owner)[f].Page? && old(owner)[f].d == d then Free else old(owner)[f]
    {
      AlignedReached(mem, d, 0);
      Returned(mem, owner, d, 0, USER);
      var r := DeallocUvm(d, KERNBASE, 0);
    }

    /** The rest of freevm: the tables and the directory of a space without user pages. */
    method FreeDir(d: nat)
      requires Valid() && IsDir(owner, d) && forall vp: nat :: vp < USER ==> Look(mem, d, vp) == Unmapped
      modifies this
      ensures Valid() && |mem| == old(|mem|) && Elsewhere(old(mem), old(owner), mem, d, 0, USER)
      ensures |owner| == |old(owner)| && forall f: nat :: f < |owner| ==>
        owner[f] == if f == d || (old(owner)[f].Table? && old(owner)[f].d == d) then Free else old(owner)[f]
    {
      ghost var mem1, owner1 := mem, owner;
      RetireDir(mem, owner, d, Held);
      ListKept(mem, owner, mem, Retired(owner, d, Held), freelist, free);
      owner := Retired(owner, d, Held);
      forall f: nat | f < |owner1| && owner1[f].Table? ensures owner1[f].i < ENTRIES {
        assert UseOk(mem1, owner1, f);
      }
      FreeTables(d, owner1);
      ghost var mem2, owner2 := mem, owner;
      Kfree(d);
      forall e: nat, vp: nat | IsDir(owner1, e) && e != d && vp < USER ensures Look(mem, e, vp) == Look(mem1, e, vp) {
        assert IsDir(owner2, e);
      }
    }

    /** freevm's loop over the directory, which is no longer in use. */
    method FreeTables(d: nat, ghost owner1: seq<Use>)
      requires Valid() && IsDir(owner1, d) && Inv(mem, owner1) && owner == Retired(owner1, d, Held)
      modifies this
      ensures Valid() && |mem| == old(|mem|)
      ensures forall f: nat :: f < |owner| ==> owner[f] == if OfDir(owner1, d, f, ENTRIES) then Free else old(owner)[f]
      ensures Elsewhere(old(mem), old(owner), mem, 0, 0, 0)
    {
      ghost var mem0, owner0 := mem, owner;
      var i := 0;
      while i < ENTRIES
        invariant i <= ENTRIES && Valid() && |mem| == |mem0| && mem[d] == mem0[d]
        invariant |owner| == |owner0|
        invariant forall f: nat :: f < |owner| ==> owner[f] == if OfDir(owner1, d, f, i) then Free else owner0[f]
        invariant Elsewhere(mem0, owner0, mem, 0, 0, 0)
      {
        TableAlone(mem0, owner1, d, i);
        ghost var mem1, owner2 := mem, owner;
        if Present(mem[d][i]) {
          assert TableOk(mem0, owner1, d, i);
          Kfree(FrameOf(mem[d][i]));
          SeenThrough(mem0, owner0, mem1, owner2, mem);
        }
        i := i + 1;
      }
    }

    /** mappages of a kernel range */
    method MapKernel(d: nat, vp: nat, n: nat, f: nat, perm: nat) returns (ok: bool)
      requires Valid() && IsDir(owner, d) && USER <= vp && vp + n <= ENTRIES * ENTRIES && perm < 4096
      requires forall wp: nat :: vp <= wp < vp + n ==> !Present(Pte(mem, d, wp))
      modifies this
      ensures Valid() && |mem| == old(|mem|)
      ensures Elsewhere(old(mem), old(owner), mem, 0, 0, 0) && UsesGrown(old(owner), owner, d, 0, 0, {})
      ensures old(|free|) + n >= old(Cost(mem, d, vp, vp + n)) ==>
        ok && |free| + old(Cost(mem, d, vp, vp + n)) == old(|free|) + n
      ensures old(|free|) + n < old(Cost(mem, d, vp, vp + n)) ==> !ok && free == []
      ensures ok ==> KernelMapped(old(mem), mem, d, vp, n, f, perm)
    {
      ghost var mem0, owner0, have := mem, owner, |free|;
      var i := 0;
      while i < n
        invariant i <= n && MappingKernel(d, vp, i, f, perm, mem0, owner0, have)
      {
        CostGrows(mem0, d, vp, vp + i + 1, vp + n);
        ok := MapKernelNext(d, vp, i, f, perm, mem0, owner0, have);
        if !ok { return; }
        i := i + 1;
      }
      ok := true;
    }

    /** mappages before page `i` of a kernel range. */
    ghost predicate MappingKernel(d: nat, vp: nat, i: nat, f: nat, perm: nat, mem0: Memory, owner0: seq<Use>, have: nat)
      reads this
    {
      && Valid() && |mem| == |mem0| && IsDir(owner, d)
      && Elsewhere(mem0, owner0, mem, 0, 0, 0) && UsesGrown(owner0, owner, d, 0, 0, {})
      && KernelMapped(mem0, mem, d, vp, i, f, perm)
      && |free| + Cost(mem0, d, vp, vp + i) == have + i
    }

    method MapKernelNext(d: nat, vp: nat, i: nat, f: nat, perm: nat, ghost mem0: Memory, ghost owner0: seq<Use>,
                         ghost have: nat)
      returns (ok: bool)
      requires MappingKernel(d, vp, i, f, perm, mem0, owner0, have) && USER <= vp && vp + i < ENTRIES * ENTRIES
      modifies this
      ensures ok ==> MappingKernel(d, vp, i + 1, f, perm, mem0, owner0, have)
      ensures !ok ==> Valid() && |mem| == old(|mem|) && free == [] && have + i + 1 < Cost(mem0, d, vp, vp + i + 1)
      ensures !ok ==> Elsewhere(mem0, owner0, mem, 0, 0, 0) && UsesGrown(owner0, owner, d, 0, 0, {})
    {
      NeedsNow(mem0, mem, d, vp, vp + i);
      ghost var mem1, owner1 := mem, owner;
      ok := MapKernelPage(d, vp + i, Entry(f + i, WithP(perm)));
      SeenThrough(mem0, owner0, mem1, owner1, mem);
      if ok { KernelNext(mem0, mem1, mem, d, vp, i, f, perm); }
    }

    /** One round of mappages above KERNBASE. */
    method MapKernelPage(d: nat, vp: nat, w: nat) returns (ok: bool)
      requires Valid() && IsDir(owner, d) && USER <= vp < ENTRIES * ENTRIES
      modifies this
      ensures Valid() && |mem| == old(|mem|) && IsDir(owner, d)
      ensures Elsewhere(old(mem), old(owner), mem, 0, 0, 0) && UsesGrown(old(owner), owner, d, 0, 0, {})
      ensures ok <==> old(HasTable(mem, d, vp / ENTRIES)) || old(free) != []
      ensures ok ==> |free| + (if old(HasTable(mem, d, vp / ENTRIES)) then 0 else 1) == |old(free)|
      ensures !ok ==> free == []
      ensures ok ==> forall wp: nat :: Pte(mem, d, wp) == if wp == vp then w else old(Pte(mem, d, wp))
      ensures ok ==> forall j: nat :: HasTable(mem, d, j) <==> old(HasTable(mem, d, j)) || j == vp / ENTRIES
    {
      ghost var mem0, owner0 := mem, owner;
      ok := Walk(d, vp, true);
      if !ok { return; }
      ghost var mem1, owner1 := mem, owner;
      SetKernelPage(mem, owner, d, vp, w);
      var m := WithPte(mem, d, vp, w);
      forall g: nat | g < |mem| && owner[g] == Free ensures m[g] == mem[g] {
        WithPteRows(mem, owner, d, vp, w, g);
      }
      WithPteRows(mem, owner, d, vp, w, d);
      ListKept(mem, owner, m, owner, freelist, free);
      mem := m;
      SeenThrough(mem0, owner0, mem1, owner1, mem);
    }

    /** setupkvm's loop over kmap, for a kernel whose data starts at page `data` */
    method MapKmap(d: nat, data: nat) returns (ok: bool)
      requires Valid() && IsDir(owner, d) && TEXT < data < TOP
      requires (forall wp: nat :: Pte(mem, d, wp) == 0) && forall j: nat :: !HasTable(mem, d, j)
      modifies this
      ensures Valid() && |mem| == old(|mem|)
      ensures Elsewhere(old(mem), old(owner), mem, 0, 0, 0) && UsesGrown(old(owner), owner, d, 0, 0, {})
      ensures if old(|free|) >= KTABLES then ok && |free| == old(|free|) - KTABLES else !ok && free == []
      ensures ok ==> forall wp: nat :: Pte(mem, d, wp) == KernelEntry(data, wp)
      ensures ok ==> forall j: nat :: HasTable(mem, d, j) ==> j >= USER / ENTRIES
    {
      ghost var mem0, owner0 := mem, owner;
      ok := MapNext(d, data, USER, TEXT, PTE_W);
      if !ok { return; }
      ghost var mem1, owner1 := mem, owner;
      ok := MapNext(d, data, TEXT, data, 0);
      SeenThrough(mem0, owner0, mem1, owner1, mem);
      UsesTwice(owner0, owner1, owner, d);
      if !ok { return; }
      ghost var mem2, owner2 := mem, owner;
      ok := MapNext(d, data, data, TOP, PTE_W);
      SeenThrough(mem0, owner0, mem2, owner2, mem);
      UsesTwice(owner0, owner2, owner, d);
      if !ok { return; }
      ghost var mem3, owner3 := mem, owner;
      ok := MapDevices(d, data);
      SeenThrough(mem0, owner0, mem3, owner3, mem);
      UsesTwice(owner0, owner3, owner, d);
    }

    /** One of the entries of kmap that together map memory from KERNBASE on. */
    method MapNext(d: nat, ghost data: nat, from: nat, to: nat, perm: nat) returns (ok: bool)
      requires Valid() && IsDir(owner, d) && TEXT < data < TOP && USER <= from < to <= TOP && perm < 4096
      requires KernelUpTo(mem, d, data, from)
      requires forall wp: nat :: from <= wp < to ==> KernelEntry(data, wp) == Entry(wp - USER, WithP(perm))
      modifies this
      ensures Valid() && |mem| == old(|mem|) && IsDir(owner, d)
      ensures Elsewhere(old(mem), old(owner), mem, 0, 0, 0) && UsesGrown(old(owner), owner, d, 0, 0, {})
      ensures var more := (to - 1) / ENTRIES - (from - 1) / ENTRIES;
        if old(|free|) >= more then ok && |free| == old(|free|) - more else !ok && free == []
      ensures ok ==> KernelUpTo(mem, d, data, to)
    {
      ghost var mem0 := mem;
      CountTables(mem, d, from, to);
      ok := MapKernel(d, from, to - from, from - USER, perm);
      if ok { UpToNext(mem0, mem, d, data, from, to, perm); }
    }

    /** The last entry of kmap. */
    method MapDevices(d: nat, ghost data: nat) returns (ok: bool)
      requires Valid() && IsDir(owner, d) && TEXT < data < TOP && KernelUpTo(mem, d, data, TOP)
      modifies this
      ensures Valid() && |mem| == old(|mem|)
      ensures Elsewhere(old(mem), old(owner), mem, 0, 0, 0) && UsesGrown(old(owner), owner, d, 0, 0, {})
      ensures if old(|free|) >= 8 then ok && |free| == old(|free|) - 8 else !ok && free == []
      ensures ok ==> forall wp: nat :: Pte(mem, d, wp) == KernelEntry(data, wp)
      ensures ok ==> forall j: nat :: HasTable(mem, d, j) ==> j >= USER / ENTRIES
    {
      CountTables(mem, d, DEVICES, ENTRIES * ENTRIES);
      ok := MapKernel(d, DEVICES, ENTRIES * ENTRIES - DEVICES, DEVICES, PTE_W);
    }

    /** setupkvm: short of 65 frames it fails, and every frame it took is lost with the directory. */
    method SetupKvm(data: nat) returns (r: Option<nat>)
      requires Valid() && TEXT < data < TOP
      modifies this
      ensures Valid() && |mem| == old(|mem|) && Elsewhere(old(mem), old(owner), mem, 0, 0, 0)
      ensures r == None <==> old(|free|) < KTABLES + 1
      ensures r == None ==>
        free == [] && forall f: nat :: f < |owner| ==> owner[f] == if old(owner)[f] == Free then Lost else old(owner)[f]
      ensures r != None ==>
        && |free| == old(|free|) - (KTABLES + 1) && NewSpace(old(owner), owner, r.value)
        && (forall vp: nat :: Pte(mem, r.value, vp) == KernelEntry(data, vp))
        && forall j: nat :: HasTable(mem, r.value, j) ==> j >= USER / ENTRIES
    {
      ghost var mem0, owner0, have := mem, owner, |free|;
      var d := ZeroPage();
      if d == None {
        NoneFree(mem, owner, freelist);
        return None;
      }
      ghost var mem1, owner1 := mem, owner[d.value := Dir];
      NewDir(mem, owner, d.value);
      ListKept(mem, owner, mem, owner1, freelist, free);
      owner := owner1;
      var ok := MapKmap(d.value, data);
      SeenThrough(mem0, owner0, mem1, owner1, mem);
      if ok { return Some(d.value); }
      NoneFree(mem, owner, freelist);
      forall vp: nat | vp < USER ensures Look(mem, d.value, vp) == Unmapped {
        assert Look(mem1, d.value, vp) == Unmapped;
      }
      forall f: nat | f < |owner0| && owner0[f].Table? ensures owner0[f].d != d.value {
        assert UseOk(mem0, owner0, f);
      }
      RetireDir(mem, owner, d.value, Lost);
      ListKept(mem, owner, mem, Retired(owner, d.value, Lost), freelist, free);
      owner := Retired(owner, d.value, Lost);
      r := None;
    }

    /** kalloc and memset */
    method ZeroPage() returns (r: Option<nat>)
      requires Valid()
      modifies this
      ensures Valid() && |mem| == old(|mem|) && Elsewhere(old(mem), old(owner), mem, 0, 0, 0)
      ensures r == None <==> old(free) == []
      ensures r == None ==> mem == old(mem) && owner == old(owner) && free == []
      ensures r != None ==>
        && r.value < |mem| && old(owner)[r.value] == Free && owner == old(owner)[r.value := Held]
        && free == old(free)[1..] && mem == old(mem)[r.value := Zeros()]
    {
      r := Kalloc();
      if r != None { Clear(r.value); }
    }

    /** One round of copyuvm's loop: page `vp` of `c` becomes a copy of page `vp` of `d`. */
    method CopyPage(d: nat, c: nat, vp: nat) returns (got: bool, mapped: bool, ghost f: nat)
      requires Valid() && IsDir(owner, d) && IsDir(owner, c) && d != c && vp < USER
      requires Present(Pte(mem, d, vp)) && !Present(Pte(mem, c, vp))
      modifies this
      ensures Valid() && |mem| == old(|mem|) && IsDir(owner, c) && IsDir(owner, d)
      ensures got <==> old(free) != []
      ensures !got ==> !mapped && mem == old(mem) && owner == old(owner) && free == []
      ensures got ==> (mapped <==> old(HasTable(mem, c, vp / ENTRIES)) || |old(free)| > 1)
      ensures got && mapped ==>
        && PutPage(old(mem), old(owner), mem, c, vp, old(ContentOf(mem, d, vp)))
        && UsesGrown(old(owner), owner, c, vp, vp + 1, {})
        && |free| + 1 + (if old(HasTable(mem, c, vp / ENTRIES)) then 0 else 1) == |old(free)|
      ensures got && !mapped ==>
        && free == [] && f < |owner| && old(owner)[f] == Free && owner == old(owner)[f := Lost]
        && Elsewhere(old(mem), old(owner), mem, 0, 0, 0)
        && forall j: nat :: HasTable(mem, c, j) <==> old(HasTable(mem, c, j))
    {
      ghost var mem0, owner0 := mem, owner;
      var pte := Pte(mem, d, vp);
      var from, flags := FrameOf(pte), FlagsOf(pte);
      ContentIs(mem, owner, d, vp, pte, from, flags);
      f := 0;
      mapped := false;
      var r := CopyFrame(from, c);
      if r == None { return false, false, 0; }
      got := true;
      f := r.value;
      ghost var mem1, owner1 := mem, owner;
      mapped := MapUser(c, vp, r.value, flags);
      if mapped {
        PutThen(mem0, owner0, mem1, owner1, mem, c, vp, Content(WithP(flags), mem0[from]));
        UsesPut(owner0, owner, c, vp, f);
      } else {
        Lose(f);
      }
    }

    /** kalloc and memmove */
    method CopyFrame(from: nat, ghost c: nat) returns (r: Option<nat>)
      requires Valid() && IsDir(owner, c) && from < |mem| && owner[from].Page?
      modifies this
      ensures Valid() && |mem| == old(|mem|)
      ensures r == None <==> old(free) == []
      ensures r == None ==> mem == old(mem) && owner == old(owner) && free == []
      ensures r != None ==>
        && r.value < |mem| && old(owner)[r.value] == Free && owner == old(owner)[r.value := Held]
        && free == old(free)[1..] && mem == old(mem)[r.value := old(mem)[from]]
      ensures Elsewhere(old(mem), old(owner), mem, 0, 0, 0)
      ensures forall wp: nat :: Pte(mem, c, wp) == old(Pte(mem, c, wp))
      ensures forall j: nat :: HasTable(mem, c, j) <==> old(HasTable(mem, c, j))
    {
      r := Kalloc();
      if r == None { return; }
      ghost var mem0, owner0 := mem, owner;
      RewriteUnused(mem, owner, r.value, mem[from], Held);
      assert owner[r.value := Held] == owner;
      ListKept(mem, owner, mem[r.value := mem[from]], owner, freelist, free);
      mem := mem[r.value := mem[from]];
      forall wp: nat ensures Pte(mem, c, wp) == Pte(mem0, c, wp) {
        PteKept(mem0, owner0, r.value, mem0[from], c, wp);
      }
    }

    /** copyuvm's loop; `h` is the first page that is not mapped, on which it panics. */
    method CopyPages(d: nat, c: nat, n: nat, ghost h: nat) returns (end: CopyEnd, ghost k: nat, ghost lost: set<nat>)
      requires Valid() && IsDir(owner, d) && IsDir(owner, c) && d != c && n <= USER && FirstUnmapped(mem, d, n, h)
        && Shows(mem, c, 0, {})
      modifies this
      ensures Valid() && |mem| == old(|mem|) && IsDir(owner, c) && k <= h
      ensures Grew(old(mem), old(owner), mem, c, 0, k, Wanted(old(mem), d, n))
        && UsesGrown(old(owner), owner, c, 0, k, lost)
      ensures end == if old(Cost(mem, c, 0, h)) > old(|free|) then Short else if h < n then Missing else Whole
      ensures end == Whole ==> k == n && lost == {} && |free| == old(|free|) - old(Cost(mem, c, 0, n))
      ensures end == Short ==> k < h && old(Cost(mem, c, 0, k)) + |lost| == old(|free|) < old(Cost(mem, c, 0, k + 1))
    {
      ghost var mem0, owner0, have := mem, owner, |free|;
      ghost var want := Wanted(mem, d, n);
      var i := 0;
      k, lost := 0, {};
      while i < n
        invariant i <= h && Valid() && |mem| == |mem0| && IsDir(owner, c) && IsDir(owner, d) && k == i && lost == {}
        invariant Growing(mem0, owner0, have, mem, owner, |free|, c, 0, i, i, {}, want)
        decreases n - i
      {
        end, lost := CopyNext(d, c, i, n, h, mem0, owner0, have);
        if end != Whole { return end, i, lost; }
        i := i + 1;
        k := i;
      }
      end := Whole;
    }

    /** One round of copyuvm's loop: the page is copied, or there is none, or no frame for it. */
    method CopyNext(d: nat, c: nat, i: nat, ghost n: nat, ghost h: nat, ghost mem0: Memory, ghost owner0: seq<Use>,
                    ghost have: nat)
      returns (end: CopyEnd, ghost lost: set<nat>)
      requires Valid() && IsDir(owner, d) && IsDir(owner, c) && IsDir(owner0, c) && IsDir(owner0, d) && d != c
      requires i < n <= USER && i <= h && FirstUnmapped(mem0, d, n, h) && Shows(mem0, c, 0, {})
      requires Growing(mem0, owner0, have, mem, owner, |free|, c, 0, i, i, {}, Wanted(mem0, d, n))
      modifies this
      ensures Valid() && |mem| == old(|mem|) && IsDir(owner, c) && IsDir(owner, d)
      ensures Grew(mem0, owner0, mem, c, 0, if end == Whole then i + 1 else i, Wanted(mem0, d, n))
      ensures UsesGrown(owner0, owner, c, 0, if end == Whole then i + 1 else i, lost)
      ensures end == Whole ==>
        && i < h && lost == {}
        && Growing(mem0, owner0, have, mem, owner, |free|, c, 0, i + 1, i + 1, {}, Wanted(mem0, d, n))
      ensures end == Missing ==> i == h && Cost(mem0, c, 0, h) <= have
      ensures end == Short ==>
        i < h && Cost(mem0, c, 0, i) + |lost| == have < Cost(mem0, c, 0, i + 1) <= Cost(mem0, c, 0, h)
    {
      assert Look(mem, d, i) == Look(mem0, d, i);
      if !Present(Pte(mem, d, i)) { return Missing, {}; }
      var mapped;
      mapped, lost := CopyRound(d, c, i, n, mem0, owner0, have);
      if !mapped { NextCost(mem0, c, i, h); }
      end := if mapped then Whole else Short;
    }

    /** CopyPage as a step from one state of the loop to the next. */
    method CopyRound(d: nat, c: nat, i: nat, ghost n: nat, ghost mem0: Memory, ghost owner0: seq<Use>, ghost have: nat)
      returns (mapped: bool, ghost lost: set<nat>)
      requires Valid() && IsDir(owner, d) && IsDir(owner, c) && IsDir(owner0, c) && IsDir(owner0, d) && d != c
        && i < n <= USER
      requires Look(mem0, d, i).Mapped? && Shows(mem0, c, 0, {})
      requires Growing(mem0, owner0, have, mem, owner, |free|, c, 0, i, i, {}, Wanted(mem0, d, n))
      modifies this
      ensures Valid() && |mem| == old(|mem|) && IsDir(owner, c) && IsDir(owner, d)
      ensures mapped ==>
        lost == {} && Growing(mem0, owner0, have, mem, owner, |free|, c, 0, i + 1, i + 1, {}, Wanted(mem0, d, n))
      ensures !mapped ==>
        Grew(mem0, owner0, mem, c, 0, i, Wanted(mem0, d, n)) && UsesGrown(owner0, owner, c, 0, i, lost)
      ensures !mapped ==> Cost(mem0, c, 0, i) + |lost| == have && |lost| <= 1 && (|lost| == 1 ==> Needs(mem0, c, 0, i))
    {
      ghost var want := Wanted(mem0, d, n);
      ShowsGrown(mem0, owner0, mem, c, 0, i, want, {});
      assert Look(mem, c, i) == Unmapped;
      assert Look(mem, d, i) == Look(mem0, d, i);
      ghost var mem1, owner1, left := mem, owner, |free|;
      var got; ghost var f;
      got, mapped, f := CopyPage(d, c, i);
      lost := {};
      if mapped {
        Advance(mem0, owner0, have, mem1, owner1, left, mem, owner, |free|, c, 0, i, want);
      } else if got {
        AdvanceLost(mem0, owner0, have, mem1, owner1, mem, owner, c, 0, i, f, want);
        lost := {f};
      }
    }

    /**
     copyuvm on any space: a copy with the same flags and contents in fresh frames, or nothing; the original
     is untouched. It panics if and only if a page below the size is not mapped and there are frames enough
     to come to the first such page, `h`.
     */
    method CopyUvm(d: nat, sz: nat, data: nat) returns (r: CopyResult, ghost h: nat, ghost lost: set<nat>)
      requires Valid() && IsDir(owner, d) && sz <= KERNBASE && TEXT < data < TOP
      modifies this
      ensures FirstUnmapped(old(mem), d, PagesOf(sz), h)
      ensures r.NoCopy? <==> old(|free|) < KTABLES + 1 + CopyCost(h)
      ensures r.CopyPanic? <==> old(|free|) >= KTABLES + 1 + CopyCost(h) && h < PagesOf(sz)
      ensures !r.CopyPanic? ==> Valid() && |mem| == old(|mem|) && Elsewhere(old(mem), old(owner), mem, 0, 0, 0)
      ensures r.CopyOf? ==>
        && |free| == old(|free|) - (KTABLES + 1) - CopyCost(PagesOf(sz))
        && Copied(old(mem), old(owner), mem, owner, d, r.dir, PagesOf(sz))
      ensures r.NoCopy? ==> OnlyLost(old(owner), owner, lost)
      ensures r.NoCopy? && old(|free|) < KTABLES + 1 ==>
        forall f: nat :: f < |owner| && old(owner)[f] == Free ==> f in lost
      ensures r.NoCopy? && old(|free|) >= KTABLES + 1 ==>
        |lost| == if CopyLoses(old(|free|) - (KTABLES + 1)) then 1 else 0
    {
      ghost var mem0, owner0 := mem, owner;
      lost := {};
      var n := PagesOf(sz);
      h := FindUnmapped(mem, d, n);
      var c := SetupKvm(data);
      if c == None {
        lost := set f: nat | f < |owner0| && owner0[f] == Free;
        return NoCopy, h, lost;
      }
      ghost var mem1, owner1 := mem, owner;
      SetUp(mem0, owner0, mem1, owner1, d, c.value, data, n, h);
      var end;
      end, lost := CopyInto(d, c.value, n, h, mem0, owner0);
      r := if end == Whole then CopyOf(c.value) else if end == Missing then CopyPanic else NoCopy;
    }

    /** copyuvm after setupkvm */
    method CopyInto(d: nat, c: nat, n: nat, ghost h: nat, ghost mem0: Memory, ghost owner0: seq<Use>)
      returns (end: CopyEnd, ghost lost: set<nat>)
      requires Valid() && IsDir(owner, d) && IsDir(owner, c) && d != c && n <= USER && FirstUnmapped(mem, d, n, h)
        && Shows(mem, c, 0, {})
      requires Inv(mem0, owner0) && IsDir(owner0, d) && Elsewhere(mem0, owner0, mem, 0, 0, 0)
        && NewSpace(owner0, owner, c)
      requires forall j: nat :: HasTable(mem, c, j) ==> j >= USER / ENTRIES
      modifies this
      ensures end == if CopyCost(h) > old(|free|) then Short else if h < n then Missing else Whole
      ensures end != Missing ==> Valid() && |mem| == old(|mem|) && Elsewhere(mem0, owner0, mem, 0, 0, 0)
      ensures end == Whole ==> |free| == old(|free|) - CopyCost(n) && Copied(mem0, owner0, mem, owner, d, c, n)
      ensures end == Short ==> OnlyLost(owner0, owner, lost) && |lost| == if CopyLoses(old(|free|)) then 1 else 0
    {
      ghost var mem1, owner1, have := mem, owner, |free|;
      CopyCostIs(mem, c, n);
      CopyCostIs(mem, c, h);
      ghost var k;
      end, k, lost := CopyPages(d, c, n, h);
      ghost var mem2, owner2 := mem, owner;
      if end == Whole {
        CopyDone(mem0, owner0, mem1, owner1, mem, owner, d, c, n);
      } else if end == Short {
        CopyStuck(mem1, c, have, k, n);
        FreeVm(c);
        CopyUndone(mem0, owner0, mem1, owner1, mem2, owner2, mem, owner, d, c, n, k, lost);
      }
    }

    /**
     growproc on the size of the process. Growing when one frame is left for the last page and none for its
     table reports success with that page unmapped, a hole; in every other case of too few frames it fails
     and changes no page. Shrinking to nothing frees the pages but reports failure and leaves the size as it
     was; taking away more than there is changes nothing and reports success.
     */
    method GrowProc(d: nat, sz: nat, n: int, ghost holes: set<nat>)
      returns (ok: bool, sz': nat, ghost k: nat, ghost holes': set<nat>)
      requires Valid() && IsDir(owner, d) && sz < KERNBASE && Shows(mem, d, PagesOf(sz), holes)
        && -0x8000_0000 <= n < 0x8000_0000
      modifies this
      ensures Valid() && |mem| == old(|mem|) && IsDir(owner, d)
      ensures n == 0 || sz + n < 0 ==> (ok <==> n == 0 || sz > 0) && sz' == sz && mem == old(mem) && owner == old(owner)
      ensures n > 0 ==>
        Enlarged(old(mem), old(owner), |old(free)|, mem, owner, |free|, d, sz, sz + n, ok, sz', k, holes, holes')
      ensures n < 0 <= sz + n ==> Shrunk(old(mem), old(owner), mem, owner, d, sz, sz + n, ok, sz', holes, holes')
    {
      ok, sz', k, holes' := true, sz, 0, holes;
      if n > 0 {
        ok, sz', k, holes' := GrowTo(d, sz, sz + n, holes);
      } else if n < 0 {
        ok, sz', holes' := ShrinkTo(d, sz, if sz + n < 0 then sz + n + 0x1_0000_0000 else sz + n, holes);
      }
    }

    method GrowTo(d: nat, sz: nat, newsz: nat, ghost holes: set<nat>)
      returns (ok: bool, sz': nat, ghost k: nat, ghost holes': set<nat>)
      requires Valid() && IsDir(owner, d) && sz < KERNBASE && sz < newsz && Shows(mem, d, PagesOf(sz), holes)
      modifies this
      ensures Valid() && |mem| == old(|mem|) && IsDir(owner, d)
      ensures Enlarged(old(mem), old(owner), |old(free)|, mem, owner, |free|, d, sz, newsz, ok, sz', k, holes, holes')
    {
      ghost var lo, hi := PagesOf(sz), PagesOf(newsz);
      holes' := if newsz < KERNBASE && Hole(mem, d, |free|, lo, hi) then holes + {hi - 1} else holes;
      var r;
      r, k := AllocUvm(d, sz, newsz, holes);
      if newsz < KERNBASE {
        GrowEnds(old(mem), old(owner), |old(free)|, mem, owner, |free|, d, lo, hi, k, r != 0, holes);
      }
      ok := r != 0;
      sz' := if ok then r else sz;
    }

    method ShrinkTo(d: nat, sz: nat, newsz: nat, ghost holes: set<nat>)
      returns (ok: bool, sz': nat, ghost holes': set<nat>)
      requires Valid() && IsDir(owner, d) && sz < KERNBASE && Shows(mem, d, PagesOf(sz), holes)
      modifies this
      ensures Valid() && |mem| == old(|mem|) && IsDir(owner, d)
      ensures newsz >= sz ==> (ok <==> sz > 0) && sz' == sz && mem == old(mem) && owner == old(owner)
      ensures newsz < sz ==> Shrunk(old(mem), old(owner), mem, owner, d, sz, newsz, ok, sz', holes, holes')
    {
      ghost var mem0, owner0, lo, hi := mem, owner, PagesOf(newsz), PagesOf(sz);
      if AllReached(mem, d, lo, hi) { Returned(mem, owner, d, lo, hi); }
      var r := DeallocUvm(d, sz, newsz);
      holes' := HolesLeft(newsz, lo, hi, holes);
      if newsz < sz { ShrinkShows(mem0, mem, d, newsz, lo, hi, holes, holes'); }
      ok := r != 0;
      sz' := if ok then r else sz;
    }
  }

  /** What growproc makes of a space when it grows. */
  ghost predicate Enlarged(mem0: Memory, owner0: seq<Use>, have: nat, mem: Memory, owner: seq<Use>, left: nat, d: nat,
                           sz: nat, newsz: nat, ok: bool, sz': nat, k: nat, holes: set<nat>, holes': set<nat>) {
    && sz' == (if ok then newsz else sz)
    && if newsz >= KERNBASE then !ok && mem == mem0 && owner == owner0 && holes' == holes
       else
         var lo, hi := PagesOf(sz), PagesOf(newsz);
         && (ok <==> Cost(mem0, d, lo, hi) <= have || Hole(mem0, d, have, lo, hi))
         && holes' == (if Hole(mem0, d, have, lo, hi) then holes + {hi - 1} else holes)
         && Shows(mem, d, PagesOf(sz'), holes')
         && (!ok ==> Elsewhere(mem0, owner0, mem, 0, 0, 0))
         && GrowOutcome(mem0, owner0, have, mem, owner, left, d, lo, hi, k, ok, ZeroPages(hi), holes)
  }

  function Below(n: nat): (r: set<nat>)
    ensures forall h :: h in r <==> 0 <= h < n
  {
    if n == 0 then {} else Below(n - 1) + {n - 1}
  }

  /** Shrinking takes the holes past the new size away; shrinking to nothing keeps the size, all of it a hole. */
  ghost function HolesLeft(newsz: nat, lo: nat, hi: nat, holes: set<nat>): set<nat> {
    if newsz == 0 then Below(hi) else set h | h in holes && h < lo
  }

  /** And when it shrinks: the smaller space, exactly if the loop missed nothing. */
  ghost predicate Shrunk(mem0: Memory, owner0: seq<Use>, mem: Memory, owner: seq<Use>, d: nat, sz: nat, newsz: nat,
                         ok: bool, sz': nat, holes: set<nat>, holes': set<nat>) {
    var lo, hi := PagesOf(newsz), PagesOf(sz);
    && (ok <==> newsz != 0) && sz' == (if ok then newsz else sz)
    && holes' == HolesLeft(newsz, lo, hi, holes)
    && (forall vp: nat :: vp < USER ==>
          Look(mem, d, vp) == if Dropped(mem0, d, lo, hi, vp) then Unmapped else Look(mem0, d, vp))
    && (Shows(mem, d, PagesOf(sz'), holes') <==> AllReached(mem0, d, lo, hi))
    && (AllReached(mem0, d, lo, hi) ==> PagesReturned(owner0, owner, d, lo))
  }

  /** Without holes it misses nothing. */
  lemma NoHolesReached(mem: Memory, d: nat, lo: nat, hi: nat)
    requires Shows(mem, d, hi, {}) && hi <= USER
    ensures AllReached(mem, d, lo, hi)
  {
    PrefixShows(mem, d, hi);
    PrefixReached(mem, d, hi, lo, hi);
  }

  lemma ShrinkShows(mem0: Memory, mem: Memory, d: nat, newsz: nat, lo: nat, hi: nat, holes: set<nat>, holes': set<nat>)
    requires lo == PagesOf(newsz) <= hi <= USER && Shows(mem0, d, hi, holes)
      && holes' == HolesLeft(newsz, lo, hi, holes)
    requires forall vp: nat :: vp < USER ==>
      Look(mem, d, vp) == if Dropped(mem0, d, lo, hi, vp) then Unmapped else Look(mem0, d, vp)
    ensures Shows(mem, d, if newsz == 0 then hi else lo, holes') <==> AllReached(mem0, d, lo, hi)
  {
    AllReachedIff(mem0, d, lo, hi);
    if Shows(mem, d, if newsz == 0 then hi else lo, holes') {
      forall vp: nat | lo <= vp < USER && Look(mem0, d, vp).Mapped? ensures vp < hi && !Skipped(mem0, d, lo, vp) {
        assert Look(mem, d, vp) == Unmapped;
      }
    }
  }

  // ----- a process that calls sbrk again and again -----

  /** What is known of a process: memory, uses, free frames, its size, and the pages below it that are not mapped. */
  datatype Space = Space(mem: Memory, owner: seq<Use>, frames: nat, sz: nat, holes: set<nat>)

  /**
   A call of growproc, whether it reports success and where it gets stuck, or whatever others do in between,
   which leaves the pages of the process alone.
   */
  datatype SbrkStep = Sbrk(n: int, ok: bool, k: nat) | Others

  /** The holes a call makes: the last page, if its table could not be made, or all, if it shrinks to nothing. */
  ghost function Made(a: Space, d: nat, step: SbrkStep): set<nat> {
    match step
    case Others => {}
    case Sbrk(n, _, _) =>
      if n > 0 && a.sz + n < KERNBASE && Hole(a.mem, d, a.frames, PagesOf(a.sz), PagesOf(a.sz + n))
        then {PagesOf(a.sz + n) - 1}
      else if n < 0 && a.sz + n == 0 then Below(PagesOf(a.sz))
      else {}
  }

  /** A step as GrowProc states it, a shrinking that misses no page. */
  ghost predicate Takes(a: Space, d: nat, step: SbrkStep, b: Space) {
    match step
    case Others =>
      b.sz == a.sz && b.holes == a.holes && forall vp: nat :: vp < USER ==> Look(b.mem, d, vp) == Look(a.mem, d, vp)
    case Sbrk(n, ok, k) =>
      if n > 0 then
        Enlarged(a.mem, a.owner, a.frames, b.mem, b.owner, b.frames, d, a.sz, a.sz + n, ok, b.sz, k, a.holes, b.holes)
      else if n < 0 <= a.sz + n then
        && AllReached(a.mem, d, PagesOf(a.sz + n), PagesOf(a.sz))
        && Shrunk(a.mem, a.owner, b.mem, b.owner, d, a.sz, a.sz + n, ok, b.sz, a.holes, b.holes)
      else b.mem == a.mem && b.sz == a.sz && b.holes == a.holes
  }

  /** A process whose first pages are all mapped makes its calls. */
  ghost predicate Sbrks(spaces: seq<Space>, d: nat, steps: seq<SbrkStep>) {
    && |spaces| == |steps| + 1 && spaces[0].holes == {} && Prefix(spaces[0].mem, d, PagesOf(spaces[0].sz))
    && spaces[0].sz < KERNBASE
    && forall i: nat {:trigger steps[i]} :: i < |steps| ==> Takes(spaces[i], d, steps[i], spaces[i + 1])
  }

  lemma TakesShows(a: Space, d: nat, step: SbrkStep, b: Space)
    requires Takes(a, d, step, b) && Shows(a.mem, d, PagesOf(a.sz), a.holes) && a.sz < KERNBASE
    ensures Shows(b.mem, d, PagesOf(b.sz), b.holes) && b.sz < KERNBASE && HolesTo(a, d, step, b)
  {
    if step.Sbrk? && step.n > 0 {
      EnlargedShows(a, d, step, b);
    } else if step.Sbrk? && step.n < 0 <= a.sz + step.n {
      ShrunkShows(a, d, step, b);
    }
  }

  /** The holes afterwards: those made, and those there were and are still below the size. */
  ghost predicate HolesTo(a: Space, d: nat, step: SbrkStep, b: Space) {
    forall h: nat :: h in b.holes <==> h in Made(a, d, step) || (h in a.holes && h < PagesOf(b.sz))
  }

  lemma EnlargedShows(a: Space, d: nat, step: SbrkStep, b: Space)
    requires step.Sbrk? && step.n > 0 && Takes(a, d, step, b) && Shows(a.mem, d, PagesOf(a.sz), a.holes)
      && a.sz < KERNBASE
    ensures Shows(b.mem, d, PagesOf(b.sz), b.holes) && b.sz < KERNBASE && HolesTo(a, d, step, b)
  {
    var newsz := a.sz + step.n;
    if newsz < KERNBASE {
      EnlargedHoles(a, d, newsz, step.ok, step.k, b);
      HolesGrown(a, d, step, b, newsz);
    }
  }

  lemma EnlargedHoles(a: Space, d: nat, newsz: nat, ok: bool, k: nat, b: Space)
    requires a.sz < newsz < KERNBASE
    requires Enlarged(a.mem, a.owner, a.frames, b.mem, b.owner, b.frames, d, a.sz, newsz, ok, b.sz, k, a.holes, b.holes)
    ensures Shows(b.mem, d, PagesOf(b.sz), b.holes) && a.sz <= b.sz <= newsz
    ensures b.holes ==
      a.holes + if Hole(a.mem, d, a.frames, PagesOf(a.sz), PagesOf(newsz)) then {PagesOf(newsz) - 1} else {}
  {
  }

  lemma HolesGrown(a: Space, d: nat, step: SbrkStep, b: Space, newsz: nat)
    requires step.Sbrk? && step.n > 0 && newsz == a.sz + step.n < KERNBASE && a.sz <= b.sz
    requires forall h :: h in a.holes ==> h < PagesOf(a.sz)
    requires b.holes ==
      a.holes + if Hole(a.mem, d, a.frames, PagesOf(a.sz), PagesOf(newsz)) then {PagesOf(newsz) - 1} else {}
    ensures HolesTo(a, d, step, b)
  {
  }

  lemma ShrunkShows(a: Space, d: nat, step: SbrkStep, b: Space)
    requires step.Sbrk? && step.n < 0 <= a.sz + step.n && Takes(a, d, step, b) && a.sz < KERNBASE
    requires Shows(a.mem, d, PagesOf(a.sz), a.holes)
    ensures Shows(b.mem, d, PagesOf(b.sz), b.holes) && b.sz < KERNBASE && HolesTo(a, d, step, b)
  {
  }

  /**
   Over any sequence of calls: the pages below the size are mapped but for the holes, and a hole is a page
   that some call made one and no later call shrank away.
   */
  lemma {:induction false} HolesHistory(spaces: seq<Space>, d: nat, steps: seq<SbrkStep>, n: nat)
    requires Sbrks(spaces, d, steps) && n < |spaces|
    ensures Shows(spaces[n].mem, d, PagesOf(spaces[n].sz), spaces[n].holes) && spaces[n].sz < KERNBASE
    ensures forall h: nat :: h in spaces[n].holes <==> exists i: nat :: StillHole(spaces, d, steps, i, n, h)
    decreases n
  {
    if n == 0 {
      PrefixShows(spaces[0].mem, d, PagesOf(spaces[0].sz));
    } else {
      HolesHistory(spaces, d, steps, n - 1);
      assert Takes(spaces[n - 1], d, steps[n - 1], spaces[n]);
      TakesShows(spaces[n - 1], d, steps[n - 1], spaces[n]);
      forall h: nat ensures h in spaces[n].holes <==> exists i: nat :: StillHole(spaces, d, steps, i, n, h) {
        HoleNext(spaces, d, steps, n - 1, n, h);
      }
    }
  }

  /** Call `i` made page `h` a hole and the size has been above it ever since. */
  ghost predicate StillHole(spaces: seq<Space>, d: nat, steps: seq<SbrkStep>, i: nat, n: nat, h: nat) {
    && i < n && i < |steps| && i < |spaces| && h in Made(spaces[i], d, steps[i])
    && forall j: nat :: i < j <= n && j < |spaces| ==> h < PagesOf(spaces[j].sz)
  }

  lemma HoleNext(spaces: seq<Space>, d: nat, steps: seq<SbrkStep>, m: nat, n: nat, h: nat)
    requires m + 1 == n < |spaces| == |steps| + 1
    requires h in spaces[m].holes <==> exists i: nat :: StillHole(spaces, d, steps, i, m, h)
    requires h in spaces[n].holes <==>
      h in Made(spaces[m], d, steps[m]) || (h in spaces[m].holes && h < PagesOf(spaces[n].sz))
    requires h in spaces[n].holes ==> h < PagesOf(spaces[n].sz)
    ensures h in spaces[n].holes <==> exists i: nat :: StillHole(spaces, d, steps, i, n, h)
  {
    if h in Made(spaces[m], d, steps[m]) {
      assert StillHole(spaces, d, steps, m, n, h);
    }
    forall i: nat | i < m
      ensures StillHole(spaces, d, steps, i, n, h) <==>
        StillHole(spaces, d, steps, i, m, h) && h < PagesOf(spaces[n].sz)
    {
    }
    forall i: nat | StillHole(spaces, d, steps, i, m, h) ensures i < m {}
  }

  /** So the fork after them can panic if and only if some call made a hole that is still there. */
  lemma ForkMeetsHole(spaces: seq<Space>, d: nat, steps: seq<SbrkStep>, n: nat, h: nat)
    requires Sbrks(spaces, d, steps) && n < |spaces| && FirstUnmapped(spaces[n].mem, d, PagesOf(spaces[n].sz), h)
    ensures h < PagesOf(spaces[n].sz) <==> exists i: nat, g: nat :: StillHole(spaces, d, steps, i, n, g)
    ensures h < PagesOf(spaces[n].sz) ==> exists i: nat :: StillHole(spaces, d, steps, i, n, h)
  {
    HolesHistory(spaces, d, steps, n);
    FirstHole(spaces[n].mem, d, PagesOf(spaces[n].sz), spaces[n].holes, h);
    if i: nat, g: nat :| StillHole(spaces, d, steps, i, n, g) { assert g in spaces[n].holes; }
  }

  // ----- what a copy comes to -----

  /** How copyuvm's loop ends: all pages copied, out of frames, or at a page that is not mapped. */
  datatype CopyEnd = Whole | Short | Missing

  datatype CopyResult = CopyOf(dir: nat) | NoCopy | CopyPanic

  /** Page `h` is the first of the first `n` that is not mapped, or `n` if all are. */
  ghost predicate FirstUnmapped(mem: Memory, d: nat, n: nat, h: nat) {
    && h <= n && (forall vp: nat :: vp < h ==> Look(mem, d, vp).Mapped?)
    && (h < n ==> !Look(mem, d, h).Mapped?)
  }

  lemma {:induction false} FindUnmapped(mem: Memory, d: nat, n: nat) returns (h: nat)
    ensures FirstUnmapped(mem, d, n, h)
  {
    if n == 0 {
      h := 0;
    } else {
      h := FindUnmapped(mem, d, n - 1);
      if h == n - 1 && Look(mem, d, h).Mapped? { h := n; }
    }
  }

  /** In a space with holes it is the first hole. */
  lemma FirstHole(mem: Memory, d: nat, n: nat, holes: set<nat>, h: nat)
    requires Shows(mem, d, n, holes) && n <= USER && FirstUnmapped(mem, d, n, h)
    ensures h < n <==> holes != {}
    ensures h < n ==> h in holes && forall i :: i in holes ==> h <= i
  {
    if i :| i in holes { assert !Look(mem, d, i).Mapped?; }
  }

  /** Frames for `n` pages in a space with no user table. */
  function CopyCost(n: nat): nat { n + (n + ENTRIES - 1) / ENTRIES }

  /** With `have` frames, too few, the one taken last is lost because no frame is left for its table. */
  predicate CopyLoses(have: nat) { have >= 1 && (have - 1) % (ENTRIES + 1) == 0 }

  ghost predicate OnlyLost(owner0: seq<Use>, owner: seq<Use>, lost: set<nat>) {
    && |owner| == |owner0| && (forall f: nat :: f in lost ==> f < |owner| && owner0[f] == Free)
    && forall f: nat :: f < |owner| ==> owner[f] == if f in lost then Lost else owner0[f]
  }

  ghost predicate Copied(mem0: Memory, owner0: seq<Use>, mem: Memory, owner: seq<Use>, d: nat, c: nat, n: nat) {
    && IsDir(owner, c) && c < |owner0| && owner0[c] == Free
    && (forall vp: nat :: vp < USER ==> if vp < n then PageIs(mem, c, vp, ContentOf(mem0, d, vp))
      else Look(mem, c, vp) == Unmapped)
    && |owner| == |owner0|
    && forall f: nat :: f < |owner| ==>
      if owner0[f] == Free then owner[f] == Free || Belongs(owner, c, f) else owner[f] == owner0[f]
  }

  lemma CopyCostIs(mem: Memory, c: nat, k: nat)
    requires k <= USER && forall j: nat :: HasTable(mem, c, j) ==> j >= USER / ENTRIES
    ensures Cost(mem, c, 0, k) == CopyCost(k)
  {
    if k > 0 { CountTables(mem, c, 0, k); }
  }

  lemma SetUp(mem0: Memory, owner0: seq<Use>, mem1: Memory, owner1: seq<Use>, d: nat, c: nat, data: nat, n: nat, h: nat)
    requires Elsewhere(mem0, owner0, mem1, 0, 0, 0) && NewSpace(owner0, owner1, c) && IsDir(owner0, d)
      && FirstUnmapped(mem0, d, n, h) && n <= USER
    requires (forall vp: nat :: Pte(mem1, c, vp) == KernelEntry(data, vp)) && forall j: nat :: HasTable(mem1, c, j) ==>
      j >= USER / ENTRIES
    ensures IsDir(owner1, d) && d != c && FirstUnmapped(mem1, d, n, h) && Shows(mem1, c, 0, {})
    ensures forall e: nat :: IsDir(owner0, e) ==> IsDir(owner1, e) && e != c
  {
    forall vp: nat | vp < USER ensures Look(mem1, d, vp) == Look(mem0, d, vp) {}
  }

  lemma CopyDone(mem0: Memory, owner0: seq<Use>, mem1: Memory, owner1: seq<Use>, mem: Memory, owner: seq<Use>, d: nat,
                 c: nat, n: nat)
    requires Elsewhere(mem0, owner0, mem1, 0, 0, 0) && NewSpace(owner0, owner1, c) && IsDir(owner0, d) && n <= USER
    requires Grew(mem1, owner1, mem, c, 0, n, Wanted(mem1, d, n)) && UsesGrown(owner1, owner, c, 0, n, {})
      && Shows(mem1, c, 0, {})
    ensures Copied(mem0, owner0, mem, owner, d, c, n) && Elsewhere(mem0, owner0, mem, 0, 0, 0)
  {
    forall vp: nat | vp < USER
      ensures if vp < n then PageIs(mem, c, vp, ContentOf(mem0, d, vp)) else Look(mem, c, vp) == Unmapped
    {
      if vp < n {
        assert PageIs(mem, c, vp, Wanted(mem1, d, n)[vp]);
        assert Look(mem1, d, vp) == Look(mem0, d, vp);
      }
    }
    forall e: nat, vp: nat | IsDir(owner0, e) && vp < USER ensures Look(mem, e, vp) == Look(mem0, e, vp) {
      assert IsDir(owner1, e);
    }
  }

  lemma CopyUndone(mem0: Memory, owner0: seq<Use>, mem1: Memory, owner1: seq<Use>, mem2: Memory, owner2: seq<Use>,
                   mem: Memory, owner: seq<Use>, d: nat, c: nat, n: nat, k: nat, lost: set<nat>)
    requires Inv(mem0, owner0) && Elsewhere(mem0, owner0, mem1, 0, 0, 0) && NewSpace(owner0, owner1, c)
    requires Grew(mem1, owner1, mem2, c, 0, k, Wanted(mem1, d, n)) && UsesGrown(owner1, owner2, c, 0, k, lost)
    requires Elsewhere(mem2, owner2, mem, c, 0, USER) && |owner| == |owner2|
    requires forall f: nat :: f < |owner| ==> owner[f] == if Belongs(owner2, c, f) then Free else owner2[f]
    ensures OnlyLost(owner0, owner, lost) && Elsewhere(mem0, owner0, mem, 0, 0, 0)
  {
    forall f: nat | f < |owner| ensures owner[f] == if f in lost then Lost else owner0[f] {
      assert UseOk(mem0, owner0, f);
    }
    forall e: nat, vp: nat | IsDir(owner0, e) && vp < USER ensures Look(mem, e, vp) == Look(mem0, e, vp) {
      assert IsDir(owner1, e) && IsDir(owner2, e);
    }
  }

  lemma CopyStuck(mem: Memory, c: nat, have: nat, k: nat, n: nat)
    requires k < n <= USER && forall j: nat :: HasTable(mem, c, j) ==> j >= USER / ENTRIES
    requires Cost(mem, c, 0, k) <= have < Cost(mem, c, 0, k + 1)
    ensures have - Cost(mem, c, 0, k) == if CopyLoses(have) then 1 else 0
  {
    CopyCostIs(mem, c, k);
    CopyCostIs(mem, c, k + 1);
    LoseForm(have, k);
  }

  lemma LoseForm(have: nat, k: nat)
    requires CopyCost(k) <= have < CopyCost(k + 1)
    ensures have - CopyCost(k) == if CopyLoses(have) then 1 else 0
  {
    var j, r := k / ENTRIES, k % ENTRIES;
    assert k == ENTRIES * j + r;
    assert CopyCost(k) == (ENTRIES + 1) * j + r + if r == 0 then 0 else 1;
    assert CopyCost(k + 1) == (ENTRIES + 1) * j + r + 2;
    if r > 0 {
      Remainder(have - 1, j, r);
    } else if have > CopyCost(k) {
      Remainder(have - 1, j, 0);
    } else if j > 0 {
      Remainder(have - 1, j - 1, ENTRIES);
    }
  }

  lemma Remainder(x: nat, q: nat, r: nat)
    requires x == (ENTRIES + 1) * q + r && r <= ENTRIES
    ensures x % (ENTRIES + 1) == r
  {
  }

  /** What the pages of a copy of `d` are to be. */
  function Wanted(mem: Memory, d: nat,
                  n: nat): seq<Content> { seq(n, vp requires 0 <= vp < n => ContentOf(mem, d, vp)) }

  lemma NextCost(mem0: Memory, c: nat, i: nat, n: nat)
    requires i < n
    ensures Cost(mem0, c, 0, i + 1) <= Cost(mem0, c, 0, n)
    ensures Cost(mem0, c, 0, i + 1) == Cost(mem0, c, 0, i) + 1 + if Needs(mem0, c, 0, i) then 1 else 0
  {
    CostGrows(mem0, c, 0, i + 1, n);
  }

  /** The directory `c` and its tables were free; nothing else changed use. */
  ghost predicate NewSpace(owner0: seq<Use>, owner: seq<Use>, c: nat) {
    && |owner| == |owner0| && c < |owner| && owner0[c] == Free && owner[c] == Dir
    && forall f: nat :: f < |owner| && f != c ==>
         if owner0[f] == Free then owner[f] == Free || (owner[f].Table? && owner[f].d == c) else owner[f] == owner0[f]
  }

  /** The flags a copy of the page gets, and its content. */
  function ContentOf(mem: Memory, d: nat, vp: nat): Content {
    match Look(mem, d, vp)
    case Unmapped => Content(0, [])
    case Mapped(f, flags, words) => Content(flags, words)
  }

  lemma ContentIs(mem: Memory, owner: seq<Use>, d: nat, vp: nat, pte: nat, f: nat, flags: nat)
    requires Inv(mem, owner) && IsDir(owner, d) && vp < USER && pte == Pte(mem, d, vp) && Present(pte)
    requires f == FrameOf(pte) && flags == FlagsOf(pte)
    ensures f < |mem| && owner[f].Page? && flags < 4096 && ContentOf(mem, d, vp) == Content(WithP(flags), mem[f])
  {
    assert PageOk(mem, owner, d, vp);
    FlagsCount(mem, owner, d, vp);
    OddFlags(pte);
  }

  lemma OddFlags(e: nat)
    ensures FlagsOf(e) % 2 == e % 2 && FlagsOf(e) < 4096
  {
    assert e == e / 4096 * 4096 + e % 4096;
  }

  /** First pages of the kernel text, of the memory above PHYSTOP and of the devices; tables for the kernel part. */
  const TEXT := 0x80100
  const TOP := 0x8E000
  const DEVICES := 0xFE000
  const KTABLES := 64

  /** What setupkvm maps: memory from KERNBASE on, text read-only, and the devices one to one. */
  function KernelEntry(data: nat, vp: nat): nat {
    if USER <= vp < TEXT || (TEXT <= data <= vp < TOP) then Entry(vp - USER, PTE_P + PTE_W)
    else if TEXT <= vp < data then Entry(vp - USER, PTE_P)
    else if DEVICES <= vp < ENTRIES * ENTRIES then Entry(vp, PTE_P + PTE_W)
    else 0
  }

  /**
   What that comes to at both levels: exactly the pages of memory and devices are there, at their frames, the
   kernel may write all but its text, and the user may use none.
   */
  lemma KernelAccess(mem: Memory, owner: seq<Use>, d: nat, data: nat, vp: nat)
    requires Inv(mem, owner) && IsDir(owner, d) && TEXT < data < TOP && vp < ENTRIES * ENTRIES
    requires Pte(mem, d, vp) == KernelEntry(data, vp)
    ensures var v := Look(mem, d, vp);
      && (v.Mapped? <==> USER <= vp < TOP || DEVICES <= vp)
      && (v.Mapped? ==> v.frame == if vp < TOP then vp - USER else vp)
      && (v.Mapped? ==> !HasU(v.flags) && (HasW(v.flags) <==> !(TEXT <= vp < data)))
  {
    assert TableOk(mem, owner, d, vp / ENTRIES);
    EntryParts(vp, PTE_P + PTE_W);
    if vp >= USER {
      EntryParts(vp - USER, PTE_P);
      EntryParts(vp - USER, PTE_P + PTE_W);
    }
  }

  /** The kernel part of `d` is mapped up to page `top`, with no more tables than that takes. */
  ghost predicate KernelUpTo(mem: Memory, d: nat, data: nat, top: nat) {
    && (forall wp: nat :: Pte(mem, d, wp) == if wp < top then KernelEntry(data, wp) else 0)
    && forall j: nat :: HasTable(mem, d, j) <==> USER < top && USER / ENTRIES <= j <= (top - 1) / ENTRIES
  }

  lemma UpToNext(mem0: Memory, mem: Memory, d: nat, data: nat, from: nat, to: nat, perm: nat)
    requires USER <= from < to <= TOP && TEXT < data < TOP && KernelUpTo(mem0, d, data, from)
    requires forall wp: nat :: from <= wp < to ==> KernelEntry(data, wp) == Entry(wp - USER, WithP(perm))
    requires KernelMapped(mem0, mem, d, from, to - from, from - USER, perm)
    ensures KernelUpTo(mem, d, data, to)
  {
    forall j: nat ensures HasTable(mem, d, j) <==> USER / ENTRIES <= j <= (to - 1) / ENTRIES {
      assert HasTable(mem, d, j) <==> HasTable(mem0, d, j) || Touched(from, to, j);
    }
  }

  lemma UsesTwice(owner0: seq<Use>, owner1: seq<Use>, owner2: seq<Use>, d: nat)
    requires UsesGrown(owner0, owner1, d, 0, 0, {}) && UsesGrown(owner1, owner2, d, 0, 0, {})
    ensures UsesGrown(owner0, owner2, d, 0, 0, {})
  {
  }

  /** Pages `vp..vp + n` of `d` are mapped to the frames from `f` on; no other entry changed. */
  ghost predicate KernelMapped(mem0: Memory, mem: Memory, d: nat, vp: nat, n: nat, f: nat, perm: nat) {
    && TablesGrown(mem0, mem, d, vp, vp + n)
    && forall wp: nat ::
      Pte(mem, d, wp) == if vp <= wp < vp + n then Entry(f + (wp - vp), WithP(perm)) else Pte(mem0, d, wp)
  }

  lemma KernelNext(mem0: Memory, mem1: Memory, mem2: Memory, d: nat, vp: nat, i: nat, f: nat, perm: nat)
    requires KernelMapped(mem0, mem1, d, vp, i, f, perm)
    requires forall wp: nat :: Pte(mem2, d, wp) == if wp == vp + i then Entry(f + i, WithP(perm)) else Pte(mem1, d, wp)
    requires forall j: nat :: HasTable(mem2, d, j) <==> HasTable(mem1, d, j) || j == (vp + i) / ENTRIES
    ensures KernelMapped(mem0, mem2, d, vp, i + 1, f, perm)
  {
    forall j: nat ensures HasTable(mem2, d, j) <==> HasTable(mem0, d, j) || Touched(vp, vp + (i + 1), j) {
      TouchedNext(vp, vp + i, j);
    }
  }

  /** The pages of `d` from `lo` on are free again, everything else is used as before. */
  ghost predicate PagesReturned(owner0: seq<Use>, owner: seq<Use>, d: nat, lo: nat) {
    |owner| == |owner0| && forall f: nat :: f < |owner| ==>
      owner[f] == if owner0[f].Page? && owner0[f].d == d && lo <= owner0[f].vp then Free else owner0[f]
  }

  /** `f` is the directory `d`, one of its tables or one of its pages. */
  ghost predicate Belongs(owner: seq<Use>, d: nat, f: nat)
    requires f < |owner|
  {
    f == d || (owner[f].Table? && owner[f].d == d) || (owner[f].Page? && owner[f].d == d)
  }

  /** `f` is one of the first `i` tables of `d`. */
  ghost predicate OfDir(owner: seq<Use>, d: nat, f: nat, i: nat) {
    f < |owner| && owner[f].Table? && owner[f].d == d && owner[f].i < i
  }

  lemma TableAlone(mem: Memory, owner: seq<Use>, d: nat, i: nat)
    requires Inv(mem, owner) && IsDir(owner, d) && i < ENTRIES
    ensures forall f: nat :: f < |owner| && owner[f] == Table(d, i) ==>
      HasTable(mem, d, i) && f == FrameOf(Word(mem, d, i))
  {
    forall f: nat | f < |owner| && owner[f] == Table(d, i)
      ensures HasTable(mem, d, i) && f == FrameOf(Word(mem, d, i)) {
      assert UseOk(mem, owner, f);
    }
  }

  lemma TwiceElsewhere(mem0: Memory, owner0: seq<Use>, mem1: Memory, owner1: seq<Use>, mem: Memory, d: nat)
    requires Elsewhere(mem0, owner0, mem1, d, 0, USER) && Elsewhere(mem1, owner1, mem, d, 0, USER)
    requires forall e: nat :: IsDir(owner0, e) && e != d ==> IsDir(owner1, e)
    ensures Elsewhere(mem0, owner0, mem, d, 0, USER)
  {
    forall e: nat, vp: nat | IsDir(owner0, e) && vp < USER && e != d ensures Look(mem, e, vp) == Look(mem0, e, vp) {
      assert IsDir(owner1, e);
    }
  }

  lemma SeenThrough(mem0: Memory, owner0: seq<Use>, mem1: Memory, owner1: seq<Use>, mem2: Memory)
    requires Elsewhere(mem0, owner0, mem1, 0, 0, 0) && Elsewhere(mem1, owner1, mem2, 0, 0, 0)
    requires forall e: nat :: IsDir(owner0, e) ==> IsDir(owner1, e)
    ensures Elsewhere(mem0, owner0, mem2, 0, 0, 0)
  {
  }


  lemma ShowsGrown(mem0: Memory, owner0: seq<Use>, mem: Memory, d: nat, lo: nat, k: nat, want: seq<Content>,
                   holes: set<nat>)
    requires Shows(mem0, d, lo, holes) && Grew(mem0, owner0, mem, d, lo, k, want) && lo <= k && IsDir(owner0, d)
    ensures Shows(mem, d, k, holes)
  {
    forall vp: nat | vp < USER ensures Look(mem, d, vp).Mapped? <==> vp < k && vp !in holes {
      if lo <= vp < k {
        assert PageIs(mem, d, vp, want[vp]);
      }
    }
  }

  lemma GrewNext(mem0: Memory, owner0: seq<Use>, mem1: Memory, owner1: seq<Use>, mem2: Memory, d: nat, lo: nat, k: nat,
                 want: seq<Content>)
    requires lo <= k < USER && IsDir(owner1, d)
    requires Grew(mem0, owner0, mem1, d, lo, k, want) && k < |want| && PutPage(mem1, owner1, mem2, d, k, want[k])
    requires forall e: nat :: IsDir(owner0, e) ==> IsDir(owner1, e)
    ensures Grew(mem0, owner0, mem2, d, lo, k + 1, want)
  {
    forall j: nat ensures HasTable(mem2, d, j) <==> HasTable(mem0, d, j) || Touched(lo, k + 1, j) {
      TouchedNext(lo, k, j);
    }
    forall vp: nat | lo <= vp < k + 1 ensures PageIs(mem2, d, vp, want[vp]) {
      if vp < k { assert PageIs(mem1, d, vp, want[vp]); }
    }
  }

  lemma GrewKept(mem0: Memory, owner0: seq<Use>, mem1: Memory, owner1: seq<Use>, mem2: Memory, d: nat, lo: nat, k: nat,
                 want: seq<Content>)
    requires lo <= k <= USER && IsDir(owner1, d) && Grew(mem0, owner0, mem1, d, lo, k, want)
      && Elsewhere(mem1, owner1, mem2, 0, 0, 0)
    requires forall j: nat :: HasTable(mem2, d, j) <==> HasTable(mem1, d, j)
    requires forall e: nat :: IsDir(owner0, e) ==> IsDir(owner1, e)
    ensures Grew(mem0, owner0, mem2, d, lo, k, want)
  {
    forall vp: nat | lo <= vp < k ensures PageIs(mem2, d, vp, want[vp]) {
      assert PageIs(mem1, d, vp, want[vp]);
    }
  }

  /** `n` frames that were free are lost. */
  ghost predicate LosesSome(owner0: seq<Use>, owner: seq<Use>, d: nat, lo: nat, k: nat, n: nat) {
    exists lost: set<nat> :: |lost| == n && UsesGrown(owner0, owner, d, lo, k, lost)
  }

  /**
   What allocuvm's loop over pages `lo..hi` comes to with `have` frames free. With one for every page and
   every new table all pages are mapped. Otherwise `k` is the page it gets stuck at: if no frame was left
   for it, all pages are given back; if one was left but none for its table, that frame is lost, and when
   `k` is the last page the loop still reports success and leaves a hole there.
   */
  ghost predicate GrowOutcome(mem0: Memory, owner0: seq<Use>, have: nat, mem: Memory, owner: seq<Use>, left: nat,
                              d: nat, lo: nat, hi: nat, k: nat, done: bool, want: seq<Content>, holes: set<nat>) {
    if Cost(mem0, d, lo, hi) <= have then
      && done && k == hi && left == have - Cost(mem0, d, lo, hi)
      && Grew(mem0, owner0, mem, d, lo, hi, want) && UsesGrown(owner0, owner, d, lo, hi, {})
      && Shows(mem, d, hi, holes)
    else
      && lo <= k < hi && Cost(mem0, d, lo, k) <= have < Cost(mem0, d, lo, k + 1)
      && LosesSome(owner0, owner, d, lo, if done then k else lo, have - Cost(mem0, d, lo, k))
      && (done <==> have == Cost(mem0, d, lo, k) + 1 && k == hi - 1)
      && (if done then Shows(mem, d, hi, holes + {hi - 1}) else Elsewhere(mem0, owner0, mem, 0, 0, 0))
  }

  /** With `have` frames the last page of `lo..hi` gets a frame but no table. */
  predicate Hole(mem: Memory, d: nat, have: nat, lo: nat, hi: nat) {
    lo < hi && Needs(mem, d, lo, hi - 1) && have + 1 == Cost(mem, d, lo, hi)
  }

  lemma HoleIs(mem: Memory, d: nat, have: nat, lo: nat, hi: nat)
    ensures Hole(mem, d, have, lo, hi) <==> lo < hi && Cost(mem, d, lo, hi - 1) + 1 == have < Cost(mem, d, lo, hi)
  {
  }

  /** How the outcome depends on the frames alone, and what is mapped at the end. */
  lemma GrowEnds(mem0: Memory, owner0: seq<Use>, have: nat, mem: Memory, owner: seq<Use>, left: nat,
                 d: nat, lo: nat, hi: nat, k: nat, done: bool, holes: set<nat>)
    requires lo <= hi <= USER && Inv(mem0, owner0) && IsDir(owner0, d) && Shows(mem0, d, lo, holes)
    requires GrowOutcome(mem0, owner0, have, mem, owner, left, d, lo, hi, k, done, ZeroPages(hi), holes)
    ensures done <==> Cost(mem0, d, lo, hi) <= have || Hole(mem0, d, have, lo, hi)
    ensures Shows(mem, d, if done then hi else lo, if Hole(mem0, d, have, lo, hi) then holes + {hi - 1} else holes)
  {
    HoleIs(mem0, d, have, lo, hi);
    if Cost(mem0, d, lo, hi) > have && k < hi - 1 { CostGrows(mem0, d, lo, k + 1, hi - 1); }
  }

  /** The pages a growth adds hold zeros, and the user may read and write them. */
  lemma GrownUsable(mem0: Memory, owner0: seq<Use>, mem: Memory, d: nat, lo: nat, hi: nat, vp: nat)
    requires Grew(mem0, owner0, mem, d, lo, hi, ZeroPages(hi)) && lo <= vp < hi
    ensures var v := Look(mem, d, vp); v.Mapped? && HasW(v.flags) && HasU(v.flags) && v.words == Zeros()
  {
    var zero := Content(RW, Zeros());
    assert ZeroPages(hi)[vp] == zero && PageIs(mem, d, vp, zero);
  }

  lemma HoleShows(mem: Memory, d: nat, hi: nat, holes: set<nat>)
    requires 0 < hi && Shows(mem, d, hi - 1, holes)
    ensures Shows(mem, d, hi, holes + {hi - 1})
  {
  }

  lemma Stuck(mem0: Memory, owner0: seq<Use>, have: nat, mem: Memory, owner: seq<Use>, left: nat,
              d: nat, lo: nat, hi: nat, k: nat, done: bool, lost: set<nat>, want: seq<Content>, holes: set<nat>)
    requires lo <= k < hi && |lost| <= 1 && Cost(mem0, d, lo, k) + |lost| == have
      && (|lost| == 1 ==> Needs(mem0, d, lo, k))
    requires done <==> |lost| == 1 && k == hi - 1
    requires UsesGrown(owner0, owner, d, lo, if done then k else lo, lost)
    requires if done then Shows(mem, d, hi - 1, holes) else Elsewhere(mem0, owner0, mem, 0, 0, 0)
    ensures GrowOutcome(mem0, owner0, have, mem, owner, left, d, lo, hi, k, done, want, holes)
  {
    CostGrows(mem0, d, lo, k + 1, hi);
    if done { HoleShows(mem, d, hi, holes); }
    LostAre(owner0, owner, d, lo, if done then k else lo, lost);
  }

  lemma LostAre(owner0: seq<Use>, owner: seq<Use>, d: nat, lo: nat, k: nat, lost: set<nat>)
    requires UsesGrown(owner0, owner, d, lo, k, lost)
    ensures LosesSome(owner0, owner, d, lo, k, |lost|)
  {
  }

  lemma UsesNext(owner0: seq<Use>, owner1: seq<Use>, owner2: seq<Use>, d: nat, lo: nat, k: nat)
    requires lo <= k && UsesGrown(owner0, owner1, d, lo, k, {}) && UsesGrown(owner1, owner2, d, k, k + 1, {})
    ensures UsesGrown(owner0, owner2, d, lo, k + 1, {})
  {
  }

  /** The loop before page `a`: pages up to `k` are mapped, and a lost frame is the one for page `k`. */
  ghost predicate Growing(mem0: Memory, owner0: seq<Use>, have: nat, mem: Memory, owner: seq<Use>, left: nat,
                          d: nat, lo: nat, a: nat, k: nat, lost: set<nat>, want: seq<Content>) {
    && lo <= k <= a && Grew(mem0, owner0, mem, d, lo, k, want) && UsesGrown(owner0, owner, d, lo, k, lost)
    && if lost == {} then k == a && Cost(mem0, d, lo, k) + left == have
       else a == k + 1 && left == 0 && |lost| == 1 && Cost(mem0, d, lo, k) + 1 == have && Needs(mem0, d, lo, k)
  }

  lemma Advance(mem0: Memory, owner0: seq<Use>, have: nat, mem1: Memory, owner1: seq<Use>, left1: nat,
                mem2: Memory, owner2: seq<Use>, left2: nat, d: nat, lo: nat, k: nat, want: seq<Content>)
    requires k < USER && k < |want| && IsDir(owner1, d)
      && Growing(mem0, owner0, have, mem1, owner1, left1, d, lo, k, k, {}, want)
    requires PutPage(mem1, owner1, mem2, d, k, want[k]) && UsesGrown(owner1, owner2, d, k, k + 1, {})
    requires left2 + 1 + (if HasTable(mem1, d, k / ENTRIES) then 0 else 1) == left1
    ensures Growing(mem0, owner0, have, mem2, owner2, left2, d, lo, k + 1, k + 1, {}, want)
  {
    NeedsNow(mem0, mem1, d, lo, k);
    GrewNext(mem0, owner0, mem1, owner1, mem2, d, lo, k, want);
    UsesNext(owner0, owner1, owner2, d, lo, k);
  }

  lemma AdvanceLost(mem0: Memory, owner0: seq<Use>, have: nat, mem1: Memory, owner1: seq<Use>,
                    mem2: Memory, owner2: seq<Use>, d: nat, lo: nat, k: nat, f: nat, want: seq<Content>)
    requires k < USER && IsDir(owner1, d) && Growing(mem0, owner0, have, mem1, owner1, 1, d, lo, k, k, {}, want)
    requires !HasTable(mem1, d, k / ENTRIES) && Elsewhere(mem1, owner1, mem2, 0, 0, 0)
    requires f < |owner1| && owner1[f] == Free && owner2 == owner1[f := Lost]
    requires forall j: nat :: HasTable(mem2, d, j) <==> HasTable(mem1, d, j)
    ensures Growing(mem0, owner0, have, mem2, owner2, 0, d, lo, k + 1, k, {f}, want)
  {
    NeedsNow(mem0, mem1, d, lo, k);
    GrewKept(mem0, owner0, mem1, owner1, mem2, d, lo, k, want);
  }

  /** perm with PTE_P set */
  function WithP(perm: nat): (r: nat)
    ensures r % 2 == 1 && (perm < 4096 ==> r < 4096)
  {
    if perm % 2 == 1 then perm else perm + 1
  }

  /** The held frame `f` is now page `vp` of `d`; of the others only free ones changed, into tables of `d`. */
  ghost predicate UsesMapped(owner0: seq<Use>, owner: seq<Use>, d: nat, vp: nat, f: nat) {
    && |owner| == |owner0| && f < |owner| && owner[f] == Page(d, vp)
    && forall g: nat :: g < |owner| && g != f ==>
         if owner0[g] == Free then owner[g] == Free || (owner[g].Table? && owner[g].d == d) else owner[g] == owner0[g]
  }

  lemma UsesPut(owner0: seq<Use>, owner: seq<Use>, d: nat, vp: nat, f: nat)
    requires f < |owner0| && owner0[f] == Free && UsesMapped(owner0[f := Held], owner, d, vp, f)
    ensures UsesGrown(owner0, owner, d, vp, vp + 1, {})
  {
  }

  /** A change nobody sees and then a page put. */
  lemma PutThen(mem0: Memory, owner0: seq<Use>, mem1: Memory, owner1: seq<Use>, mem2: Memory, d: nat, vp: nat,
                want: Content)
    requires Elsewhere(mem0, owner0, mem1, 0, 0, 0) && PutPage(mem1, owner1, mem2, d, vp, want)
    requires forall e: nat :: IsDir(owner0, e) ==> IsDir(owner1, e)
    requires forall j: nat :: HasTable(mem1, d, j) <==> HasTable(mem0, d, j)
    ensures PutPage(mem0, owner0, mem2, d, vp, want)
  {
  }

  /** A change nobody sees and then a change of one range of one space. */
  lemma ElsewhereThen(mem0: Memory, owner0: seq<Use>, mem1: Memory, owner1: seq<Use>, mem2: Memory, d: nat, lo: nat,
                      hi: nat)
    requires Elsewhere(mem0, owner0, mem1, 0, 0, 0) && Elsewhere(mem1, owner1, mem2, d, lo, hi)
    requires forall e: nat :: IsDir(owner0, e) ==> IsDir(owner1, e)
    ensures Elsewhere(mem0, owner0, mem2, d, lo, hi)
  {
  }

  lemma FreedNext(owner0: seq<Use>, owner1: seq<Use>, owner2: seq<Use>, d: nat, done: set<nat>, a: nat)
    requires Freed(owner0, owner1, d, done) && Freed(owner1, owner2, d, {a})
    ensures Freed(owner0, owner2, d, done + {a})
  {
  }

  /** The frames of the pages in `done` of `d` are free, the others as before. */
  ghost predicate Freed(owner0: seq<Use>, owner: seq<Use>, d: nat, done: set<nat>) {
    |owner| == |owner0| && forall f: nat :: f < |owner| ==>
      owner[f] == if owner0[f].Page? && owner0[f].d == d && owner0[f].vp in done then Free else owner0[f]
  }

  // ----- a space deallocuvm does not clear -----

  /** Four frames: the kernel's, a directory, its table 1, and the page in the first entry of that. */
  function SparseMemory(): Memory {
    [Zeros(), Zeros()[1 := Entry(2, RW)], Zeros()[0 := Entry(3, RW)], Zeros()]
  }

  function SparseUses(): seq<Use> {
    [Boot, Dir, Table(1, 1), Page(1, ENTRIES)]
  }

  lemma SparsePte(vp: nat)
    ensures Pte(SparseMemory(), 1, vp) == if vp == ENTRIES then Entry(3, RW) else 0
    ensures forall i: nat :: Word(SparseMemory(), 1, i) == if i == 1 then Entry(2, RW) else 0
  {
    EntryParts(2, RW);
    assert forall i: nat :: Word(SparseMemory(), 1, i) == if i == 1 then Entry(2, RW) else 0;
    assert forall i: nat :: Word(SparseMemory(), 2, i) == if i == 0 then Entry(3, RW) else 0;
  }

  lemma SparseValid()
    ensures Inv(SparseMemory(), SparseUses()) && FreeList(SparseMemory(), SparseUses(), 0, [])
  {
    var mem, owner := SparseMemory(), SparseUses();
    EntryParts(2, RW);
    EntryParts(3, RW);
    forall d: nat, i: nat ensures TableOk(mem, owner, d, i) {
      SparsePte(0);
    }
    forall d: nat, vp: nat ensures PageOk(mem, owner, d, vp) {
      SparsePte(vp);
    }
    forall f: nat | f < |mem| ensures UseOk(mem, owner, f) {
      SparsePte(ENTRIES);
    }
  }

  /** Shrinking it from 1025 pages to one leaves page 1024 where it was. */
  method MissedPage() returns (m: Machine)
    ensures fresh(m) && m.Valid() && IsDir(m.owner, 1) && Look(m.mem, 1, ENTRIES).Mapped?
  {
    m := new Machine(1, 4);
    m.mem := SparseMemory();
    m.owner := SparseUses();
    SparseValid();
    SparsePte(ENTRIES);
    SparsePte(1);
    EntryParts(3, RW);
    assert Skipped(m.mem, 1, 1, ENTRIES);
    var r := m.DeallocUvm(1, (ENTRIES + 1) * 4096, 4096);
  }

  /** The same, said of the memory alone. */
  lemma MissedByLoop(hi: nat)
    ensures Inv(SparseMemory(), SparseUses()) && IsDir(SparseUses(), 1)
    ensures Look(SparseMemory(), 1, ENTRIES).Mapped? && !Visits(SparseMemory(), 1, 1, hi, ENTRIES)
    ensures !AllReached(SparseMemory(), 1, 1, hi)
  {
    SparseValid();
    SparsePte(ENTRIES);
    SparsePte(1);
    EntryParts(3, RW);
    assert Skipped(SparseMemory(), 1, 1, ENTRIES);
    VisitsIff(SparseMemory(), 1, 1, hi, ENTRIES);
  }
}
