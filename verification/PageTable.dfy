/**
 Two-level page tables in physical memory. A frame is 1024 words; a directory and its tables are frames
 whose words are entries. Every frame has one use, and an entry that is present names a frame with the
 use that entry gives it, so no frame is shared and none is lost.
 */
module PageTable {

  const ENTRIES := 1024

  /** User pages: those below KERNBASE. */
  const USER := 524288

  const PTE_P := 1
  const PTE_W := 2
  const PTE_U := 4

  type Memory = seq<seq<nat>>

  /** Who has a frame. `Boot` frames belong to the kernel image and are never handed out. */
  datatype Use = Boot | Free | Held | Lost | Dir | Table(d: nat, i: nat) | Page(d: nat, vp: nat)

  // ----- entries -----

  predicate Present(e: nat) { e % 2 == 1 }

  function FrameOf(e: nat): nat { e / 4096 }

  function FlagsOf(e: nat): nat { e % 4096 }

  function Entry(f: nat, flags: nat): nat { f * 4096 + flags }

  lemma EntryParts(f: nat, flags: nat)
    requires flags < 4096
    ensures FrameOf(Entry(f, flags)) == f && FlagsOf(Entry(f, flags)) == flags
    ensures Present(Entry(f, flags)) <==> flags % 2 == 1
  {
  }

  // ----- looking pages up -----

  function Word(mem: Memory, f: nat, i: nat): nat {
    if f < |mem| && i < |mem[f]| then mem[f][i] else 0
  }

  function Pte(mem: Memory, d: nat, vp: nat): nat {
    var e := Word(mem, d, vp / ENTRIES);
    if Present(e) then Word(mem, FrameOf(e), vp % ENTRIES) else 0
  }

  predicate HasW(flags: nat) { flags / 2 % 2 == 1 }

  predicate HasU(flags: nat) { flags / 4 % 2 == 1 }

  /**
   What the processor allows on a page: a bit for writing or for the user counts only if the entries of both
   levels have it.
   */
  function Allowed(table: nat, page: nat): nat {
    if table == PTE_P + PTE_W + PTE_U then page
    else
      page / 8 * 8 + page % 2 + (if HasW(page) && HasW(table) then PTE_W else 0)
      + if HasU(page) && HasU(table) then PTE_U else 0
  }

  /** So a page may be written, or used by the user, exactly if both entries say so. */
  lemma AllowedBits(table: nat, page: nat)
    ensures HasW(Allowed(table, page)) <==> HasW(table) && HasW(page)
    ensures HasU(Allowed(table, page)) <==> HasU(table) && HasU(page)
  {
    var w := if HasW(page) && HasW(table) then 1 else 0;
    var u := if HasU(page) && HasU(table) then 1 else 0;
    Bits(page / 8, page % 2, w, u);
  }

  lemma Bits(high: nat, p: nat, w: nat, u: nat)
    requires p < 2 && w < 2 && u < 2
    ensures var flags := high * 8 + p + w * 2 + u * 4; (HasW(flags) <==> w == 1) && (HasU(flags) <==> u == 1)
  {
    var flags := high * 8 + p + w * 2 + u * 4;
    assert flags / 2 == high * 4 + u * 2 + w && flags / 4 == high * 2 + u;
  }

  /** What a page of an address space shows: nothing, or a frame, what may be done to it, and its content. */
  datatype View = Unmapped | Mapped(frame: nat, flags: nat, words: seq<nat>)

  function Look(mem: Memory, d: nat, vp: nat): View {
    var e := Pte(mem, d, vp);
    if Present(e) then
      Mapped(FrameOf(e), Allowed(FlagsOf(Word(mem, d, vp / ENTRIES)), FlagsOf(e)),
             if FrameOf(e) < |mem| then mem[FrameOf(e)] else [])
    else Unmapped
  }

  predicate HasTable(mem: Memory, d: nat, i: nat) { Present(Word(mem, d, i)) }

  // ----- one use per frame -----

  ghost predicate TableOk(mem: Memory, owner: seq<Use>, d: nat, i: nat)
    requires |mem| == |owner|
  {
    d < |mem| && owner[d] == Dir && i < ENTRIES && HasTable(mem, d, i) ==>
      var f := FrameOf(Word(mem, d, i));
      f < |mem| && owner[f] == Table(d, i) && FlagsOf(Word(mem, d, i)) == PTE_P + PTE_W + PTE_U
  }

  ghost predicate PageOk(mem: Memory, owner: seq<Use>, d: nat, vp: nat)
    requires |mem| == |owner|
  {
    d < |mem| && owner[d] == Dir && vp < USER && Present(Pte(mem, d, vp)) ==>
      var f := FrameOf(Pte(mem, d, vp));
      f < |mem| && owner[f] == Page(d, vp)
  }

  ghost predicate UseOk(mem: Memory, owner: seq<Use>, f: nat)
    requires |mem| == |owner| && f < |mem|
  {
    match owner[f]
    case Table(d, i) =>
      && d < |mem| && owner[d] == Dir && i < ENTRIES && HasTable(mem, d, i) && FrameOf(Word(mem, d, i)) == f
    case Page(d, vp) =>
      && d < |mem| && owner[d] == Dir && vp < USER && Present(Pte(mem, d, vp)) && FrameOf(Pte(mem, d, vp)) == f
    case _ => true
  }

  ghost predicate Shaped(mem: Memory, owner: seq<Use>) {
    |mem| == |owner| && forall f :: 0 <= f < |mem| ==> |mem[f]| == ENTRIES
  }

  ghost predicate Inv(mem: Memory, owner: seq<Use>) {
    && Shaped(mem, owner)
    && (forall d: nat, i: nat :: TableOk(mem, owner, d, i))
    && (forall d: nat, vp: nat :: PageOk(mem, owner, d, vp))
    && (forall f: nat :: f < |mem| ==> UseOk(mem, owner, f))
  }

  ghost predicate IsDir(owner: seq<Use>, d: nat) { d < |owner| && owner[d] == Dir }

  /** Every page of every address space but page range `lo..hi` of `d` shows the same. */
  ghost predicate Elsewhere(mem: Memory, owner: seq<Use>, mem': Memory, d: nat, lo: nat, hi: nat) {
    forall e: nat, vp: nat :: IsDir(owner, e) && vp < USER && !(e == d && lo <= vp < hi) ==>
      Look(mem', e, vp) == Look(mem, e, vp)
  }

  /** No two pages show the same frame, and none shows a frame that holds a directory or a table. */
  lemma FramesDistinct(mem: Memory, owner: seq<Use>, d: nat, vp: nat, e: nat, wp: nat)
    requires Inv(mem, owner) && IsDir(owner, d) && IsDir(owner, e) && vp < USER && wp < USER
    requires Look(mem, d, vp).Mapped? && Look(mem, e, wp).Mapped?
    ensures Look(mem, d, vp).frame == Look(mem, e, wp).frame ==> d == e && vp == wp
    ensures var f := Look(mem, d, vp).frame; f < |mem| && owner[f].Page? && f != d
  {
    assert PageOk(mem, owner, d, vp) && PageOk(mem, owner, e, wp);
  }

  /** No table takes away what a page's own entry allows. */
  lemma FlagsCount(mem: Memory, owner: seq<Use>, d: nat, vp: nat)
    requires Inv(mem, owner) && IsDir(owner, d) && vp < USER && Look(mem, d, vp).Mapped?
    ensures Look(mem, d, vp).flags == FlagsOf(Pte(mem, d, vp))
  {
    assert TableOk(mem, owner, d, vp / ENTRIES);
  }

  // ----- rewriting a frame nobody looks into -----

  ghost predicate Unused(owner: seq<Use>, f: nat) {
    f < |owner| && (owner[f] == Free || owner[f] == Held || owner[f] == Lost)
  }

  lemma PteKept(mem: Memory, owner: seq<Use>, f: nat, row: seq<nat>, d: nat, vp: nat)
    requires Inv(mem, owner) && Unused(owner, f) && IsDir(owner, d)
    ensures Pte(mem[f := row], d, vp) == Pte(mem, d, vp)
  {
    if vp / ENTRIES < ENTRIES {
      assert TableOk(mem, owner, d, vp / ENTRIES);
    }
  }

  lemma RowKept(mem: Memory, owner: seq<Use>, f: nat, row: seq<nat>, d: nat, vp: nat)
    requires Inv(mem, owner) && Unused(owner, f) && IsDir(owner, d) && vp < USER
    ensures Look(mem[f := row], d, vp) == Look(mem, d, vp)
  {
    PteKept(mem, owner, f, row, d, vp);
    assert PageOk(mem, owner, d, vp);
  }

  /** A frame that is free, held or lost may get any content and pass between those uses. */
  lemma RewriteUnused(mem: Memory, owner: seq<Use>, f: nat, row: seq<nat>, u: Use)
    requires Inv(mem, owner) && Unused(owner, f) && |row| == ENTRIES && (u == Free || u == Held || u == Lost)
    ensures Inv(mem[f := row], owner[f := u])
    ensures Elsewhere(mem, owner, mem[f := row], 0, 0, 0)
  {
    var m, o := mem[f := row], owner[f := u];
    forall d: nat, i: nat ensures TableOk(m, o, d, i) {
      assert TableOk(mem, owner, d, i);
    }
    forall d: nat, vp: nat ensures PageOk(m, o, d, vp) {
      assert PageOk(mem, owner, d, vp);
      if IsDir(o, d) { PteKept(mem, owner, f, row, d, vp); }
    }
    forall g: nat | g < |m| ensures UseOk(m, o, g) {
      assert UseOk(mem, owner, g);
      if owner[g].Page? { PteKept(mem, owner, f, row, owner[g].d, owner[g].vp); }
    }
    forall e: nat, vp: nat | IsDir(owner, e) && vp < USER ensures Look(m, e, vp) == Look(mem, e, vp) {
      RowKept(mem, owner, f, row, e, vp);
    }
  }

  // ----- a new table -----

  function Zeros(): seq<nat> { seq(ENTRIES, _ => 0) }

  function Linked(mem: Memory, d: nat, i: nat, f: nat): Memory
    requires d < |mem| && i < |mem[d]|
  {
    var row: seq<nat> := mem[d][i := Entry(f, PTE_P + PTE_W + PTE_U)];
    mem[d := row]
  }

  lemma LinkedPte(mem: Memory, owner: seq<Use>, d: nat, i: nat, f: nat, e: nat, vp: nat)
    requires Inv(mem, owner) && IsDir(owner, d) && i < ENTRIES && !HasTable(mem, d, i)
    requires f < |mem| && owner[f] == Held && mem[f] == Zeros() && IsDir(owner, e)
    ensures Pte(Linked(mem, d, i, f), e, vp) == Pte(mem, e, vp)
  {
    EntryParts(f, 7);
    if vp / ENTRIES < ENTRIES {
      assert TableOk(mem, owner, e, vp / ENTRIES);
    }
  }

  lemma LinkTable(mem: Memory, owner: seq<Use>, d: nat, i: nat, f: nat)
    requires Inv(mem, owner) && IsDir(owner, d) && i < ENTRIES && !HasTable(mem, d, i)
    requires f < |mem| && owner[f] == Held && mem[f] == Zeros()
    ensures Inv(Linked(mem, d, i, f), owner[f := Table(d, i)])
    ensures Elsewhere(mem, owner, Linked(mem, d, i, f), 0, 0, 0)
    ensures forall j: nat :: HasTable(Linked(mem, d, i, f), d, j) <==> j == i || HasTable(mem, d, j)
    ensures forall vp: nat :: Pte(Linked(mem, d, i, f), d, vp) == Pte(mem, d, vp)
  {
    var m, o := Linked(mem, d, i, f), owner[f := Table(d, i)];
    EntryParts(f, 7);
    forall vp: nat ensures Pte(m, d, vp) == Pte(mem, d, vp) {
      LinkedPte(mem, owner, d, i, f, d, vp);
    }
    forall e: nat, j: nat ensures TableOk(m, o, e, j) {
      assert TableOk(mem, owner, e, j);
    }
    forall e: nat, vp: nat ensures PageOk(m, o, e, vp) {
      assert PageOk(mem, owner, e, vp);
      if IsDir(o, e) { LinkedPte(mem, owner, d, i, f, e, vp); }
    }
    forall g: nat | g < |m| ensures UseOk(m, o, g) {
      assert UseOk(mem, owner, g);
      if owner[g].Page? { LinkedPte(mem, owner, d, i, f, owner[g].d, owner[g].vp); }
    }
    forall e: nat, vp: nat | IsDir(owner, e) && vp < USER ensures Look(m, e, vp) == Look(mem, e, vp) {
      LinkedPte(mem, owner, d, i, f, e, vp);
      assert PageOk(mem, owner, e, vp);
    }
  }

  // ----- a page entry set or cleared -----

  function WithPte(mem: Memory, d: nat, vp: nat, w: nat): Memory {
    var t := FrameOf(Word(mem, d, vp / ENTRIES));
    if t < |mem| && vp % ENTRIES < |mem[t]| then
      var row: seq<nat> := mem[t][vp % ENTRIES := w];
      mem[t := row]
    else mem
  }

  lemma WithPteAt(mem: Memory, owner: seq<Use>, d: nat, vp: nat, w: nat, e: nat, wp: nat)
    requires Inv(mem, owner) && IsDir(owner, d) && IsDir(owner, e) && vp / ENTRIES < ENTRIES
      && HasTable(mem, d, vp / ENTRIES)
    ensures Pte(WithPte(mem, d, vp, w), e, wp) == if e == d && wp == vp then w else Pte(mem, e, wp)
    ensures forall j: nat :: Word(WithPte(mem, d, vp, w), e, j) == Word(mem, e, j)
  {
    assert TableOk(mem, owner, d, vp / ENTRIES);
    if wp / ENTRIES < ENTRIES {
      assert TableOk(mem, owner, e, wp / ENTRIES);
    }
  }

  lemma WithPteRows(mem: Memory, owner: seq<Use>, d: nat, vp: nat, w: nat, f: nat)
    requires Inv(mem, owner) && IsDir(owner, d) && vp / ENTRIES < ENTRIES && HasTable(mem, d, vp / ENTRIES)
    requires f < |mem| && !owner[f].Table?
    ensures |WithPte(mem, d, vp, w)| == |mem| && WithPte(mem, d, vp, w)[f] == mem[f]
    ensures Shaped(WithPte(mem, d, vp, w), owner)
  {
    assert TableOk(mem, owner, d, vp / ENTRIES);
  }

  /** Every page but (d, vp) shows the same after its entry changed. */
  lemma WithPteElsewhere(mem: Memory, owner: seq<Use>, d: nat, vp: nat, w: nat)
    requires Inv(mem, owner) && IsDir(owner, d) && vp / ENTRIES < ENTRIES && HasTable(mem, d, vp / ENTRIES)
    ensures Elsewhere(mem, owner, WithPte(mem, d, vp, w), d, vp, vp + 1)
  {
    var m := WithPte(mem, d, vp, w);
    forall e: nat, wp: nat | IsDir(owner, e) && wp < USER && !(e == d && wp == vp)
      ensures Look(m, e, wp) == Look(mem, e, wp)
    {
      WithPteAt(mem, owner, d, vp, w, e, wp);
      assert PageOk(mem, owner, e, wp);
      if Present(Pte(mem, e, wp)) { WithPteRows(mem, owner, d, vp, w, FrameOf(Pte(mem, e, wp))); }
    }
  }

  lemma WithPteTables(mem: Memory, owner: seq<Use>, d: nat, vp: nat, w: nat, o: seq<Use>)
    requires Inv(mem, owner) && IsDir(owner, d) && vp / ENTRIES < ENTRIES && HasTable(mem, d, vp / ENTRIES)
    requires |o| == |owner| && forall g: nat ::
      g < |o| && (owner[g].Dir? || owner[g].Table? || o[g].Dir? || o[g].Table?) ==> o[g] == owner[g]
    ensures var m := WithPte(mem, d, vp, w); |m| == |o| && forall e: nat, j: nat :: TableOk(m, o, e, j)
  {
    var m := WithPte(mem, d, vp, w);
    WithPteRows(mem, owner, d, vp, w, d);
    forall e: nat, j: nat ensures TableOk(m, o, e, j) {
      assert TableOk(mem, owner, e, j);
      if IsDir(owner, e) { WithPteAt(mem, owner, d, vp, w, e, 0); }
    }
  }

  /** Mapping a held frame. */
  lemma SetPage(mem: Memory, owner: seq<Use>, d: nat, vp: nat, f: nat, w: nat)
    requires Inv(mem, owner) && IsDir(owner, d) && vp < USER && HasTable(mem, d, vp / ENTRIES)
      && !Present(Pte(mem, d, vp))
    requires f < |mem| && owner[f] == Held && Present(w) && FrameOf(w) == f
    ensures var m := WithPte(mem, d, vp, w);
      && Inv(m, owner[f := Page(d, vp)])
      && Look(m, d, vp) == Mapped(f, FlagsOf(w), mem[f])
      && Elsewhere(mem, owner, m, d, vp, vp + 1)
      && forall j: nat :: HasTable(m, d, j) <==> HasTable(mem, d, j)
  {
    var m, o := WithPte(mem, d, vp, w), owner[f := Page(d, vp)];
    assert TableOk(mem, owner, d, vp / ENTRIES);
    WithPteAt(mem, owner, d, vp, w, d, vp);
    WithPteRows(mem, owner, d, vp, w, f);
    WithPteElsewhere(mem, owner, d, vp, w);
    WithPteTables(mem, owner, d, vp, w, o);
    forall e: nat, wp: nat ensures PageOk(m, o, e, wp) {
      assert PageOk(mem, owner, e, wp);
      if IsDir(owner, e) { WithPteAt(mem, owner, d, vp, w, e, wp); }
    }
    forall g: nat | g < |m| ensures UseOk(m, o, g) {
      assert UseOk(mem, owner, g);
      if owner[g].Page? { WithPteAt(mem, owner, d, vp, w, owner[g].d, owner[g].vp); }
      if owner[g].Table? { WithPteAt(mem, owner, d, vp, w, owner[g].d, 0); }
    }
  }

  /** Unmapping a page: its frame becomes held. */
  lemma ClearPage(mem: Memory, owner: seq<Use>, d: nat, vp: nat)
    requires Inv(mem, owner) && IsDir(owner, d) && vp < USER && Present(Pte(mem, d, vp))
    ensures var f, m := FrameOf(Pte(mem, d, vp)), WithPte(mem, d, vp, 0);
      && f < |mem| && owner[f] == Page(d, vp)
      && Inv(m, owner[f := Held])
      && Look(m, d, vp) == Unmapped
      && Elsewhere(mem, owner, m, d, vp, vp + 1)
      && forall j: nat :: HasTable(m, d, j) <==> HasTable(mem, d, j)
  {
    assert PageOk(mem, owner, d, vp);
    var f, m := FrameOf(Pte(mem, d, vp)), WithPte(mem, d, vp, 0);
    var o := owner[f := Held];
    WithPteAt(mem, owner, d, vp, 0, d, vp);
    WithPteRows(mem, owner, d, vp, 0, f);
    WithPteElsewhere(mem, owner, d, vp, 0);
    WithPteTables(mem, owner, d, vp, 0, o);
    forall e: nat, wp: nat ensures PageOk(m, o, e, wp) {
      assert PageOk(mem, owner, e, wp);
      if IsDir(owner, e) { WithPteAt(mem, owner, d, vp, 0, e, wp); }
    }
    forall g: nat | g < |m| ensures UseOk(m, o, g) {
      assert UseOk(mem, owner, g);
      if owner[g].Page? { WithPteAt(mem, owner, d, vp, 0, owner[g].d, owner[g].vp); }
      if owner[g].Table? { WithPteAt(mem, owner, d, vp, 0, owner[g].d, 0); }
    }
  }

  /** Mapping a page above KERNBASE changes no user page. */
  lemma SetKernelPage(mem: Memory, owner: seq<Use>, d: nat, vp: nat, w: nat)
    requires Inv(mem, owner) && IsDir(owner, d) && USER <= vp && vp / ENTRIES < ENTRIES
      && HasTable(mem, d, vp / ENTRIES)
    ensures var m := WithPte(mem, d, vp, w);
      && Inv(m, owner) && Elsewhere(mem, owner, m, 0, 0, 0) && Pte(m, d, vp) == w
      && (forall wp: nat :: wp != vp ==> Pte(m, d, wp) == Pte(mem, d, wp))
      && forall j: nat :: HasTable(m, d, j) <==> HasTable(mem, d, j)
  {
    var m := WithPte(mem, d, vp, w);
    WithPteAt(mem, owner, d, vp, w, d, vp);
    WithPteRows(mem, owner, d, vp, w, d);
    WithPteElsewhere(mem, owner, d, vp, w);
    WithPteTables(mem, owner, d, vp, w, owner);
    forall wp: nat | wp != vp ensures Pte(m, d, wp) == Pte(mem, d, wp) {
      WithPteAt(mem, owner, d, vp, w, d, wp);
    }
    forall e: nat, wp: nat ensures PageOk(m, owner, e, wp) {
      assert PageOk(mem, owner, e, wp);
      if IsDir(owner, e) { WithPteAt(mem, owner, d, vp, w, e, wp); }
    }
    forall g: nat | g < |m| ensures UseOk(m, owner, g) {
      assert UseOk(mem, owner, g);
      if owner[g].Page? { WithPteAt(mem, owner, d, vp, w, owner[g].d, owner[g].vp); }
      if owner[g].Table? { WithPteAt(mem, owner, d, vp, w, owner[g].d, 0); }
    }
  }

  // ----- directories -----

  lemma NewDir(mem: Memory, owner: seq<Use>, f: nat)
    requires Inv(mem, owner) && f < |mem| && owner[f] == Held && mem[f] == Zeros()
    ensures Inv(mem, owner[f := Dir])
    ensures forall vp: nat :: Pte(mem, f, vp) == 0
    ensures forall i: nat :: !HasTable(mem, f, i)
  {
    var o := owner[f := Dir];
    forall e: nat, j: nat ensures TableOk(mem, o, e, j) {
      assert TableOk(mem, owner, e, j);
    }
    forall e: nat, vp: nat ensures PageOk(mem, o, e, vp) {
      assert PageOk(mem, owner, e, vp);
    }
    forall g: nat | g < |mem| ensures UseOk(mem, o, g) {
      assert UseOk(mem, owner, g);
    }
  }

  /** The frames of `d` itself and of its tables get use `u`. */
  ghost function Retired(owner: seq<Use>, d: nat, u: Use): (o: seq<Use>)
    ensures |o| == |owner|
  {
    seq(|owner|, f requires 0 <= f < |owner| =>
      if f == d || (owner[f].Table? && owner[f].d == d) then u else owner[f])
  }

  lemma RetireDir(mem: Memory, owner: seq<Use>, d: nat, u: Use)
    requires Inv(mem, owner) && IsDir(owner, d) && forall vp: nat :: vp < USER ==> Look(mem, d, vp) == Unmapped
    requires u == Held || u == Lost
    ensures Inv(mem, Retired(owner, d, u))
  {
    var o := Retired(owner, d, u);
    forall e: nat, j: nat ensures TableOk(mem, o, e, j) {
      assert TableOk(mem, owner, e, j);
    }
    forall e: nat, vp: nat ensures PageOk(mem, o, e, vp) {
      assert PageOk(mem, owner, e, vp);
    }
    forall g: nat | g < |mem| ensures UseOk(mem, o, g) {
      assert UseOk(mem, owner, g);
      assert owner[g].Page? && owner[g].vp < USER ==> Look(mem, d, owner[g].vp) == Unmapped;
    }
  }
}
