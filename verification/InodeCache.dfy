/**
 The inode cache as processes use it: iget, ilock, iunlock, iput and ialloc as interleaved steps. A step
 is what runs under the cache lock or inside one buffer. References are counted per process. iget asks
 nothing of the inode it is given: a number read from a directory may belong to an inode that is free, or
 about to be, or just being made.
 */
module InodeCache {
  import opened Options

  type Pid = nat

  /** What the steps use of an inode on disk; kind 0 is a free inode. */
  datatype Dinode = Dinode(kind: nat, nlink: nat, data: nat)

  /** A cache slot. `maker` has the inode from ialloc and has not locked it yet. */
  datatype Slot = Slot(inum: nat, refs: multiset<Pid>, busy: Option<Pid>, valid: bool, dirty: bool,
                       maker: Option<Pid>, copy: Dinode)

  /** iput of an inode without links: marked busy, truncated, written out as free. */
  datatype Phase = Idle | Started(p: Pid) | Truncated(p: Pid) | Freed(p: Pid)

  /** `pending` inodes are marked on disk by ialloc, whose iget is still to come. */
  datatype State = State(slots: seq<Slot>, phase: seq<Phase>, disk: seq<Dinode>, pending: map<Pid, nat>)

  datatype Step =
    | Lookup(p: Pid, inum: nat, s: nat)
    | Alloc(p: Pid, inum: nat, kind: nat)
    | GetAllocated(p: Pid, s: nat)
    | Dup(p: Pid, s: nat)
    | Lock(p: Pid, s: nat)
    | Read(p: Pid, s: nat)
    | Change(p: Pid, s: nat, d: Dinode)
    | Update(p: Pid, s: nat)
    | Unlock(p: Pid, s: nat)
    | PutDrop(p: Pid, s: nat)
    | PutStart(p: Pid, s: nat)
    | PutTrunc(p: Pid, s: nat)
    | PutFree(p: Pid, s: nat)
    | PutEnd(p: Pid, s: nat)

  ghost predicate Cached(st: State, s: nat, inum: nat) {
    s < |st.slots| && st.slots[s].refs != multiset{} && st.slots[s].inum == inum
  }

  /** iget takes the slot that has the inode, or an empty one if none has. */
  ghost predicate Gets(st: State, s: nat, inum: nat) {
    && s < |st.slots|
    && (Cached(st, s, inum) || (st.slots[s].refs == multiset{} && forall t: nat :: !Cached(st, t, inum)))
  }

  ghost predicate Has(st: State, p: Pid, s: nat) { s < |st.slots| && p in st.slots[s].refs }

  ghost predicate Holds(st: State, p: Pid, s: nat) { s < |st.slots| && st.slots[s].busy == Some(p) }

  /** iput finds itself the last user of an inode without links. */
  ghost predicate Last(st: State, p: Pid, s: nat) {
    s < |st.slots| && st.slots[s].refs == multiset{p} && st.slots[s].valid && st.slots[s].copy.nlink == 0
  }

  /** Process p is neither inside ialloc nor freeing an inode in iput. */
  ghost predicate Ready(st: State, p: Pid) {
    p !in st.pending && forall s: nat :: s < |st.phase| ==> st.phase[s] == Idle || st.phase[s].p != p
  }

  ghost predicate Typed(st: State, s: nat) {
    s < |st.slots| && st.slots[s].inum < |st.disk| && st.disk[st.slots[s].inum].kind != 0
  }

  ghost predicate Enabled(st: State, step: Step)
    requires |st.phase| == |st.slots|
  {
    match step
    case Lookup(p, inum, s) => Ready(st, p) && inum < |st.disk| && Gets(st, s, inum)
    case Alloc(p, inum, kind) => Ready(st, p) && inum < |st.disk| && st.disk[inum].kind == 0 && kind != 0
    case GetAllocated(p, s) => p in st.pending && Gets(st, s, st.pending[p])
    case Dup(p, s) => Ready(st, p) && Has(st, p, s)
    case Lock(p, s) => Ready(st, p) && Has(st, p, s) && st.slots[s].busy == None
    case Read(p, s) => Ready(st, p) && Holds(st, p, s) && !st.slots[s].valid && Typed(st, s)
    case Change(p, s, d) =>
      Ready(st, p) && Holds(st, p, s) && st.slots[s].valid && st.phase[s] == Idle && d.kind == st.slots[s].copy.kind
    case Update(p, s) => Ready(st, p) && Holds(st, p, s) && st.slots[s].valid && st.phase[s] == Idle
    case Unlock(p, s) =>
      Ready(st, p) && Holds(st, p, s) && st.slots[s].valid && !st.slots[s].dirty && st.phase[s] == Idle
    case PutDrop(p, s) =>
      Ready(st, p) && Has(st, p, s) && !Holds(st, p, s) && !Last(st, p, s) && st.slots[s].maker != Some(p)
    case PutStart(p, s) => Ready(st, p) && Last(st, p, s) && !Holds(st, p, s) && st.slots[s].maker != Some(p)
    case PutTrunc(p, s) => s < |st.slots| && st.phase[s] == Started(p)
    case PutFree(p, s) => s < |st.slots| && st.phase[s] == Truncated(p)
    case PutEnd(p, s) => s < |st.slots| && st.phase[s] == Freed(p)
  }

  /** ilock panics: the inode it has locked and read has no type. */
  ghost predicate TypePanic(st: State, p: Pid, s: nat) {
    Holds(st, p, s) && !st.slots[s].valid && !Typed(st, s)
  }

  function Got(x: Slot, p: Pid, inum: nat, maker: Option<Pid>): Slot {
    if x.refs != multiset{} then x.(refs := x.refs + multiset{p}, maker := if maker.Some? then maker else x.maker)
    else x.(inum := inum, refs := multiset{p}, busy := None, valid := false, dirty := false, maker := maker)
  }

  ghost function Do(st: State, step: Step): State
    requires |st.phase| == |st.slots| && Enabled(st, step)
  {
    match step
    case Lookup(p, inum, s) => st.(slots := st.slots[s := Got(st.slots[s], p, inum, None)])
    case Alloc(p, inum, kind) => st.(disk := st.disk[inum := Dinode(kind, 0, 0)], pending := st.pending[p := inum])
    case GetAllocated(p, s) =>
      st.(slots := st.slots[s := Got(st.slots[s], p, st.pending[p], Some(p))], pending := st.pending - {p})
    case Dup(p, s) => st.(slots := st.slots[s := st.slots[s].(refs := st.slots[s].refs + multiset{p})])
    case Lock(p, s) =>
      var x := st.slots[s];
      st.(slots := st.slots[s := x.(busy := Some(p), maker := if x.maker == Some(p) then None else x.maker)])
    case Read(p, s) =>
      st.(slots := st.slots[s := st.slots[s].(copy := st.disk[st.slots[s].inum], valid := true)])
    case Change(p, s, d) => st.(slots := st.slots[s := st.slots[s].(copy := d, dirty := true)])
    case Update(p, s) => st.(slots := st.slots[s := st.slots[s].(dirty := false)],
                             disk := Put(st.disk, st.slots[s].inum, st.slots[s].copy))
    case Unlock(p, s) => st.(slots := st.slots[s := st.slots[s].(busy := None)])
    case PutDrop(p, s) => st.(slots := st.slots[s := st.slots[s].(refs := st.slots[s].refs - multiset{p})])
    case PutStart(p, s) => st.(slots := st.slots[s := st.slots[s].(busy := Some(p))],
                               phase := st.phase[s := Started(p)])
    case PutTrunc(p, s) =>
      var c := st.slots[s].copy.(data := 0);
      st.(slots := st.slots[s := st.slots[s].(copy := c)], disk := Put(st.disk, st.slots[s].inum, c),
          phase := st.phase[s := Truncated(p)])
    case PutFree(p, s) =>
      var c := st.slots[s].copy.(kind := 0);
      st.(slots := st.slots[s := st.slots[s].(copy := c)], disk := Put(st.disk, st.slots[s].inum, c),
          phase := st.phase[s := Freed(p)])
    case PutEnd(p, s) =>
      var x := st.slots[s];
      st.(slots := st.slots[s := x.(busy := None, valid := false, refs := x.refs - multiset{p})],
          phase := st.phase[s := Idle])
  }

  function Put(disk: seq<Dinode>, inum: nat, d: Dinode): seq<Dinode> {
    if inum < |disk| then disk[inum := d] else disk
  }

  // ----- what every step keeps, whatever a lookup finds -----

  ghost predicate Pends(st: State, i: nat) {
    exists p: Pid :: p in st.pending && st.pending[p] == i
  }

  /** A slot in use: its holder has a reference, and a copy that was read is the one on disk. */
  ghost predicate SlotOk(x: Slot, ph: Phase, disk: seq<Dinode>) {
    if x.refs == multiset{} then ph == Idle && x.busy == None
    else
      && x.inum < |disk|
      && (x.busy.Some? ==> x.busy.value in x.refs)
      && (x.maker.Some? ==> x.maker.value in x.refs)
      && (x.dirty ==> x.valid && x.busy.Some? && ph == Idle)
      && (x.valid && !ph.Freed? ==> disk[x.inum].kind != 0 && x.copy.kind != 0)
      && (x.valid && !x.dirty && !ph.Freed? ==> x.copy == disk[x.inum])
      && (ph != Idle ==> x.busy == Some(ph.p) && x.valid && x.copy.nlink == 0 && x.maker != Some(ph.p))
  }

  ghost predicate SlotsOk(st: State) {
    && |st.phase| == |st.slots|
    && (forall s: nat :: s < |st.slots| ==> SlotOk(st.slots[s], st.phase[s], st.disk))
    && (forall s: nat, t: nat, i: nat :: Cached(st, s, i) && Cached(st, t, i) ==> s == t)
  }

  /** A process is in one call at a time. */
  ghost predicate OneCall(st: State) {
    forall p: Pid :: p in st.pending ==>
      && st.pending[p] < |st.disk|
      && forall s: nat :: s < |st.phase| && st.phase[s] != Idle ==> st.phase[s].p != p
  }

  /** The inode in use on disk that slot `s` is about will not be dropped: its maker or its holder will read it. */
  ghost predicate Kept(st: State, s: nat, lost: iset<nat>)
    requires |st.phase| == |st.slots|
  {
    s < |st.slots| && st.slots[s].refs != multiset{} && Typed(st, s) ==>
      && (!st.slots[s].valid && st.disk[st.slots[s].inum].nlink == 0 ==>
            || Pends(st, st.slots[s].inum) || st.slots[s].maker.Some? || st.slots[s].busy.Some?
            || st.slots[s].inum in lost)
      && (st.phase[s].Freed? ==> Pends(st, st.slots[s].inum) || st.slots[s].maker.Some?)
  }

  /** An inode in use without links is in the cache or about to be, but for those lost before. */
  ghost predicate Accounted(st: State, i: nat, lost: iset<nat>) {
    i < |st.disk| && st.disk[i].kind != 0 && st.disk[i].nlink == 0 && i !in lost ==>
      (exists s: nat :: Cached(st, s, i)) || Pends(st, i)
  }

  ghost predicate Inv(st: State, lost: iset<nat>) {
    && SlotsOk(st) && OneCall(st)
    && (forall s: nat :: Kept(st, s, lost)) && (forall i: nat :: Accounted(st, i, lost))
  }

  // ----- one slot at a time -----

  /** A step that changes slot `s` and its phase and, at most, the inode on disk that slot is about. */
  ghost predicate Local(st: State, r: State, s: nat) {
    && s < |st.slots| == |st.phase| && |r.slots| == |st.slots| && |r.phase| == |st.phase| && |r.disk| == |st.disk|
    && r.pending == st.pending && st.slots[s].refs != multiset{} && r.slots[s].inum == st.slots[s].inum
    && (forall t: nat :: t < |st.slots| && t != s ==> r.slots[t] == st.slots[t] && r.phase[t] == st.phase[t])
    && (forall i: nat :: i < |st.disk| && i != st.slots[s].inum ==> r.disk[i] == st.disk[i])
  }

  lemma Apart(st: State, s: nat, t: nat)
    requires SlotsOk(st) && s < |st.slots| && t < |st.slots| && s != t
    ensures st.slots[s].refs != multiset{} && st.slots[t].refs != multiset{} ==> st.slots[s].inum != st.slots[t].inum
  {
    if st.slots[s].refs != multiset{} && st.slots[t].refs != multiset{} && st.slots[s].inum == st.slots[t].inum {
      assert Cached(st, s, st.slots[s].inum) && Cached(st, t, st.slots[s].inum);
    }
  }

  lemma LocalSlots(st: State, r: State, s: nat)
    requires SlotsOk(st) && Local(st, r, s) && SlotOk(r.slots[s], r.phase[s], r.disk)
    ensures SlotsOk(r)
  {
    forall t: nat | t < |r.slots| ensures SlotOk(r.slots[t], r.phase[t], r.disk) {
      if t != s { Apart(st, s, t); }
    }
    forall a: nat, b: nat, i: nat | Cached(r, a, i) && Cached(r, b, i) ensures a == b {
      assert Cached(st, a, i) && Cached(st, b, i);
    }
  }

  /** The inode of a slot that is given up is free, or has links, or is accounted for otherwise. */
  ghost predicate Dropped(st: State, r: State, s: nat, lost: iset<nat>) {
    s < |r.slots| && r.slots[s].refs == multiset{} && Typed(r, s) && r.disk[r.slots[s].inum].nlink == 0 ==>
      Pends(st, r.slots[s].inum) || r.slots[s].inum in lost
  }

  /** What is left to check of such a step. */
  lemma LocalKeeps(st: State, r: State, s: nat, lost: iset<nat>)
    requires Inv(st, lost) && Local(st, r, s) && SlotOk(r.slots[s], r.phase[s], r.disk)
    requires Kept(r, s, lost) && Dropped(st, r, s, lost)
    requires r.phase[s] == Idle || (st.phase[s] != Idle && r.phase[s].p == st.phase[s].p)
      || r.phase[s].p !in st.pending
    ensures Inv(r, lost)
  {
    LocalSlots(st, r, s);
    forall t: nat ensures Kept(r, t, lost) {
      assert Kept(st, t, lost);
      if t != s && t < |st.slots| { Apart(st, s, t); }
    }
    forall i: nat ensures Accounted(r, i, lost) {
      LocalAccounted(st, r, s, i, lost);
    }
    forall p: Pid | p in r.pending
      ensures forall t: nat :: t < |r.phase| && r.phase[t] != Idle ==> r.phase[t].p != p
    {
      assert p in st.pending;
    }
  }

  lemma LocalAccounted(st: State, r: State, s: nat, i: nat, lost: iset<nat>)
    requires Inv(st, lost) && Local(st, r, s) && Dropped(st, r, s, lost)
    ensures Accounted(r, i, lost)
  {
    assert Accounted(st, i, lost);
    if i == st.slots[s].inum {
      if r.slots[s].refs != multiset{} { assert Cached(r, s, i); }
    } else if exists t: nat :: Cached(st, t, i) {
      var t: nat :| Cached(st, t, i);
      assert Cached(r, t, i);
    }
  }

  lemma HoldKeeps(st: State, step: Step, lost: iset<nat>)
    requires Inv(st, lost) && Enabled(st, step) && (step.Dup? || step.Lock? || step.Read?)
    ensures Inv(Do(st, step), lost)
  {
    assert SlotOk(st.slots[step.s], st.phase[step.s], st.disk) && Kept(st, step.s, lost);
    LocalKeeps(st, Do(st, step), step.s, lost);
  }

  lemma ChangeKeeps(st: State, step: Step, lost: iset<nat>)
    requires Inv(st, lost) && Enabled(st, step) && (step.Change? || step.Unlock? || step.Update?)
    ensures Inv(Do(st, step), lost)
  {
    assert SlotOk(st.slots[step.s], st.phase[step.s], st.disk) && Kept(st, step.s, lost);
    LocalKeeps(st, Do(st, step), step.s, lost);
  }

  lemma FreeKeeps(st: State, step: Step, lost: iset<nat>)
    requires Inv(st, lost) && Enabled(st, step) && (step.PutStart? || step.PutTrunc? || step.PutFree?)
    ensures Inv(Do(st, step), lost)
  {
    assert SlotOk(st.slots[step.s], st.phase[step.s], st.disk) && Kept(st, step.s, lost);
    LocalKeeps(st, Do(st, step), step.s, lost);
  }

  lemma OnlyUser(m: multiset<Pid>, p: Pid)
    requires p in m
    ensures m - multiset{p} == multiset{} ==> m == multiset{p} && forall q :: q in m ==> q == p
  {
    assert m == (m - multiset{p}) + multiset{p};
  }

  lemma PutDropKeeps(st: State, p: Pid, s: nat, lost: iset<nat>)
    requires Inv(st, lost) && Enabled(st, PutDrop(p, s))
    ensures Inv(Do(st, PutDrop(p, s)), lost)
  {
    var r, x := Do(st, PutDrop(p, s)), st.slots[s];
    assert SlotOk(x, st.phase[s], st.disk) && Kept(st, s, lost);
    OnlyUser(x.refs, p);
    LocalKeeps(st, r, s, lost);
  }

  lemma PutEndKeeps(st: State, p: Pid, s: nat, lost: iset<nat>)
    requires Inv(st, lost) && Enabled(st, PutEnd(p, s))
    ensures Inv(Do(st, PutEnd(p, s)), lost)
  {
    var r, x := Do(st, PutEnd(p, s)), st.slots[s];
    assert SlotOk(x, st.phase[s], st.disk) && Kept(st, s, lost);
    OnlyUser(x.refs, p);
    LocalKeeps(st, r, s, lost);
  }

  /** iget of any inode: the slot that has it, or an empty one. */
  lemma GetSlots(st: State, r: State, p: Pid, inum: nat, s: nat, maker: Option<Pid>)
    requires SlotsOk(st) && Gets(st, s, inum) && inum < |st.disk| && (maker.Some? ==> maker.value == p)
    requires r.slots == st.slots[s := Got(st.slots[s], p, inum, maker)] && r.phase == st.phase && r.disk == st.disk
    requires maker.Some? && st.phase[s] != Idle ==> st.phase[s].p != p
    ensures SlotsOk(r)
    ensures forall t: nat, i: nat :: Cached(r, t, i) <==> Cached(st, t, i) || (t == s && i == inum)
  {
    assert SlotOk(st.slots[s], st.phase[s], st.disk);
    forall t: nat, i: nat ensures Cached(r, t, i) <==> Cached(st, t, i) || (t == s && i == inum) {}
    forall a: nat, b: nat, i: nat | Cached(r, a, i) && Cached(r, b, i) ensures a == b {
      assert Cached(st, a, i) || (a == s && i == inum);
      assert Cached(st, b, i) || (b == s && i == inum);
    }
    forall t: nat | t < |r.slots| ensures SlotOk(r.slots[t], r.phase[t], r.disk) {
      assert SlotOk(st.slots[t], st.phase[t], st.disk);
    }
  }

  lemma CachedKept(st: State, r: State, i: nat)
    requires forall t: nat :: Cached(st, t, i) ==> Cached(r, t, i)
    ensures (exists t: nat :: Cached(st, t, i)) ==> exists t: nat :: Cached(r, t, i)
  {
    if t: nat :| Cached(st, t, i) { assert Cached(r, t, i); }
  }

  lemma LookupKeeps(st: State, p: Pid, inum: nat, s: nat, lost: iset<nat>)
    requires Inv(st, lost) && Enabled(st, Lookup(p, inum, s))
    ensures Inv(Do(st, Lookup(p, inum, s)), lost)
  {
    var r := Do(st, Lookup(p, inum, s));
    GetSlots(st, r, p, inum, s, None);
    forall t: nat ensures Kept(r, t, lost) {
      assert Kept(st, t, lost);
      if t == s && st.slots[s].refs == multiset{} {
        assert Accounted(st, inum, lost) && SlotOk(st.slots[s], st.phase[s], st.disk);
      }
    }
    forall i: nat ensures Accounted(r, i, lost) {
      assert Accounted(st, i, lost);
      CachedKept(st, r, i);
    }
  }

  lemma PendsMore(st: State, r: State, p: Pid, inum: nat, i: nat)
    requires p !in st.pending && r.pending == st.pending[p := inum]
    ensures Pends(r, i) <==> Pends(st, i) || i == inum
  {
    if q: Pid :| q in st.pending && st.pending[q] == i { assert q in r.pending && r.pending[q] == i; }
    assert p in r.pending && r.pending[p] == inum;
  }

  lemma AllocKeeps(st: State, p: Pid, inum: nat, kind: nat, lost: iset<nat>)
    requires Inv(st, lost) && Enabled(st, Alloc(p, inum, kind))
    ensures Inv(Do(st, Alloc(p, inum, kind)), lost)
  {
    var r := Do(st, Alloc(p, inum, kind));
    forall t: nat, i: nat ensures Cached(r, t, i) <==> Cached(st, t, i) {}
    forall t: nat | t < |r.slots| ensures SlotOk(r.slots[t], r.phase[t], r.disk) {
      assert SlotOk(st.slots[t], st.phase[t], st.disk);
    }
    forall t: nat ensures Kept(r, t, lost) {
      assert Kept(st, t, lost);
      if t < |st.slots| { PendsMore(st, r, p, inum, st.slots[t].inum); }
    }
    forall i: nat ensures Accounted(r, i, lost) {
      assert Accounted(st, i, lost);
      CachedKept(st, r, i);
      PendsMore(st, r, p, inum, i);
    }
  }

  lemma PendsLess(st: State, r: State, p: Pid, i: nat)
    requires p in st.pending && r.pending == st.pending - {p}
    ensures Pends(st, i) ==> Pends(r, i) || i == st.pending[p]
  {
    if q: Pid :| q in st.pending && st.pending[q] == i { assert q == p || (q in r.pending && r.pending[q] == i); }
  }

  lemma GetAllocatedKeeps(st: State, p: Pid, s: nat, lost: iset<nat>)
    requires Inv(st, lost) && Enabled(st, GetAllocated(p, s))
    ensures Inv(Do(st, GetAllocated(p, s)), lost)
  {
    var r, inum := Do(st, GetAllocated(p, s)), st.pending[p];
    GetSlots(st, r, p, inum, s, Some(p));
    assert Cached(r, s, inum);
    forall t: nat ensures Kept(r, t, lost) {
      assert Kept(st, t, lost);
      if t < |st.slots| {
        PendsLess(st, r, p, st.slots[t].inum);
        if t != s { Apart(r, s, t); }
      }
    }
    forall i: nat ensures Accounted(r, i, lost) {
      assert Accounted(st, i, lost);
      CachedKept(st, r, i);
      PendsLess(st, r, p, i);
    }
  }

  lemma StepKeeps(st: State, step: Step, lost: iset<nat>)
    requires Inv(st, lost) && Enabled(st, step)
    ensures Inv(Do(st, step), lost)
  {
    match step
    case Lookup(p, inum, s) => LookupKeeps(st, p, inum, s, lost);
    case Alloc(p, inum, kind) => AllocKeeps(st, p, inum, kind, lost);
    case GetAllocated(p, s) => GetAllocatedKeeps(st, p, s, lost);
    case Dup(_, _) => HoldKeeps(st, step, lost);
    case Lock(_, _) => HoldKeeps(st, step, lost);
    case Read(_, _) => HoldKeeps(st, step, lost);
    case Change(_, _, _) => ChangeKeeps(st, step, lost);
    case Unlock(_, _) => ChangeKeeps(st, step, lost);
    case Update(_, _) => ChangeKeeps(st, step, lost);
    case PutDrop(p, s) => PutDropKeeps(st, p, s, lost);
    case PutStart(_, _) => FreeKeeps(st, step, lost);
    case PutTrunc(_, _) => FreeKeeps(st, step, lost);
    case PutFree(_, _) => FreeKeeps(st, step, lost);
    case PutEnd(p, s) => PutEndKeeps(st, p, s, lost);
  }

  // ----- runs -----

  /** An empty cache over any disk. */
  ghost predicate Start(st: State) {
    && |st.phase| == |st.slots| && st.pending == map[]
    && forall s: nat :: s < |st.slots| ==>
      st.slots[s].refs == multiset{} && st.slots[s].busy == None && st.phase[s] == Idle
  }

  /** In use on disk without a link. */
  predicate Unlinked(disk: seq<Dinode>, i: nat) {
    i < |disk| && disk[i].kind != 0 && disk[i].nlink == 0
  }

  /** The inodes that are in use without a link when the machine starts. */
  ghost function Orphans(disk: seq<Dinode>): iset<nat> {
    iset i: nat | Unlinked(disk, i)
  }

  ghost predicate Follows(st: State, step: Step, r: State) {
    |st.phase| == |st.slots| && Enabled(st, step) && r == Do(st, step)
  }

  ghost predicate Path(states: seq<State>, steps: seq<Step>) {
    && |states| == |steps| + 1
    && forall i: nat {:trigger steps[i]} :: i < |steps| ==> Follows(states[i], steps[i], states[i + 1])
  }

  ghost predicate Run(states: seq<State>, steps: seq<Step>) {
    Path(states, steps) && Start(states[0])
  }

  lemma StartInv(st: State)
    requires Start(st)
    ensures Inv(st, Orphans(st.disk))
  {
  }

  lemma {:induction false} RunInv(states: seq<State>, steps: seq<Step>, n: nat)
    requires Run(states, steps) && n < |states|
    ensures Inv(states[n], Orphans(states[0].disk))
    decreases n
  {
    if n == 0 {
      StartInv(states[0]);
    } else {
      RunInv(states, steps, n - 1);
      assert Follows(states[n - 1], steps[n - 1], states[n]);
      StepKeeps(states[n - 1], steps[n - 1], Orphans(states[0].disk));
    }
  }

  // ----- what holds in every run -----

  /** An inode is in at most one slot, and whoever has it locked holds a reference. */
  lemma OneSlot(states: seq<State>, steps: seq<Step>, n: nat, i: nat, s: nat, t: nat)
    requires Run(states, steps) && n < |states| && Cached(states[n], s, i) && Cached(states[n], t, i)
    ensures s == t && (states[n].slots[s].busy.Some? ==> states[n].slots[s].busy.value in states[n].slots[s].refs)
  {
    RunInv(states, steps, n);
    assert SlotOk(states[n].slots[s], states[n].phase[s], states[n].disk);
  }

  /** What a process sees of an inode it has locked and read is what is on disk for it, and it is in use. */
  lemma NeverStale(states: seq<State>, steps: seq<Step>, n: nat, p: Pid, s: nat)
    requires Run(states, steps) && n < |states| && Holds(states[n], p, s)
    ensures var x := states[n].slots[s];
      x.refs != multiset{} && x.inum < |states[n].disk| && |states[n].phase| == |states[n].slots|
      && (x.valid && !x.dirty && states[n].phase[s] == Idle ==> x.copy == states[n].disk[x.inum] && x.copy.kind != 0)
  {
    RunInv(states, steps, n);
    assert SlotOk(states[n].slots[s], states[n].phase[s], states[n].disk);
  }

  /** iput never finds its inode busy: the last user, not holding the lock itself, finds nobody holding it. */
  lemma NoBusyPanic(states: seq<State>, steps: seq<Step>, n: nat, p: Pid, s: nat)
    requires Run(states, steps) && n < |states| && Last(states[n], p, s) && !Holds(states[n], p, s)
    ensures states[n].slots[s].busy == None
  {
    RunInv(states, steps, n);
    assert SlotOk(states[n].slots[s], states[n].phase[s], states[n].disk);
  }

  /** An inode in use without links is in the cache or on its way there, unless it was so from the start. */
  lemma NoOrphan(states: seq<State>, steps: seq<Step>, n: nat, i: nat)
    requires Run(states, steps) && n < |states| && Unlinked(states[n].disk, i) && !Unlinked(states[0].disk, i)
    ensures (exists s: nat :: Cached(states[n], s, i)) || Pends(states[n], i)
  {
    RunInv(states, steps, n);
    assert Accounted(states[n], i, Orphans(states[0].disk));
  }

  /**
   Whoever gets an inode while iput is still freeing it waits for the lock, and when iput is done the slot
   has to be read from disk again.
   */
  lemma ReuseWaitsAndRereads(states: seq<State>, steps: seq<Step>, n: nat, p: Pid, q: Pid, s: nat)
    requires Run(states, steps) && n < |states| && s < |states[n].slots| == |states[n].phase|
    requires states[n].phase[s] == Freed(q) && p != q && p in states[n].slots[s].refs
    ensures !Enabled(states[n], Lock(p, s)) && Enabled(states[n], PutEnd(q, s))
    ensures var r := Do(states[n], PutEnd(q, s)); Has(r, p, s) && r.slots[s].busy == None && !r.slots[s].valid
  {
    RunInv(states, steps, n);
    assert SlotOk(states[n].slots[s], states[n].phase[s], states[n].disk);
  }

  // ----- which lookups are safe -----

  /** The inode has a type, ialloc is not making it and iput is not freeing it. */
  ghost predicate Alive(st: State, i: nat) {
    && i < |st.disk| && st.disk[i].kind != 0 && !Pends(st, i)
    && forall s: nat :: Cached(st, s, i) && s < |st.phase| ==> !st.phase[s].Started? && !st.phase[s].Truncated?
  }

  ghost predicate Safe(st: State, step: Step) {
    step.Lookup? ==> Alive(st, step.inum)
  }

  ghost predicate SafePath(states: seq<State>, steps: seq<Step>) {
    Path(states, steps) && forall i: nat {:trigger steps[i]} :: i < |steps| ==> Safe(states[i], steps[i])
  }

  ghost predicate SafeRun(states: seq<State>, steps: seq<Step>) {
    SafePath(states, steps) && Start(states[0])
  }

  /** The slot is only waiting for iput to end. */
  ghost predicate Vacated(st: State, s: nat)
    requires s < |st.slots| == |st.phase|
  {
    st.phase[s].Freed? && st.slots[s].refs == multiset{st.phase[s].p}
  }

  ghost predicate SlotLive(st: State, s: nat)
    requires |st.phase| == |st.slots|
  {
    s < |st.slots| && st.slots[s].refs != multiset{} ==>
      && (!Vacated(st, s) ==> Typed(st, s))
      && (st.phase[s].Started? || st.phase[s].Truncated? ==> st.slots[s].refs == multiset{st.phase[s].p})
  }

  /** An inode ialloc has marked: without links, and in the cache at most with the process freeing it. */
  ghost predicate PendingOk(st: State, p: Pid)
    requires |st.phase| == |st.slots|
  {
    p in st.pending ==>
      && Unlinked(st.disk, st.pending[p])
      && (forall s: nat :: Cached(st, s, st.pending[p]) ==> Vacated(st, s))
      && (forall q: Pid :: q in st.pending && st.pending[q] == st.pending[p] ==> q == p)
  }

  /** With safe lookups only: every slot in use has an inode with a type, but for one being given up. */
  ghost predicate Live(st: State) {
    && |st.phase| == |st.slots|
    && (forall s: nat :: SlotLive(st, s)) && (forall p: Pid :: PendingOk(st, p))
  }

  lemma LocalLive(st: State, r: State, s: nat, lost: iset<nat>)
    requires Inv(st, lost) && Live(st) && Local(st, r, s) && SlotLive(r, s)
    requires Vacated(st, s) ==> r.disk == st.disk && (r.slots[s].refs == multiset{} || Vacated(r, s))
    ensures Live(r)
  {
    forall t: nat ensures SlotLive(r, t) {
      assert SlotLive(st, t);
      if t != s && t < |st.slots| { Apart(st, s, t); }
    }
    forall p: Pid ensures PendingOk(r, p) {
      assert PendingOk(st, p);
      if p in st.pending {
        assert Cached(st, s, st.slots[s].inum);
        forall t: nat | Cached(r, t, st.pending[p]) ensures Vacated(r, t) { assert Cached(st, t, st.pending[p]); }
      }
    }
  }

  lemma LocalStepLive(st: State, step: Step, lost: iset<nat>)
    requires Inv(st, lost) && Live(st) && Enabled(st, step) && !step.Lookup? && !step.Alloc? && !step.GetAllocated?
    ensures Live(Do(st, step))
  {
    var r, s := Do(st, step), step.s;
    assert SlotOk(st.slots[s], st.phase[s], st.disk) && SlotLive(st, s);
    if step.PutDrop? || step.PutEnd? {
      DropLive(st, step);
    } else if step.PutStart? || step.PutTrunc? || step.PutFree? {
      FreeLive(st, step);
    }
    LocalLive(st, r, s, lost);
  }

  lemma DropLive(st: State, step: Step)
    requires SlotsOk(st) && Enabled(st, step) && (step.PutDrop? || step.PutEnd?) && SlotLive(st, step.s)
    ensures Local(st, Do(st, step), step.s) && SlotLive(Do(st, step), step.s)
    ensures Vacated(st, step.s) ==> Do(st, step).slots[step.s].refs == multiset{}
  {
    assert SlotOk(st.slots[step.s], st.phase[step.s], st.disk);
    OnlyUser(st.slots[step.s].refs, step.p);
  }

  lemma FreeLive(st: State, step: Step)
    requires SlotsOk(st) && Enabled(st, step) && (step.PutStart? || step.PutTrunc? || step.PutFree?)
    requires SlotLive(st, step.s)
    ensures Local(st, Do(st, step), step.s) && SlotLive(Do(st, step), step.s) && !Vacated(st, step.s)
  {
    assert SlotOk(st.slots[step.s], st.phase[step.s], st.disk);
  }

  lemma LookupLive(st: State, p: Pid, inum: nat, s: nat, lost: iset<nat>)
    requires Inv(st, lost) && Live(st) && Enabled(st, Lookup(p, inum, s)) && Alive(st, inum)
    ensures Live(Do(st, Lookup(p, inum, s)))
  {
    var r := Do(st, Lookup(p, inum, s));
    GetSlots(st, r, p, inum, s, None);
    assert SlotOk(st.slots[s], st.phase[s], st.disk) && SlotLive(st, s) && Kept(st, s, lost);
    assert Cached(st, s, inum) ==> !st.phase[s].Started? && !st.phase[s].Truncated?;
    if st.slots[s].refs != multiset{} && Vacated(st, s) { VacatedPends(st, s, lost); }
    forall t: nat ensures SlotLive(r, t) {
      assert SlotLive(st, t);
    }
    forall q: Pid ensures PendingOk(r, q) {
      assert PendingOk(st, q);
      if q in st.pending {
        assert Pends(st, st.pending[q]);
        forall t: nat | Cached(r, t, st.pending[q]) ensures Vacated(r, t) { assert Cached(st, t, st.pending[q]); }
      }
    }
  }

  /** A free inode that came back while its last user is still in iput is one ialloc is making. */
  lemma VacatedPends(st: State, s: nat, lost: iset<nat>)
    requires Inv(st, lost) && s < |st.slots| && st.slots[s].refs != multiset{} && Vacated(st, s) && Typed(st, s)
    ensures Pends(st, st.slots[s].inum) && st.slots[s].maker == None
  {
    assert SlotOk(st.slots[s], st.phase[s], st.disk) && Kept(st, s, lost);
  }

  lemma AllocLive(st: State, p: Pid, inum: nat, kind: nat)
    requires Live(st) && OneCall(st) && Enabled(st, Alloc(p, inum, kind))
    ensures Live(Do(st, Alloc(p, inum, kind)))
  {
    var r := Do(st, Alloc(p, inum, kind));
    forall t: nat ensures SlotLive(r, t) {
      assert SlotLive(st, t);
    }
    forall q: Pid ensures PendingOk(r, q) {
      assert PendingOk(st, q);
      if q in r.pending {
        forall t: nat | Cached(r, t, r.pending[q]) ensures Vacated(r, t) {
          assert Cached(st, t, r.pending[q]) && SlotLive(st, t);
        }
        forall o: Pid | o in r.pending && r.pending[o] == r.pending[q] ensures o == q {
          assert PendingOk(st, o);
        }
      }
    }
  }

  lemma GetAllocatedLive(st: State, p: Pid, s: nat, lost: iset<nat>)
    requires Inv(st, lost) && Live(st) && Enabled(st, GetAllocated(p, s))
    ensures Live(Do(st, GetAllocated(p, s)))
  {
    var r, inum := Do(st, GetAllocated(p, s)), st.pending[p];
    GetSlots(st, r, p, inum, s, Some(p));
    assert PendingOk(st, p);
    forall t: nat ensures SlotLive(r, t) {
      assert SlotLive(st, t);
      assert Cached(st, t, inum) ==> Vacated(st, t);
    }
    forall q: Pid ensures PendingOk(r, q) {
      assert PendingOk(st, q);
      if q in r.pending {
        forall t: nat | Cached(r, t, r.pending[q]) ensures Vacated(r, t) { assert Cached(st, t, r.pending[q]); }
      }
    }
  }

  lemma StepLive(st: State, step: Step, lost: iset<nat>)
    requires Inv(st, lost) && Live(st) && Enabled(st, step) && Safe(st, step)
    ensures Live(Do(st, step))
  {
    if step.Lookup? {
      LookupLive(st, step.p, step.inum, step.s, lost);
    } else if step.Alloc? {
      AllocLive(st, step.p, step.inum, step.kind);
    } else if step.GetAllocated? {
      GetAllocatedLive(st, step.p, step.s, lost);
    } else {
      LocalStepLive(st, step, lost);
    }
  }

  lemma {:induction false} PathLive(states: seq<State>, steps: seq<Step>, n: nat, lost: iset<nat>)
    requires SafePath(states, steps) && n < |states| && Inv(states[0], lost) && Live(states[0])
    ensures Inv(states[n], lost) && Live(states[n])
    decreases n
  {
    if n > 0 {
      PathLive(states, steps, n - 1, lost);
      assert Follows(states[n - 1], steps[n - 1], states[n]);
      StepKeeps(states[n - 1], steps[n - 1], lost);
      StepLive(states[n - 1], steps[n - 1], lost);
    }
  }

  lemma StartLive(st: State)
    requires Start(st)
    ensures Live(st)
  {
  }

  lemma TypeHolds(st: State, p: Pid, s: nat, lost: iset<nat>)
    requires Inv(st, lost) && Live(st)
    ensures !TypePanic(st, p, s)
  {
    if s < |st.slots| { assert SlotOk(st.slots[s], st.phase[s], st.disk) && SlotLive(st, s); }
  }

  /** With safe lookups only, ilock never finds an inode without a type. */
  lemma NoTypePanic(states: seq<State>, steps: seq<Step>, n: nat, p: Pid, s: nat)
    requires SafeRun(states, steps) && n < |states|
    ensures !TypePanic(states[n], p, s)
  {
    StartInv(states[0]);
    StartLive(states[0]);
    PathLive(states, steps, n, Orphans(states[0].disk));
    TypeHolds(states[n], p, s, Orphans(states[0].disk));
  }

  /** And whoever waits for an inode that iput is freeing finds the one ialloc has put there. */
  lemma ReuseFindsNew(states: seq<State>, steps: seq<Step>, n: nat, p: Pid, q: Pid, s: nat)
    requires SafeRun(states, steps) && n < |states| && s < |states[n].slots| == |states[n].phase|
    requires states[n].phase[s] == Freed(q) && p != q && p in states[n].slots[s].refs
    ensures Typed(Do(states[n], PutEnd(q, s)), s)
  {
    StartInv(states[0]);
    StartLive(states[0]);
    PathLive(states, steps, n, Orphans(states[0].disk));
    assert SlotLive(states[n], s);
  }

  /** An inode with links is safe to look up. */
  lemma LinkedIsAlive(st: State, i: nat, lost: iset<nat>)
    requires Inv(st, lost) && Live(st) && i < |st.disk| && st.disk[i].kind != 0 && st.disk[i].nlink > 0
    ensures Alive(st, i)
  {
    forall p: Pid | p in st.pending ensures st.pending[p] != i {
      assert PendingOk(st, p);
    }
    forall s: nat | Cached(st, s, i) ensures !st.phase[s].Started? && !st.phase[s].Truncated? {
      assert SlotOk(st.slots[s], st.phase[s], st.disk);
    }
  }

  // ----- and which are not -----

  lemma Extend(states: seq<State>, steps: seq<Step>, st: State, step: Step, r: State)
    returns (ss: seq<State>, ts: seq<Step>)
    requires SafePath(states, steps) && st == states[|steps|] && Follows(st, step, r) && !step.Lookup?
    ensures SafePath(ss, ts) && ss[0] == states[0] && ss[|ts|] == r
  {
    ss, ts := states + [r], steps + [step];
    forall i: nat | i < |ts| ensures Follows(ss[i], ts[i], ss[i + 1]) && Safe(ss[i], ts[i]) {
      if i < |steps| { assert ss[i] == states[i] && ss[i + 1] == states[i + 1] && ts[i] == steps[i]; }
    }
  }

  /** Process p is the only user of slot `s`, has not locked it, and is in no other call. */
  ghost predicate Waits(st: State, p: Pid, s: nat) {
    && s < |st.slots| == |st.phase| && Ready(st, p) && st.phase[s] == Idle && st.slots[s].inum < |st.disk|
    && st.slots[s].refs == multiset{p} && st.slots[s].busy == None && !st.slots[s].valid
    && st.slots[s].maker == None && !st.slots[s].dirty
  }

  lemma LockPanics(states: seq<State>, steps: seq<Step>, st: State, p: Pid, s: nat)
    returns (ss: seq<State>, ts: seq<Step>)
    requires SafePath(states, steps) && st == states[|steps|] && s < |st.slots| == |st.phase|
    requires Ready(st, p) && Has(st, p, s) && st.slots[s].busy == None && !st.slots[s].valid && !Typed(st, s)
    ensures SafePath(ss, ts) && ss[0] == states[0] && TypePanic(ss[|ts|], p, s)
  {
    var r := Do(st, Lock(p, s));
    ss, ts := Extend(states, steps, st, Lock(p, s), r);
  }

  /** iput comes to its end while p waits for the lock: p is left alone with the slot. */
  lemma PutEnds(states: seq<State>, steps: seq<Step>, st: State, p: Pid, q: Pid, s: nat)
    returns (ss: seq<State>, ts: seq<Step>, r: State)
    requires SafePath(states, steps) && st == states[|steps|] && s < |st.slots| == |st.phase|
    requires st.phase[s] == Freed(q) && p != q && Ready(st, p) && st.slots[s].refs == multiset{q} + multiset{p}
    requires st.slots[s].inum < |st.disk| && st.slots[s].maker == None && !st.slots[s].dirty
    ensures SafePath(ss, ts) && ss[0] == states[0] && ss[|ts|] == r && Waits(r, p, s)
    ensures r.disk == st.disk && r.pending == st.pending && r.slots[s].inum == st.slots[s].inum
    ensures |r.slots| == |st.slots| && forall t: nat :: t < |st.slots| && t != s ==> r.slots[t] == st.slots[t]
    ensures forall t: nat :: t < |r.phase| && r.phase[t] != Idle ==> r.phase[t] == st.phase[t]
  {
    r := Do(st, PutEnd(q, s));
    assert multiset{q} + multiset{p} - multiset{q} == multiset{p};
    ss, ts := Extend(states, steps, st, PutEnd(q, s), r);
  }

  /** iput on its way writes the inode out as free. */
  lemma Frees(states: seq<State>, steps: seq<Step>, st: State, q: Pid, s: nat)
    returns (ss: seq<State>, ts: seq<Step>, r: State)
    requires SafePath(states, steps) && st == states[|steps|] && s < |st.slots| == |st.phase|
    requires (st.phase[s] == Started(q) || st.phase[s] == Truncated(q)) && st.slots[s].inum < |st.disk|
    ensures SafePath(ss, ts) && ss[0] == states[0] && ss[|ts|] == r
    ensures |r.slots| == |st.slots| && r.slots == st.slots[s := st.slots[s].(copy := r.slots[s].copy)]
    ensures r.phase == st.phase[s := Freed(q)]
    ensures r.pending == st.pending && |r.disk| == |st.disk| && r.disk[st.slots[s].inum].kind == 0
  {
    ss, ts, r := states, steps, st;
    if st.phase[s] == Started(q) {
      r := Do(st, PutTrunc(q, s));
      ss, ts := Extend(states, steps, st, PutTrunc(q, s), r);
    }
    var r1 := r;
    r := Do(r1, PutFree(q, s));
    ss, ts := Extend(ss, ts, r1, PutFree(q, s), r);
  }

  /** Process p locks, reads and unlocks the inode it waits for, finds itself its last user and starts to free it. */
  lemma TakesOver(states: seq<State>, steps: seq<Step>, st: State, p: Pid, s: nat)
    returns (ss: seq<State>, ts: seq<Step>, r: State)
    requires SafePath(states, steps) && st == states[|steps|] && Waits(st, p, s)
    requires Unlinked(st.disk, st.slots[s].inum)
    ensures SafePath(ss, ts) && ss[0] == states[0] && ss[|ts|] == r
    ensures |r.slots| == |st.slots| && r.slots == st.slots[s := r.slots[s]] && r.phase == st.phase[s := Started(p)]
    ensures r.pending == st.pending && r.disk == st.disk
    ensures r.slots[s].refs == multiset{p} && r.slots[s].maker == None && r.slots[s].inum == st.slots[s].inum
  {
    var s1 := Do(st, Lock(p, s));
    ss, ts := Extend(states, steps, st, Lock(p, s), s1);
    var s2 := Do(s1, Read(p, s));
    ss, ts := Extend(ss, ts, s1, Read(p, s), s2);
    var s3 := Do(s2, Unlock(p, s));
    ss, ts := Extend(ss, ts, s2, Unlock(p, s), s3);
    r := Do(s3, PutStart(p, s));
    ss, ts := Extend(ss, ts, s3, PutStart(p, s), r);
  }

  /** Process p frees the inode that ialloc of o has marked; o then locks an inode without a type. */
  lemma MakerPanics(states: seq<State>, steps: seq<Step>, st: State, p: Pid, o: Pid, s: nat)
    returns (ss: seq<State>, ts: seq<Step>)
    requires SafePath(states, steps) && st == states[|steps|] && Waits(st, p, s)
    requires Unlinked(st.disk, st.slots[s].inum) && o in st.pending && st.pending[o] == st.slots[s].inum
    requires forall t: nat :: t < |st.phase| && st.phase[t] != Idle ==> st.phase[t].p != o
    requires forall t: nat :: Cached(st, t, st.slots[s].inum) ==> t == s
    ensures SafePath(ss, ts) && ss[0] == states[0] && TypePanic(ss[|ts|], o, s)
  {
    var i, r1, r2 := st.slots[s].inum, st, st;
    ss, ts, r1 := TakesOver(states, steps, st, p, s);
    ss, ts, r2 := Frees(ss, ts, r1, p, s);
    var r3 := Do(r2, PutEnd(p, s));
    ss, ts := Extend(ss, ts, r2, PutEnd(p, s), r3);
    assert r3.slots[s].refs == multiset{};
    forall t: nat ensures !Cached(r3, t, i) { assert Cached(r3, t, i) ==> Cached(st, t, i); }
    var r4 := Do(r3, GetAllocated(o, s));
    ss, ts := Extend(ss, ts, r3, GetAllocated(o, s), r4);
    ss, ts := LockPanics(ss, ts, r4, o, s);
  }

  /** Process p waits for an inode that is free, or that ialloc is making. */
  lemma WaitPanics(states: seq<State>, steps: seq<Step>, st: State, p: Pid, inum: nat, s: nat)
    returns (ss: seq<State>, ts: seq<Step>, q: Pid)
    requires SafePath(states, steps) && st == states[|steps|] && Waits(st, p, s) && st.slots[s].inum == inum
    requires OneCall(st) && (Typed(st, s) ==> Pends(st, inum) && Unlinked(st.disk, inum))
    requires forall t: nat :: Cached(st, t, inum) ==> t == s
    ensures SafePath(ss, ts) && ss[0] == states[0] && TypePanic(ss[|ts|], q, s)
  {
    if !Typed(st, s) {
      ss, ts := LockPanics(states, steps, st, p, s);
      q := p;
    } else {
      var o: Pid :| o in st.pending && st.pending[o] == inum;
      ss, ts := MakerPanics(states, steps, st, p, o, s);
      q := o;
    }
  }

  /** After any other lookup the machine can come to the panic. */
  lemma PanicAhead(st: State, p: Pid, inum: nat, s: nat, lost: iset<nat>)
    returns (ss: seq<State>, ts: seq<Step>, q: Pid)
    requires Inv(st, lost) && Live(st) && Enabled(st, Lookup(p, inum, s)) && !Alive(st, inum)
    ensures SafePath(ss, ts) && ss[0] == Do(st, Lookup(p, inum, s)) && TypePanic(ss[|ts|], q, s)
  {
    var r := Do(st, Lookup(p, inum, s));
    assert SlotOk(st.slots[s], st.phase[s], st.disk);
    if st.slots[s].refs == multiset{} {
      GetSlots(st, r, p, inum, s, None);
      MarkedOnly(st, inum, s, lost);
      ss, ts, q := WaitPanics([r], [], r, p, inum, s);
    } else {
      ss, ts, q := PanicCached(st, p, inum, s, lost, r);
    }
  }

  lemma PanicCached(st: State, p: Pid, inum: nat, s: nat, lost: iset<nat>, r: State)
    returns (ss: seq<State>, ts: seq<Step>, q: Pid)
    requires Inv(st, lost) && Live(st) && Enabled(st, Lookup(p, inum, s)) && !Alive(st, inum) && Cached(st, s, inum)
    requires r == Do(st, Lookup(p, inum, s))
    ensures SafePath(ss, ts) && ss[0] == r && TypePanic(ss[|ts|], q, s)
  {
    var o := FreeingIt(st, inum, s, lost);
    var r1, r2 := r, r;
    GetSlots(st, r, p, inum, s, None);
    if !st.phase[s].Freed? {
      ss, ts, r1 := Frees([r], [], r, o, s);
      ss, ts, r2 := PutEnds(ss, ts, r1, p, o, s);
      ss, ts := LockPanics(ss, ts, r2, p, s);
      q := p;
    } else {
      MarkedOnly(st, inum, s, lost);
      ss, ts, r1 := PutEnds([r], [], r, p, o, s);
      assert forall t: nat :: Cached(r1, t, inum) ==> Cached(r, t, inum);
      ss, ts, q := WaitPanics(ss, ts, r1, p, inum, s);
    }
  }

  /** Such an inode, if it has a type and iput is not still before writing it out, is one ialloc is making. */
  lemma MarkedOnly(st: State, inum: nat, s: nat, lost: iset<nat>)
    requires Inv(st, lost) && Live(st) && Gets(st, s, inum) && inum < |st.disk| && !Alive(st, inum)
    requires st.slots[s].refs == multiset{} || st.phase[s].Freed?
    ensures st.disk[inum].kind != 0 ==> Pends(st, inum) && Unlinked(st.disk, inum)
    ensures forall t: nat :: Cached(st, t, inum) ==> t == s
  {
    forall t: nat | Cached(st, t, inum) ensures t == s {}
    forall q: Pid | q in st.pending && st.pending[q] == inum ensures Unlinked(st.disk, inum) {
      assert PendingOk(st, q);
    }
  }

  /** An inode in the cache that is not safe to look up has one user, who is in iput with it. */
  lemma FreeingIt(st: State, inum: nat, s: nat, lost: iset<nat>) returns (o: Pid)
    requires Inv(st, lost) && Live(st) && Cached(st, s, inum) && inum < |st.disk| && !Alive(st, inum)
    ensures st.phase[s] != Idle && o == st.phase[s].p && st.slots[s].refs == multiset{o}
    ensures st.slots[s].maker == None && !st.slots[s].dirty
  {
    assert SlotOk(st.slots[s], st.phase[s], st.disk) && SlotLive(st, s);
    forall q: Pid | q in st.pending && st.pending[q] == inum ensures Vacated(st, s) { assert PendingOk(st, q); }
    forall t: nat | Cached(st, t, inum) ensures t == s {}
    o := st.phase[s].p;
  }

  /** The machine can come from `st` to the panic of ilock without any further unsafe lookup. */
  ghost predicate CanPanic(st: State) {
    exists ss: seq<State>, ts: seq<Step>, q: Pid, t: nat ::
      SafePath(ss, ts) && ss[0] == st && TypePanic(ss[|ts|], q, t)
  }

  /**
   The exact condition: a lookup leads to no panic of ilock if and only if the inode has a type and is
   neither being made by ialloc nor being freed by iput.
   */
  lemma LookupSafeIff(states: seq<State>, steps: seq<Step>, p: Pid, inum: nat, s: nat)
    requires SafeRun(states, steps)
    requires |states[|steps|].phase| == |states[|steps|].slots| && Enabled(states[|steps|], Lookup(p, inum, s))
    ensures Alive(states[|steps|], inum) <==> !CanPanic(Do(states[|steps|], Lookup(p, inum, s)))
  {
    var st, lost := states[|steps|], Orphans(states[0].disk);
    StartInv(states[0]);
    StartLive(states[0]);
    PathLive(states, steps, |steps|, lost);
    var r := Do(st, Lookup(p, inum, s));
    if Alive(st, inum) {
      StepKeeps(st, Lookup(p, inum, s), lost);
      StepLive(st, Lookup(p, inum, s), lost);
      forall ss: seq<State>, ts: seq<Step>, q: Pid, t: nat | SafePath(ss, ts) && ss[0] == r
        ensures !TypePanic(ss[|ts|], q, t)
      {
        PathLive(ss, ts, |ts|, lost);
        TypeHolds(ss[|ts|], q, t, lost);
      }
    } else {
      var ss, ts, q := PanicAhead(st, p, inum, s, lost);
      assert TypePanic(ss[|ts|], q, s);
    }
  }

  /** A file with one link that process 0 opens, locks and reads. */
  lemma Opened(d: Dinode) returns (states: seq<State>, steps: seq<Step>, r: State)
    requires d.kind != 0 && d.nlink > 0
    ensures SafeRun(states, steps) && states[0].disk == [d] && states[|steps|] == r
    ensures r == State([Slot(0, multiset{0}, Some(0), true, false, None, d)], [Idle], [d], map[])
  {
    var x := Slot(0, multiset{}, None, false, false, None, d);
    var s0 := State([x], [Idle], [d], map[]);
    var s1 := s0.(slots := [x.(refs := multiset{0})]);
    assert Follows(s0, Lookup(0, 0, 0), s1) && Alive(s0, 0);
    states, steps := [s0, s1], [Lookup(0, 0, 0)];
    var s2 := s0.(slots := [x.(refs := multiset{0}, busy := Some(0))]);
    states, steps := Extend(states, steps, s1, Lock(0, 0), s2);
    r := s0.(slots := [x.(refs := multiset{0}, busy := Some(0), valid := true)]);
    states, steps := Extend(states, steps, s2, Read(0, 0), r);
  }

  /** It takes the last link away and unlocks. */
  lemma Unlinks(d: Dinode) returns (states: seq<State>, steps: seq<Step>, r: State)
    requires d.kind != 0 && d.nlink > 0
    ensures SafeRun(states, steps) && states[0].disk == [d] && states[|steps|] == r
    ensures r == State([Slot(0, multiset{0}, None, true, false, None, d.(nlink := 0))], [Idle], [d.(nlink := 0)], map[])
  {
    var d', s3 := d.(nlink := 0), State([], [], [], map[]);
    states, steps, s3 := Opened(d);
    var s4 := s3.(slots := [s3.slots[0].(copy := d', dirty := true)]);
    states, steps := Extend(states, steps, s3, Change(0, 0, d'), s4);
    var s5 := s3.(slots := [s3.slots[0].(copy := d')], disk := [d']);
    states, steps := Extend(states, steps, s4, Update(0, 0), s5);
    r := s5.(slots := [s5.slots[0].(busy := None)]);
    states, steps := Extend(states, steps, s5, Unlock(0, 0), r);
  }

  lemma ExtendRun(states: seq<State>, steps: seq<Step>, st: State, step: Step, r: State)
    returns (ss: seq<State>, ts: seq<Step>)
    requires Run(states, steps) && st == states[|steps|] && Follows(st, step, r)
    ensures Run(ss, ts) && ss[0] == states[0] && ss[|ts|] == r
  {
    ss, ts := states + [r], steps + [step];
    forall i: nat | i < |ts| ensures Follows(ss[i], ts[i], ss[i + 1]) {
      if i < |steps| { assert ss[i] == states[i] && ss[i + 1] == states[i + 1] && ts[i] == steps[i]; }
    }
  }

  /** The last user gives the inode up: it is free on disk and the cache is empty. */
  lemma GivenUp(d: Dinode) returns (states: seq<State>, steps: seq<Step>, r: State)
    requires d.kind != 0 && d.nlink > 0
    ensures SafeRun(states, steps) && states[0].disk == [d] && states[|steps|] == r
    ensures |r.slots| == 1 && r.slots[0].refs == multiset{} && r.slots[0].busy == None && r.phase == [Idle]
    ensures |r.disk| == 1 && r.disk[0].kind == 0 && r.pending == map[]
  {
    var s6, s8 := State([], [], [], map[]), State([], [], [], map[]);
    states, steps, s6 := Unlinks(d);
    var s7 := Do(s6, PutStart(0, 0));
    states, steps := Extend(states, steps, s6, PutStart(0, 0), s7);
    states, steps, s8 := Frees(states, steps, s7, 0, 0);
    r := Do(s8, PutEnd(0, 0));
    states, steps := Extend(states, steps, s8, PutEnd(0, 0), r);
  }

  /**
   The panic is reached: a process removes a directory and gives it up, and another one, whose working
   directory was inside it and is removed too, follows the ".." that still names it.
   */
  lemma StaleEntryPanics(d: Dinode) returns (states: seq<State>, steps: seq<Step>)
    requires d.kind != 0 && d.nlink > 0
    ensures Run(states, steps) && states[0].disk == [d] && TypePanic(states[|steps|], 1, 0)
  {
    var s9 := State([], [], [], map[]);
    states, steps, s9 := GivenUp(d);
    var s10 := Do(s9, Lookup(1, 0, 0));
    states, steps := ExtendRun(states, steps, s9, Lookup(1, 0, 0), s10);
    states, steps := ExtendRun(states, steps, s10, Lock(1, 0), Do(s10, Lock(1, 0)));
  }

  // ----- a crash -----

  /** No file-system operation is under way: the disk is what a commit at this point makes permanent. */
  ghost predicate Quiet(st: State) {
    && st.pending == map[] && |st.phase| == |st.slots|
    && forall s: nat :: s < |st.slots| ==> st.phase[s] == Idle && !st.slots[s].dirty
  }

  /** The machine after a crash that undoes everything since the commit in `st`. */
  ghost predicate Rebooted(st: State, r: State) {
    Quiet(st) && Start(r) && r.disk == st.disk
  }

  /** A slot in use whose inode has lost its links. */
  ghost predicate OpenUnlinked(st: State, s: nat) {
    s < |st.slots| && st.slots[s].refs != multiset{} && Unlinked(st.disk, st.slots[s].inum)
  }

  /**
   A reboot leaves an inode in use that nobody will free, and that was none before, if and only if some
   inode without links was open at the last commit.
   */
  lemma RebootOrphansIff(states: seq<State>, steps: seq<Step>, m: nat, r: State)
    requires Run(states, steps) && m < |states| && Rebooted(states[m], r)
    ensures (exists i: nat :: Unlinked(r.disk, i) && !Unlinked(states[0].disk, i)) <==>
      exists s: nat :: OpenUnlinked(states[m], s) && !Unlinked(states[0].disk, states[m].slots[s].inum)
  {
    RunInv(states, steps, m);
    var st := states[m];
    if i: nat :| Unlinked(r.disk, i) && !Unlinked(states[0].disk, i) {
      assert Accounted(st, i, Orphans(states[0].disk));
      var s: nat :| Cached(st, s, i);
      assert OpenUnlinked(st, s);
    }
    if s: nat :| OpenUnlinked(st, s) && !Unlinked(states[0].disk, st.slots[s].inum) {
      assert Unlinked(r.disk, st.slots[s].inum);
    }
  }

  /** And that happens: the last link of an open file goes, that is committed, and the machine goes down. */
  lemma OrphanAfterCrash(d: Dinode) returns (states: seq<State>, steps: seq<Step>, r: State)
    requires d.kind != 0 && d.nlink > 0
    ensures SafeRun(states, steps) && states[0].disk == [d] && Rebooted(states[|steps|], r) && Unlinked(r.disk, 0)
  {
    var s6 := State([], [], [], map[]);
    states, steps, s6 := Unlinks(d);
    r := State([], [], s6.disk, map[]);
  }

  // ----- and after it -----

  /** Every lookup finds an inode with links. */
  ghost predicate Linked(st: State, step: Step) {
    step.Lookup? ==> step.inum < |st.disk| && st.disk[step.inum].kind != 0 && st.disk[step.inum].nlink > 0
  }

  ghost predicate LinkedRun(states: seq<State>, steps: seq<Step>) {
    Run(states, steps) && forall i: nat {:trigger steps[i]} :: i < |steps| ==> Linked(states[i], steps[i])
  }

  /** Nobody has the inode and nobody is about to get it. */
  ghost predicate Forgotten(st: State, i: nat) {
    (forall s: nat :: !Cached(st, s, i)) && !Pends(st, i)
  }

  lemma ForgottenStep(st: State, step: Step, i: nat, d: Dinode)
    requires SlotsOk(st) && OneCall(st) && Enabled(st, step) && Linked(st, step)
    requires Forgotten(st, i) && i < |st.disk| && st.disk[i] == d && d.kind != 0 && d.nlink == 0
    ensures var r := Do(st, step); Forgotten(r, i) && |r.disk| == |st.disk| && r.disk[i] == d
  {
    var r := Do(st, step);
    if step.Alloc? {
      PendsMore(st, r, step.p, step.inum, i);
    } else if step.GetAllocated? {
      assert step.p in st.pending;
      forall q: Pid | q in r.pending ensures r.pending[q] != i { assert q in st.pending; }
    } else if !step.Lookup? {
      LocalStep(st, step);
      assert Cached(st, step.s, st.slots[step.s].inum);
    }
    forall s: nat ensures !Cached(r, s, i) { assert !Cached(st, s, i); }
  }

  lemma LocalStep(st: State, step: Step)
    requires SlotsOk(st) && Enabled(st, step) && !step.Lookup? && !step.Alloc? && !step.GetAllocated?
    ensures Local(st, Do(st, step), step.s)
  {
    assert SlotOk(st.slots[step.s], st.phase[step.s], st.disk);
  }

  /** From then on it stays as it is: no step of any run touches it, so it is never freed. */
  lemma {:induction false} OrphanStays(states: seq<State>, steps: seq<Step>, n: nat, i: nat)
    requires LinkedRun(states, steps) && n < |states| && Unlinked(states[0].disk, i)
    ensures i < |states[n].disk| && states[n].disk[i] == states[0].disk[i] && Forgotten(states[n], i)
    decreases n
  {
    if n > 0 {
      OrphanStays(states, steps, n - 1, i);
      RunInv(states, steps, n - 1);
      assert Follows(states[n - 1], steps[n - 1], states[n]);
      ForgottenStep(states[n - 1], steps[n - 1], i, states[0].disk[i]);
    }
  }

  /** One life of the machine: a run, and the commit whose disk the next one starts from. */
  datatype Life = Life(states: seq<State>, steps: seq<Step>, commit: nat)

  ghost predicate Lives(ls: seq<Life>) {
    && (forall k: nat :: k < |ls| ==> LinkedRun(ls[k].states, ls[k].steps) && ls[k].commit < |ls[k].states|)
    && forall k: nat :: k + 1 < |ls| ==> Rebooted(ls[k].states[ls[k].commit], ls[k + 1].states[0])
  }

  /** Nor does any number of further crashes help. */
  lemma {:induction false} OrphanForever(ls: seq<Life>, k: nat, n: nat, i: nat)
    requires Lives(ls) && k < |ls| && n < |ls[k].states| && Unlinked(ls[0].states[0].disk, i)
    ensures i < |ls[k].states[n].disk| && ls[k].states[n].disk[i] == ls[0].states[0].disk[i]
    ensures Forgotten(ls[k].states[n], i)
    decreases k
  {
    assert LinkedRun(ls[k].states, ls[k].steps);
    if k > 0 {
      OrphanForever(ls, k - 1, ls[k - 1].commit, i);
      assert Rebooted(ls[k - 1].states[ls[k - 1].commit], ls[k - 1 + 1].states[0]);
    }
    OrphanStays(ls[k].states, ls[k].steps, n, i);
  }

  // ----- the scan of iget -----

  predicate InUse(x: Slot, inum: nat) { x.refs != multiset{} && x.inum == inum }

  class ICache {
    var slots: seq<Slot>

    /** iget: the slot in use for the inode, or else the first empty one; a panic if there is neither. */
    method IGet(p: Pid, inum: nat) returns (r: Option<nat>)
      modifies this
      ensures r == None <==> forall t: nat :: t < |old(slots)| ==>
        old(slots)[t].refs != multiset{} && old(slots)[t].inum != inum
      ensures r == None ==> slots == old(slots)
      ensures r != None ==>
        && r.value < |old(slots)| && slots == old(slots)[r.value := Got(old(slots)[r.value], p, inum, None)]
        && (InUse(old(slots)[r.value], inum) ||
            ((forall t: nat :: t < |old(slots)| ==> !InUse(old(slots)[t], inum))
             && old(slots)[r.value].refs == multiset{}
             && forall t: nat :: t < r.value ==> old(slots)[t].refs != multiset{}))
    {
      var empty: Option<nat> := None;
      var ip := 0;
      while ip < |slots|
        invariant ip <= |slots| && slots == old(slots)
        invariant forall t: nat :: t < ip ==> !InUse(slots[t], inum)
        invariant empty == None ==> forall t: nat :: t < ip ==> slots[t].refs != multiset{}
        invariant empty != None ==>
          empty.value < ip && slots[empty.value].refs == multiset{} && forall t: nat :: t < empty.value ==>
            slots[t].refs != multiset{}
      {
        if slots[ip].refs != multiset{} && slots[ip].inum == inum {
          slots := slots[ip := slots[ip].(refs := slots[ip].refs + multiset{p})];
          return Some(ip);
        }
        if empty == None && slots[ip].refs == multiset{} { empty := Some(ip); }
        ip := ip + 1;
      }
      if empty == None { return None; }
      var x := slots[empty.value];
      slots := slots[empty.value := x.(inum := inum, refs := multiset{p}, busy := None, valid := false, dirty := false,
                                       maker := None)];
      r := empty;
    }
  }

  /** The slot iget returns is one the Lookup step allows. */
  lemma IGetIsLookup(st: State, p: Pid, inum: nat, s: nat)
    requires s < |st.slots| == |st.phase| && inum < |st.disk| && Ready(st, p)
    requires InUse(st.slots[s], inum)
      || ((forall t: nat :: t < |st.slots| ==> !InUse(st.slots[t], inum)) && st.slots[s].refs == multiset{})
    ensures Enabled(st, Lookup(p, inum, s))
      && Do(st, Lookup(p, inum, s)).slots == st.slots[s := Got(st.slots[s], p, inum, None)]
  {
    forall t: nat ensures Cached(st, t, inum) <==> t < |st.slots| && InUse(st.slots[t], inum) {}
  }
}
