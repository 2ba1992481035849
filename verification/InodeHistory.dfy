/**
 What becomes of references, changes and new inodes over whole runs of the inode cache: a process has as many
 references as it took and did not give back, what it writes under the lock is what goes to disk, a freed inode
 has lost its data, and a new one reaches its maker as ialloc made it.
 */
module InodeHistory {
  import opened InodeCache
  import opened Options

  // ----- references -----

  predicate TakesRef(step: Step, p: Pid, s: nat) {
    (step.Lookup? || step.GetAllocated? || step.Dup?) && step.p == p && step.s == s
  }

  predicate GivesRef(step: Step, p: Pid, s: nat) {
    (step.PutDrop? || step.PutEnd?) && step.p == p && step.s == s
  }

  /** References p took on slot `s` in the first `n` steps, less those it gave back. */
  function Balance(steps: seq<Step>, n: nat, p: Pid, s: nat): int {
    if n == 0 || n > |steps| then 0
    else
      Balance(steps, n - 1, p, s)
      + (if TakesRef(steps[n - 1], p, s) then 1 else 0) - if GivesRef(steps[n - 1], p, s) then 1 else 0
  }

  lemma StepRefs(st: State, step: Step, r: State, p: Pid, s: nat)
    requires SlotsOk(st) && Follows(st, step, r) && s < |st.slots|
    ensures |r.slots| == |st.slots|
    ensures r.slots[s].refs[p] ==
      st.slots[s].refs[p] + (if TakesRef(step, p, s) then 1 else 0) - if GivesRef(step, p, s) then 1 else 0
  {
    if step.Alloc? || step.s != s {
    } else if step.PutDrop? || step.PutEnd? {
      assert SlotOk(st.slots[s], st.phase[s], st.disk);
      DropsOne(st.slots[s].refs, step.p, p);
    } else if step.Lookup? {
      GotRefs(st.slots[s], step.p, step.inum, None, p);
    } else if step.GetAllocated? {
      GotRefs(st.slots[s], step.p, st.pending[step.p], Some(step.p), p);
    }
  }

  lemma DropsOne(refs: multiset<Pid>, q: Pid, p: Pid)
    requires q in refs
    ensures (refs - multiset{q})[p] == refs[p] - if p == q then 1 else 0
  {
  }

  lemma GotRefs(x: Slot, q: Pid, inum: nat, maker: Option<Pid>, p: Pid)
    ensures Got(x, q, inum, maker).refs[p] == x.refs[p] + if p == q then 1 else 0
  {
  }

  /** A process has exactly the references it took and has not given back. */
  lemma {:induction false} RefsAreCounted(states: seq<State>, steps: seq<Step>, n: nat, p: Pid, s: nat)
    requires Run(states, steps) && n < |states| && s < |states[0].slots|
    ensures |states[n].slots| == |states[0].slots| && states[n].slots[s].refs[p] == Balance(steps, n, p, s)
    decreases n
  {
    if n > 0 {
      RefsAreCounted(states, steps, n - 1, p, s);
      RunSlots(states, steps, n - 1, n);
      StepRefs(states[n - 1], steps[n - 1], states[n], p, s);
    }
  }

  lemma RunSlots(states: seq<State>, steps: seq<Step>, m: nat, n: nat)
    requires Run(states, steps) && n == m + 1 < |states|
    ensures SlotsOk(states[m]) && OneCall(states[m]) && Follows(states[m], steps[m], states[n])
  {
    RunInv(states, steps, m);
    assert Follows(states[m], steps[m], states[n]);
  }

  // ----- changes -----

  /** Process p has inode `i` locked in slot `s`, with `d` in memory. */
  ghost predicate Edits(st: State, p: Pid, s: nat, i: nat, d: Dinode) {
    && Holds(st, p, s) && s < |st.phase| && st.phase[s] == Idle && i < |st.disk|
    && st.slots[s].inum == i && st.slots[s].valid && st.slots[s].copy == d
  }

  predicate EndsEdit(step: Step, p: Pid, s: nat) {
    (step.Change? || step.Unlock?) && step.p == p && step.s == s
  }

  lemma EditsStep(st: State, step: Step, r: State, p: Pid, s: nat, i: nat, d: Dinode)
    requires SlotsOk(st) && Follows(st, step, r) && Edits(st, p, s, i, d) && !EndsEdit(step, p, s)
    ensures Edits(r, p, s, i, d)
    ensures step == Update(p, s) ==> r.disk[i] == d
  {
    assert SlotOk(st.slots[s], st.phase[s], st.disk);
  }

  /** While p holds the lock nobody else changes its inode, and iupdate writes what p made of it. */
  lemma {:induction false} ChangeReachesDisk(
      states: seq<State>, steps: seq<Step>, a: nat, n: nat, p: Pid, s: nat, d: Dinode) returns (i: nat)
    requires Run(states, steps) && a < n < |states| && steps[a] == Change(p, s, d)
    requires forall k :: a < k < n ==> !EndsEdit(steps[k], p, s)
    ensures s < |states[a].slots| && i == states[a].slots[s].inum && Edits(states[n], p, s, i, d)
    ensures steps[n - 1] == Update(p, s) ==> states[n].disk[i] == d
    decreases n
  {
    RunSlots(states, steps, a, a + 1);
    if n == a + 1 {
      i := states[a].slots[s].inum;
      assert SlotOk(states[a].slots[s], states[a].phase[s], states[a].disk);
    } else {
      i := ChangeReachesDisk(states, steps, a, n - 1, p, s, d);
      RunSlots(states, steps, n - 1, n);
      EditsStep(states[n - 1], steps[n - 1], states[n], p, s, i, d);
    }
  }

  // ----- freed inodes -----

  ghost predicate FreeIsEmpty(disk: seq<Dinode>) {
    forall i: nat :: i < |disk| && disk[i].kind == 0 ==> disk[i].data == 0
  }

  ghost predicate Emptied(st: State) {
    && FreeIsEmpty(st.disk) && |st.phase| == |st.slots|
    && forall s: nat :: s < |st.slots| && st.phase[s].Truncated? ==> st.slots[s].copy.data == 0
  }

  lemma EmptiedStep(st: State, step: Step, r: State)
    requires SlotsOk(st) && Emptied(st) && Follows(st, step, r)
    ensures Emptied(r)
  {
    if !step.Alloc? && !step.GetAllocated? {
      assert SlotOk(st.slots[step.s], st.phase[step.s], st.disk);
    }
  }

  /** iput truncates an inode before it frees it: no free inode has data, if none had at the start. */
  lemma {:induction false} FreedAreEmpty(states: seq<State>, steps: seq<Step>, n: nat)
    requires Run(states, steps) && n < |states| && FreeIsEmpty(states[0].disk)
    ensures Emptied(states[n])
    decreases n
  {
    if n > 0 {
      FreedAreEmpty(states, steps, n - 1);
      RunSlots(states, steps, n - 1, n);
      EmptiedStep(states[n - 1], steps[n - 1], states[n]);
    }
  }

  // ----- new inodes -----

  /** ialloc has marked inode `i` for p, which has not called iget yet; the slot of the old one is being given up. */
  ghost predicate Marked(st: State, p: Pid, i: nat, d: Dinode) {
    && i < |st.disk| && st.disk[i] == d && |st.phase| == |st.slots| && p in st.pending && st.pending[p] == i
    && (forall q: Pid :: q in st.pending && st.pending[q] == i ==> q == p)
    && forall s: nat :: Cached(st, s, i) ==> Vacated(st, s)
  }

  /** p has it in slot `s`, not locked yet, and nobody else has, but for a process done freeing the old one. */
  ghost predicate Made(st: State, p: Pid, i: nat, d: Dinode, s: nat) {
    && i < |st.disk| && st.disk[i] == d && |st.phase| == |st.slots| && Cached(st, s, i) && !Pends(st, i)
    && p in st.slots[s].refs && st.slots[s].maker == Some(p) && !Holds(st, p, s)
    && (st.phase[s] == Idle ==> !st.slots[s].valid)
    && (st.phase[s].Freed? ==> st.phase[s].p != p && st.slots[s].refs[st.phase[s].p] == 1)
    && forall q: Pid :: q in st.slots[s].refs ==> q == p || st.phase[s] == Freed(q)
  }

  lemma MarkedLocal(st: State, step: Step, r: State, p: Pid, i: nat, d: Dinode)
    requires SlotsOk(st) && OneCall(st) && Follows(st, step, r) && Marked(st, p, i, d)
    requires !step.Lookup? && !step.Alloc? && !step.GetAllocated?
    ensures Marked(r, p, i, d)
  {
    LocalStep(st, step);
    assert SlotOk(st.slots[step.s], st.phase[step.s], st.disk);
    forall s: nat | Cached(r, s, i) ensures Vacated(r, s) { assert Cached(st, s, i); }
    assert st.slots[step.s].inum == i ==> Cached(st, step.s, i);
  }

  lemma MarkedStep(st: State, step: Step, r: State, p: Pid, i: nat, d: Dinode)
    requires SlotsOk(st) && OneCall(st) && Follows(st, step, r) && Linked(st, step) && Marked(st, p, i, d)
    requires d.kind != 0 && d.nlink == 0
    ensures if step.GetAllocated? && step.p == p then Made(r, p, i, d, step.s) else Marked(r, p, i, d)
  {
    if step.GetAllocated? && step.p == p {
      assert SlotOk(st.slots[step.s], st.phase[step.s], st.disk);
    } else if step.Lookup? || step.Alloc? || step.GetAllocated? {
      forall s: nat | Cached(r, s, i) ensures Vacated(r, s) { assert Cached(st, s, i); }
    } else {
      MarkedLocal(st, step, r, p, i, d);
    }
  }

  lemma MadeElsewhere(st: State, step: Step, r: State, p: Pid, i: nat, d: Dinode, s: nat)
    requires SlotsOk(st) && Follows(st, step, r) && Made(st, p, i, d, s)
    requires !step.Lookup? && !step.Alloc? && !step.GetAllocated? && step.s != s
    ensures Made(r, p, i, d, s)
  {
    LocalStep(st, step);
    assert !Cached(st, step.s, i);
  }

  /** At the slot itself its maker can do no more than take another reference, the other one only leave. */
  lemma MadeHere(st: State, step: Step, r: State, p: Pid, i: nat, d: Dinode, s: nat)
    requires SlotsOk(st) && Follows(st, step, r) && Made(st, p, i, d, s)
    requires !step.Lookup? && !step.Alloc? && !step.GetAllocated? && step.s == s && step != Lock(p, s)
    ensures Made(r, p, i, d, s)
  {
    assert SlotOk(st.slots[s], st.phase[s], st.disk);
    assert step.p in st.slots[s].refs;
    assert step == Dup(p, s) || step == PutEnd(step.p, s);
    forall q: Pid | q in r.slots[s].refs ensures q == p || r.phase[s] == Freed(q) {
      assert q in st.slots[s].refs;
    }
  }

  lemma MadeStep(st: State, step: Step, r: State, p: Pid, i: nat, d: Dinode, s: nat)
    requires SlotsOk(st) && OneCall(st) && Follows(st, step, r) && Linked(st, step) && Made(st, p, i, d, s)
    requires d.kind != 0 && d.nlink == 0 && step != Lock(p, s)
    ensures Made(r, p, i, d, s)
  {
    if step.Alloc? || step.GetAllocated? || step.Lookup? {
      forall q: Pid | q in r.pending ensures r.pending[q] != i { assert q in st.pending || step.Alloc?; }
    } else if step.s == s {
      MadeHere(st, step, r, p, i, d, s);
    } else {
      MadeElsewhere(st, step, r, p, i, d, s);
    }
  }

  predicate LocksNew(st: State, step: Step, p: Pid, i: nat) {
    step.Lock? && step.p == p && step.s < |st.slots| && st.slots[step.s].inum == i
  }

  /** With lookups of linked inodes only, every lookup is safe. */
  lemma {:induction false} LinkedLive(states: seq<State>, steps: seq<Step>, n: nat)
    requires LinkedRun(states, steps) && n < |states|
    ensures Live(states[n])
    decreases n
  {
    if n == 0 {
      StartLive(states[0]);
    } else {
      LinkedLive(states, steps, n - 1);
      RunInv(states, steps, n - 1);
      var st, step, lost := states[n - 1], steps[n - 1], Orphans(states[0].disk);
      assert Follows(st, step, states[n]) && Linked(st, step);
      if step.Lookup? { LinkedIsAlive(st, step.inum, lost); }
      StepLive(st, step, lost);
    }
  }

  lemma StartsMarked(st: State, r: State, p: Pid, i: nat, kind: nat)
    requires Live(st) && OneCall(st) && Follows(st, Alloc(p, i, kind), r)
    ensures Marked(r, p, i, Dinode(kind, 0, 0))
  {
    forall q: Pid | q in st.pending ensures st.pending[q] != i { assert PendingOk(st, q); }
    forall s: nat | Cached(r, s, i) ensures Vacated(r, s) { assert SlotLive(st, s); }
  }

  lemma NewStep(st: State, step: Step, r: State, p: Pid, i: nat, d: Dinode, s: nat) returns (s': nat)
    requires SlotsOk(st) && OneCall(st) && Follows(st, step, r) && Linked(st, step) && !LocksNew(st, step, p, i)
    requires (Marked(st, p, i, d) || Made(st, p, i, d, s)) && d.kind != 0 && d.nlink == 0
    ensures Marked(r, p, i, d) || Made(r, p, i, d, s')
  {
    s' := s;
    if Marked(st, p, i, d) {
      MarkedStep(st, step, r, p, i, d);
      if step.GetAllocated? { s' := step.s; }
    } else {
      MadeStep(st, step, r, p, i, d, s);
    }
  }

  lemma NewStarts(states: seq<State>, steps: seq<Step>, a: nat, n: nat, p: Pid, i: nat, kind: nat)
    requires LinkedRun(states, steps) && n == a + 1 < |states| && steps[a] == Alloc(p, i, kind)
    ensures Marked(states[n], p, i, Dinode(kind, 0, 0)) && kind != 0
  {
    RunSlots(states, steps, a, n);
    LinkedLive(states, steps, a);
    StartsMarked(states[a], states[n], p, i, kind);
  }

  lemma NewNext(states: seq<State>, steps: seq<Step>, m: nat, n: nat, p: Pid, i: nat, d: Dinode, s: nat)
    returns (s': nat)
    requires LinkedRun(states, steps) && n == m + 1 < |states| && !LocksNew(states[m], steps[m], p, i)
    requires (Marked(states[m], p, i, d) || Made(states[m], p, i, d, s)) && d.kind != 0 && d.nlink == 0
    ensures Marked(states[n], p, i, d) || Made(states[n], p, i, d, s')
  {
    RunSlots(states, steps, m, n);
    assert Linked(states[m], steps[m]);
    s' := NewStep(states[m], steps[m], states[n], p, i, d, s);
  }

  /** Until its maker locks it, a new inode is as ialloc made it, and nobody else gets at it. */
  lemma {:induction false} NewIsUntouched(
      states: seq<State>, steps: seq<Step>, a: nat, n: nat, p: Pid, i: nat, d: Dinode) returns (s: nat)
    requires LinkedRun(states, steps) && a < n < |states| && steps[a] == Alloc(p, i, d.kind)
    requires d == Dinode(d.kind, 0, 0) && forall k :: a < k < n ==> !LocksNew(states[k], steps[k], p, i)
    ensures d.kind != 0 && (Marked(states[n], p, i, d) || Made(states[n], p, i, d, s))
    decreases n
  {
    s := 0;
    if n == a + 1 {
      NewStarts(states, steps, a, n, p, i, d.kind);
    } else {
      var m := n - 1;
      assert !LocksNew(states[m], steps[m], p, i);
      s := NewIsUntouched(states, steps, a, m, p, i, d);
      s := NewNext(states, steps, m, n, p, i, d, s);
    }
  }

  /** So what the maker reads when it has the lock is the inode ialloc has made. */
  lemma NewReachesMaker(states: seq<State>, steps: seq<Step>, a: nat, n: nat, p: Pid, i: nat, kind: nat, s: nat)
    requires LinkedRun(states, steps) && a < n < |steps| && steps[a] == Alloc(p, i, kind) && steps[n] == Lock(p, s)
    requires LocksNew(states[n], steps[n], p, i) && forall k :: a < k < n ==> !LocksNew(states[k], steps[k], p, i)
    ensures |states[n + 1].phase| == |states[n + 1].slots| && Enabled(states[n + 1], Read(p, s))
    ensures Do(states[n + 1], Read(p, s)).slots[s].copy == Dinode(kind, 0, 0) && states[n + 1].slots[s].maker == None
  {
    var t := NewIsUntouched(states, steps, a, n, p, i, Dinode(kind, 0, 0));
    RunSlots(states, steps, n, n + 1);
    assert Cached(states[n], s, i);
    assert SlotOk(states[n].slots[s], states[n].phase[s], states[n].disk);
  }
}
