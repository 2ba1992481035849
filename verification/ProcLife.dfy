/**
 The life of processes over whole runs: parents are alive, every zombie is collected once, and its
 kernel stack and page directory are released once.
 */
module ProcLife {
  import opened ProcTable
  import opened Options

  /** `stacks` and `dirs` say which slot each allocated page belongs to. */
  datatype Sys = Sys(t: Table, nextpid: nat, init: nat, stacks: map<nat, nat>, dirs: map<nat, nat>)

  datatype Step =
    | AllocProc(me: nat, i: nat)
    | StackOk(me: nat, page: nat)
    | StackFail(me: nat)
    | CopyOk(me: nat, dir: nat)      // copyuvm succeeds; parent set
    | CopyFail(me: nat)
    | Publish(me: nat)               // np->state = RUNNABLE
    | Dispatch(me: nat)
    | Yield(me: nat)
    | SleepOn(me: nat, addr: nat)
    | Wakeup(addr: nat)
    | ExitStep(me: nat)
    | WaitReap(me: nat, i: nat)
    | WaitSleep(me: nat)
    | KillStep(i: nat)

  predicate Running(s: Sys, me: nat) {
    me < |s.t| && s.t[me].state.RUNNING?
  }

  /** `me` is in fork, filling a slot. */
  predicate Making(s: Sys, me: nat) {
    Running(s, me) && s.t[me].making.Some? && s.t[me].making.value < |s.t|
  }

  function Child(s: Sys, me: nat): nat
    requires Making(s, me)
  {
    s.t[me].making.value
  }

  ghost predicate Enabled(s: Sys, step: Step) {
    match step
    case AllocProc(me, i) => Running(s, me) && s.t[me].making.None? && i < |s.t| && s.t[i].state.UNUSED?
    case StackOk(me, page) => Making(s, me) && s.t[Child(s, me)].stack.None? && page !in s.stacks
    case StackFail(me) => Making(s, me) && s.t[Child(s, me)].stack.None?
    case CopyOk(me, dir) => Making(s, me) && s.t[Child(s, me)].stack.Some? && s.t[Child(s, me)].parent.None?
      && dir !in s.dirs
    case CopyFail(me) => Making(s, me) && s.t[Child(s, me)].stack.Some? && s.t[Child(s, me)].parent.None?
    case Publish(me) => Making(s, me) && s.t[Child(s, me)].parent == Some(me)
    case Dispatch(me) => me < |s.t| && s.t[me].state.RUNNABLE?
    case Yield(me) => Running(s, me)
    case SleepOn(me, addr) => Running(s, me)
    case Wakeup(addr) => true
    case ExitStep(me) => Running(s, me) && s.t[me].making.None? && me != s.init
    case WaitReap(me, i) => Running(s, me) && s.t[me].making.None? && i < |s.t| && ZombieChild(s.t[i], me)
    case WaitSleep(me) =>
      && Running(s, me) && s.t[me].making.None? && !s.t[me].killed
      && (forall i :: 0 <= i < |s.t| ==> !ZombieChild(s.t[i], me))
    case KillStep(i) => i < |s.t|
  }

  function Without(m: map<nat, nat>, k: Option<nat>): map<nat, nat> {
    if k.Some? then m - {k.value} else m
  }

  ghost function Do(s: Sys, step: Step): Sys
    requires Enabled(s, step)
  {
    match step
    case AllocProc(me, i) =>
      s.(t := s.t[i := s.t[i].(state := EMBRYO, pid := s.nextpid)][me := s.t[me].(making := Some(i))],
         nextpid := s.nextpid + 1)
    case StackOk(me, page) =>
      var c := Child(s, me);
      s.(t := s.t[c := s.t[c].(stack := Some(page))], stacks := s.stacks[page := c])
    case StackFail(me) =>
      var c := Child(s, me);
      s.(t := s.t[c := s.t[c].(state := UNUSED)][me := s.t[me].(making := None)])
    case CopyOk(me, dir) =>
      var c := Child(s, me);
      s.(t := s.t[c := s.t[c].(pgdir := Some(dir), parent := Some(me))], dirs := s.dirs[dir := c])
    case CopyFail(me) =>
      var c := Child(s, me);
      s.(t := s.t[c := s.t[c].(state := UNUSED, stack := None)][me := s.t[me].(making := None)],
         stacks := Without(s.stacks, s.t[c].stack))
    case Publish(me) =>
      var c := Child(s, me);
      s.(t := s.t[c := s.t[c].(state := RUNNABLE)][me := s.t[me].(making := None)])
    case Dispatch(me) => s.(t := s.t[me := s.t[me].(state := RUNNING)])
    case Yield(me) => s.(t := s.t[me := s.t[me].(state := RUNNABLE)])
    case SleepOn(me, addr) => s.(t := s.t[me := s.t[me].(state := SLEEPING, chan := Other(addr))])
    case Wakeup(addr) => s.(t := Woken(s.t, Other(addr)))
    case ExitStep(me) => s.(t := Exited(s.t, me, s.init))
    case WaitReap(me, i) =>
      s.(t := s.t[i := Reaped(s.t[i])], stacks := Without(s.stacks, s.t[i].stack),
         dirs := Without(s.dirs, s.t[i].pgdir))
    case WaitSleep(me) => s.(t := s.t[me := s.t[me].(state := SLEEPING, chan := OfProc(me))])
    case KillStep(i) => s.(t := s.t[i := Killed(s.t[i])])
  }

  // ----- invariant -----

  ghost predicate ParentOk(s: Sys, p: Proc) {
    p.parent.Some? && p.parent.value < |s.t| && Live(s.t[p.parent.value])
  }

  /** A slot has a page directory from the end of copyuvm until it is collected. */
  predicate HasDir(p: Proc) {
    Forked(p) || (p.state.EMBRYO? && p.parent.Some?)
  }

  ghost predicate SlotOk(s: Sys, i: nat)
    requires i < |s.t| && s.init < |s.t|
  {
    var p := s.t[i];
    && (p.state.UNUSED? ==> p.parent.None? && p.stack.None?)
    && (!p.state.UNUSED? ==> p.pid < s.nextpid && (i != s.init ==> s.t[s.init].pid < p.pid))
    && (p.parent.Some? ==> ParentOk(s, p) && p.stack.Some? && p.pgdir.Some?)
    && (p.parent.Some? && i != s.init ==> s.t[p.parent.value].pid < p.pid)
    && (p.state.EMBRYO? && p.parent.Some? ==> s.t[p.parent.value].making == Some(i))
    && (Forked(p) ==> p.parent.Some?)
    && (p.making.Some? ==>
      Live(p) && p.making.value < |s.t| && s.t[p.making.value].state.EMBRYO? && p.pid < s.t[p.making.value].pid)
  }

  /** Two processes never fill the same slot. */
  ghost predicate MakersDiffer(s: Sys) {
    forall i, j :: 0 <= i < j < |s.t| && s.t[i].making.Some? ==> s.t[i].making != s.t[j].making
  }

  ghost predicate InitOk(s: Sys) {
    s.init < |s.t| && Live(s.t[s.init]) && s.t[s.init].parent == Some(s.init)
  }

  /** A process asleep in wait has no zombie child. */
  ghost predicate WaiterOk(s: Sys, q: nat)
    requires q < |s.t|
  {
    s.t[q].state.SLEEPING? && s.t[q].chan.OfProc? ==>
      && s.t[q].chan == OfProc(q)
      && forall i :: 0 <= i < |s.t| ==> !ZombieChild(s.t[i], q)
  }

  ghost predicate StackOwned(s: Sys, i: nat)
    requires i < |s.t|
  {
    s.t[i].stack.Some? ==> s.t[i].stack.value in s.stacks && s.stacks[s.t[i].stack.value] == i
  }

  ghost predicate DirOwned(s: Sys, i: nat)
    requires i < |s.t|
  {
    HasDir(s.t[i]) ==> s.t[i].pgdir.Some? && s.t[i].pgdir.value in s.dirs && s.dirs[s.t[i].pgdir.value] == i
  }

  /** Stacks and page directories in use are exactly those of the slots. */
  ghost predicate PagesOk(s: Sys) {
    && (forall i: nat :: i < |s.t| ==> StackOwned(s, i) && DirOwned(s, i))
    && (forall k :: k in s.stacks ==> s.stacks[k] < |s.t| && s.t[s.stacks[k]].stack == Some(k))
    && (forall k :: k in s.dirs ==> s.dirs[k] < |s.t| && HasDir(s.t[s.dirs[k]]) && s.t[s.dirs[k]].pgdir == Some(k))
  }

  ghost predicate Family(s: Sys) {
    && InitOk(s) && MakersDiffer(s)
    && forall i: nat :: i < |s.t| ==> SlotOk(s, i)
  }

  ghost predicate Waiters(s: Sys) {
    forall q: nat :: q < |s.t| ==> WaiterOk(s, q)
  }

  // ----- each step keeps the family in order -----

  lemma SlotOf(s: Sys, i: nat)
    requires Family(s) && i < |s.t|
    ensures SlotOk(s, i)
  {
  }

  lemma AllocSlot(s: Sys, me: nat, c: nat, r: Sys, i: nat)
    requires Family(s) && Enabled(s, AllocProc(me, c)) && r == Do(s, AllocProc(me, c)) && i < |s.t|
    ensures SlotOk(r, i) && (i != me ==> r.t[i].making != Some(c))
  {
    SlotOf(s, me); SlotOf(s, c); SlotOf(s, i);
  }

  lemma AllocKeeps(s: Sys, me: nat, c: nat)
    requires Family(s) && Enabled(s, AllocProc(me, c))
    ensures Family(Do(s, AllocProc(me, c)))
  {
    var r := Do(s, AllocProc(me, c));
    forall i: nat | i < |r.t| ensures SlotOk(r, i) && (i != me ==> r.t[i].making != Some(c)) {
      AllocSlot(s, me, c, r, i);
    }
    SlotOf(s, me); SlotOf(s, c);
    AllocMakers(s, me, c, r);
  }

  lemma AllocMakers(s: Sys, me: nat, c: nat, r: Sys)
    requires MakersDiffer(s) && |r.t| == |s.t| && me < |s.t|
    requires forall i: nat :: i < |s.t| && i != me ==> r.t[i].making == s.t[i].making && r.t[i].making != Some(c)
    requires r.t[me].making == Some(c)
    ensures MakersDiffer(r)
  {
    forall i: nat, j: nat | i < j < |r.t| && r.t[i].making.Some? ensures r.t[i].making != r.t[j].making {
    }
  }

  lemma StackSlot(s: Sys, step: Step, r: Sys, i: nat)
    requires Family(s) && Enabled(s, step) && (step.StackOk? || step.CopyOk?) && r == Do(s, step) && i < |s.t|
    ensures SlotOk(r, i)
  {
    SlotOf(s, step.me); SlotOf(s, Child(s, step.me)); SlotOf(s, i);
  }

  lemma StackKeeps(s: Sys, step: Step)
    requires Family(s) && Enabled(s, step) && (step.StackOk? || step.CopyOk?)
    ensures Family(Do(s, step))
  {
    var r := Do(s, step);
    SlotOf(s, step.me); SlotOf(s, Child(s, step.me));
    forall i: nat | i < |r.t| ensures SlotOk(r, i) {
      StackSlot(s, step, r, i);
    }
  }

  lemma StackFailKeeps(s: Sys, me: nat)
    requires Family(s) && Enabled(s, StackFail(me))
    ensures Family(Do(s, StackFail(me)))
  {
    SlotOf(s, Child(s, me));
    MakeEnd(s, me, s.t[Child(s, me)].(state := UNUSED), Do(s, StackFail(me)));
  }

  lemma CopyFailKeeps(s: Sys, me: nat)
    requires Family(s) && Enabled(s, CopyFail(me))
    ensures Family(Do(s, CopyFail(me)))
  {
    MakeEnd(s, me, s.t[Child(s, me)].(state := UNUSED, stack := None), Do(s, CopyFail(me)));
  }

  lemma PublishKeeps(s: Sys, me: nat)
    requires Family(s) && Enabled(s, Publish(me))
    ensures Family(Do(s, Publish(me)))
  {
    MakeEnd(s, me, s.t[Child(s, me)].(state := RUNNABLE), Do(s, Publish(me)));
  }

  /** Fork ends: the slot being filled becomes runnable, or unused again. */
  lemma MakeEnd(s: Sys, me: nat, p: Proc, r: Sys)
    requires Family(s) && Making(s, me)
    requires var c := Child(s, me);
      && r.t == s.t[c := p][me := s.t[me].(making := None)] && r.init == s.init && r.nextpid == s.nextpid
      && p.pid == s.t[c].pid && p.parent == s.t[c].parent && p.making == s.t[c].making && p.pgdir == s.t[c].pgdir
      && ((p.state.UNUSED? && p.parent.None? && p.stack.None?) ||
          (p.state.RUNNABLE? && p.parent == Some(me) && p.stack == s.t[c].stack))
    ensures Family(r)
  {
    SlotOf(s, s.init);
    forall i: nat | i < |r.t| ensures SlotOk(r, i) {
      MakeEndSlot(s, me, p, r, i);
    }
  }

  lemma MakeEndSlot(s: Sys, me: nat, p: Proc, r: Sys, i: nat)
    requires Family(s) && Making(s, me) && i < |s.t|
    requires var c := Child(s, me);
      && r.t == s.t[c := p][me := s.t[me].(making := None)] && r.init == s.init && r.nextpid == s.nextpid
      && p.pid == s.t[c].pid && p.parent == s.t[c].parent && p.making == s.t[c].making && p.pgdir == s.t[c].pgdir
      && ((p.state.UNUSED? && p.parent.None? && p.stack.None?) ||
          (p.state.RUNNABLE? && p.parent == Some(me) && p.stack == s.t[c].stack))
    ensures SlotOk(r, i)
  {
    var c := Child(s, me);
    SlotOf(s, me); SlotOf(s, c); SlotOf(s, s.init); SlotOf(s, i);
    if i == c {
      assert s.t[c].making.None?;
    } else if i != me {
      assert i < me || me < i ==> s.t[i].making != Some(c);
    }
  }

  /** Processes only move between sleeping, runnable and running. */
  predicate Shuffled(p: Proc, q: Proc) {
    && q == p.(state := q.state, chan := q.chan, killed := q.killed)
    && (q.state == p.state || (Live(p) && Live(q)))
  }

  lemma ShuffleKeeps(s: Sys, r: Sys)
    requires Family(s) && |r.t| == |s.t| && r.init == s.init && r.nextpid == s.nextpid
    requires forall i :: 0 <= i < |s.t| ==> Shuffled(s.t[i], r.t[i])
    ensures Family(r)
  {
    forall i: nat | i < |r.t| ensures SlotOk(r, i) {
      assert SlotOk(s, i) && Shuffled(s.t[i], r.t[i]) && Shuffled(s.t[s.init], r.t[s.init]);
      if s.t[i].parent.Some? { assert Shuffled(s.t[s.t[i].parent.value], r.t[s.t[i].parent.value]); }
      if s.t[i].making.Some? { assert Shuffled(s.t[s.t[i].making.value], r.t[s.t[i].making.value]); }
    }
    assert Shuffled(s.t[s.init], r.t[s.init]);
  }

  lemma RunStepKeeps(s: Sys, step: Step)
    requires Family(s) && Enabled(s, step)
    requires step.Dispatch? || step.Yield? || step.SleepOn? || step.WaitSleep? || step.KillStep? || step.Wakeup?
    ensures Family(Do(s, step))
  {
    ShuffleKeeps(s, Do(s, step));
  }

  /** A reaped slot is a zombie's: nobody's parent, nobody's work in progress. */
  lemma ReapKeeps(s: Sys, me: nat, c: nat)
    requires Family(s) && Enabled(s, WaitReap(me, c))
    ensures Family(Do(s, WaitReap(me, c)))
  {
    var r := Do(s, WaitReap(me, c));
    SlotOf(s, c);
    forall i: nat | i < |r.t| ensures SlotOk(r, i) {
      SlotOf(s, i);
    }
  }

  /** What exit's critical section leaves in each slot. */
  lemma ExitedAt(t: Table, me: nat, init: nat, i: nat)
    requires me < |t| && i < |t| && t[me].state.RUNNING? && t[me].parent.Some?
    ensures var r := Exited(t, me, init)[i];
      && r.pid == t[i].pid && r.stack == t[i].stack && r.pgdir == t[i].pgdir && r.making == t[i].making
      && r.chan == t[i].chan
      && r.parent == (if ChildOf(t[i], me) then Some(init) else t[i].parent)
      && (i == me ==> r.state.ZOMBIE?)
      && (i != me ==> r.state == t[i].state || (t[i].state.SLEEPING? && r.state.RUNNABLE?))
      && (i != me ==> (Live(r) <==> Live(t[i])))
  {
  }

  lemma ExitKeeps(s: Sys, me: nat)
    requires Family(s) && Enabled(s, ExitStep(me))
    ensures Family(Do(s, ExitStep(me)))
  {
    var r := Do(s, ExitStep(me));
    SlotOf(s, me);
    forall i: nat | i < |r.t| ensures SlotOk(r, i) {
      SlotOf(s, i);
      ExitedAt(s.t, me, s.init, i);
      ExitedAt(s.t, me, s.init, s.init);
      if s.t[i].parent.Some? { ExitedAt(s.t, me, s.init, s.t[i].parent.value); }
      if s.t[i].making.Some? { ExitedAt(s.t, me, s.init, s.t[i].making.value); }
    }
    ExitedAt(s.t, me, s.init, s.init);
    forall i, j | 0 <= i < j < |r.t| && r.t[i].making.Some? ensures r.t[i].making != r.t[j].making {
      ExitedAt(s.t, me, s.init, i);
      ExitedAt(s.t, me, s.init, j);
    }
  }

  lemma FamilyKept(s: Sys, step: Step)
    requires Family(s) && Enabled(s, step)
    ensures Family(Do(s, step))
  {
    match step
    case AllocProc(me, i) => AllocKeeps(s, me, i);
    case StackOk(_, _) => StackKeeps(s, step);
    case CopyOk(_, _) => StackKeeps(s, step);
    case StackFail(me) => StackFailKeeps(s, me);
    case CopyFail(me) => CopyFailKeeps(s, me);
    case Publish(me) => PublishKeeps(s, me);
    case ExitStep(me) => ExitKeeps(s, me);
    case WaitReap(me, i) => ReapKeeps(s, me, i);
    case _ => RunStepKeeps(s, step);
  }

  // ----- nobody sleeps in wait past a zombie child -----

  lemma ExitWaiters(s: Sys, me: nat, q: nat)
    requires Family(s) && Waiters(s) && Enabled(s, ExitStep(me)) && q < |s.t|
    ensures WaiterOk(Do(s, ExitStep(me)), q)
  {
    var r := Do(s, ExitStep(me));
    assert SlotOk(s, me) && WaiterOk(s, q);
    ExitedAt(s.t, me, s.init, q);
    if r.t[q].state.SLEEPING? && r.t[q].chan.OfProc? {
      forall i | 0 <= i < |r.t| ensures !ZombieChild(r.t[i], q) {
        ExitedAt(s.t, me, s.init, i);
        if i != me && ZombieChild(s.t[i], me) {
          ExitWakesInit(s.t, me, s.init, i, q);
        }
        if i == me {
          ExitWakesParent(s.t, me, s.init, q);
        }
      }
    }
  }

  /** A process that leaves a zombie behind wakes init, if it sleeps in wait. */
  lemma ExitWakesInit(t: Table, me: nat, init: nat, i: nat, q: nat)
    requires me < |t| && i < |t| && q < |t| && i != me && ZombieChild(t[i], me) && t[me].parent.Some?
    requires Exited(t, me, init)[q].state.SLEEPING?
    ensures t[q].chan != OfProc(init)
  {
    var t1 := Woken(t, OfProc(t[me].parent.value));
    assert ZombieChild(t1[i], me);
    assert HasZombie(t1, me, |t|);
  }

  lemma ExitWakesParent(t: Table, me: nat, init: nat, q: nat)
    requires me < |t| && q < |t| && t[me].parent.Some?
    requires Exited(t, me, init)[q].state.SLEEPING?
    ensures t[q].chan != OfProc(t[me].parent.value)
  {
  }

  lemma WaitersKept(s: Sys, step: Step)
    requires Family(s) && Waiters(s) && Enabled(s, step)
    ensures Waiters(Do(s, step))
  {
    var r := Do(s, step);
    forall q: nat | q < |r.t| ensures WaiterOk(r, q) {
      assert WaiterOk(s, q);
      if step.ExitStep? {
        ExitWaiters(s, step.me, q);
      } else {
        OtherWaiters(s, step, q);
      }
    }
  }

  lemma OtherWaiters(s: Sys, step: Step, q: nat)
    requires Family(s) && Waiters(s) && Enabled(s, step) && !step.ExitStep? && q < |s.t|
    ensures WaiterOk(Do(s, step), q)
  {
    var r := Do(s, step);
    assert WaiterOk(s, q);
    if r.t[q].state.SLEEPING? && r.t[q].chan.OfProc? {
      forall i | 0 <= i < |r.t| ensures !ZombieChild(r.t[i], q) {
        NoNewZombie(s, step, i);
      }
    }
  }

  /** Only exit makes zombies. */
  lemma NoNewZombie(s: Sys, step: Step, i: nat)
    requires Family(s) && Enabled(s, step) && !step.ExitStep? && i < |s.t|
    ensures Do(s, step).t[i].state.ZOMBIE? ==> s.t[i].state.ZOMBIE? && Do(s, step).t[i].parent == s.t[i].parent
  {
    if IsFork(step) { ForkNoZombie(s, step, i); }
  }

  lemma ForkNoZombie(s: Sys, step: Step, i: nat)
    requires Family(s) && Enabled(s, step) && IsFork(step) && i < |s.t|
    ensures Do(s, step).t[i].state.ZOMBIE? ==> s.t[i].state.ZOMBIE? && Do(s, step).t[i].parent == s.t[i].parent
  {
    if Making(s, step.me) {
      SlotOf(s, step.me); SlotOf(s, Child(s, step.me));
    }
  }

  // ----- stacks and page directories -----

  /** Steps that move no page: slots keep their stack, and keep or lack their directory. */
  lemma PagesSame(s: Sys, r: Sys)
    requires PagesOk(s) && |r.t| == |s.t| && r.stacks == s.stacks && r.dirs == s.dirs
    requires forall i :: 0 <= i < |s.t| ==>
      r.t[i].stack == s.t[i].stack && (HasDir(r.t[i]) <==> HasDir(s.t[i]))
        && (HasDir(s.t[i]) ==> r.t[i].pgdir == s.t[i].pgdir)
    ensures PagesOk(r)
  {
    forall i: nat | i < |r.t| ensures StackOwned(r, i) && DirOwned(r, i) {
      OwnedOf(s, i);
    }
  }

  lemma AllocPages(s: Sys, me: nat, c: nat)
    requires Family(s) && PagesOk(s) && Enabled(s, AllocProc(me, c))
    ensures PagesOk(Do(s, AllocProc(me, c)))
  {
    SlotOf(s, c);
    PagesSame(s, Do(s, AllocProc(me, c)));
  }

  lemma ForkPages(s: Sys, step: Step)
    requires Family(s) && PagesOk(s) && Enabled(s, step) && (step.StackFail? || step.Publish?)
    ensures PagesOk(Do(s, step))
  {
    var r := Do(s, step);
    forall i: nat | i < |s.t|
      ensures r.t[i].stack == s.t[i].stack && (HasDir(r.t[i]) <==> HasDir(s.t[i]))
        && (HasDir(s.t[i]) ==> r.t[i].pgdir == s.t[i].pgdir)
    {
      ForkSlotPages(s, step, r, i);
    }
    PagesSame(s, r);
  }

  lemma ForkSlotPages(s: Sys, step: Step, r: Sys, i: nat)
    requires Family(s) && Enabled(s, step) && (step.StackFail? || step.Publish?) && r == Do(s, step) && i < |s.t|
    ensures r.t[i].stack == s.t[i].stack && (HasDir(r.t[i]) <==> HasDir(s.t[i]))
      && (HasDir(s.t[i]) ==> r.t[i].pgdir == s.t[i].pgdir)
  {
    SlotOf(s, step.me); SlotOf(s, Child(s, step.me));
  }

  lemma QuietPages(s: Sys, step: Step)
    requires PagesOk(s) && Enabled(s, step)
    requires step.Dispatch? || step.Yield? || step.SleepOn? || step.WaitSleep? || step.KillStep? || step.Wakeup?
    ensures PagesOk(Do(s, step))
  {
    PagesSame(s, Do(s, step));
  }

  lemma ExitPages(s: Sys, me: nat)
    requires Family(s) && PagesOk(s) && Enabled(s, ExitStep(me))
    ensures PagesOk(Do(s, ExitStep(me)))
  {
    var r := Do(s, ExitStep(me));
    SlotOf(s, me);
    forall i: nat | i < |s.t|
      ensures r.t[i].stack == s.t[i].stack && (HasDir(r.t[i]) <==> HasDir(s.t[i])) && r.t[i].pgdir == s.t[i].pgdir
    {
      ExitedAt(s.t, me, s.init, i);
      SlotOf(s, i);
    }
    PagesSame(s, r);
  }

  lemma StackOkPages(s: Sys, me: nat, page: nat)
    requires Family(s) && PagesOk(s) && Enabled(s, StackOk(me, page))
    ensures PagesOk(Do(s, StackOk(me, page)))
  {
    var r, c := Do(s, StackOk(me, page)), Child(s, me);
    SlotOf(s, c);
    forall i: nat | i < |r.t| ensures StackOwned(r, i) && DirOwned(r, i) {
      OwnedOf(s, i);
    }
  }

  lemma CopyOkPages(s: Sys, me: nat, dir: nat)
    requires Family(s) && PagesOk(s) && Enabled(s, CopyOk(me, dir))
    ensures PagesOk(Do(s, CopyOk(me, dir)))
  {
    var r, c := Do(s, CopyOk(me, dir)), Child(s, me);
    SlotOf(s, me); SlotOf(s, c);
    forall i: nat | i < |r.t| ensures StackOwned(r, i) && DirOwned(r, i) {
      OwnedOf(s, i);
    }
  }

  lemma CopyFailPages(s: Sys, me: nat)
    requires Family(s) && PagesOk(s) && Enabled(s, CopyFail(me))
    ensures PagesOk(Do(s, CopyFail(me)))
  {
    var r, c := Do(s, CopyFail(me)), Child(s, me);
    SlotOf(s, me); SlotOf(s, c);
    StackAlone(s, c);
    StackDropped(s, c, me, r);
  }

  /** Child `c` gives its stack back and was never given a directory. */
  lemma StackDropped(s: Sys, c: nat, me: nat, r: Sys)
    requires PagesOk(s) && c < |s.t| && me < |s.t| && me != c && s.t[c].stack.Some? && s.t[c].state.EMBRYO?
      && !HasDir(s.t[c])
    requires s.t[c].stack.value in s.stacks && s.stacks[s.t[c].stack.value] == c && !s.t[me].state.UNUSED?
    requires r.t == s.t[c := s.t[c].(state := UNUSED, stack := None)][me := s.t[me].(making := None)]
    requires r.stacks == Without(s.stacks, s.t[c].stack) && r.dirs == s.dirs
    ensures PagesOk(r)
  {
    forall i: nat | i < |r.t| ensures StackOwned(r, i) && DirOwned(r, i) {
      OwnedOf(s, i);
    }
  }

  lemma OwnedOf(s: Sys, i: nat)
    requires PagesOk(s) && i < |s.t|
    ensures StackOwned(s, i) && DirOwned(s, i)
  {
  }

  /** No other slot has the stack of `c`. */
  lemma StackAlone(s: Sys, c: nat)
    requires PagesOk(s) && c < |s.t| && s.t[c].stack.Some?
    ensures forall i: nat :: i < |s.t| && i != c ==> s.t[i].stack != s.t[c].stack
    ensures s.t[c].stack.value in s.stacks && s.stacks[s.t[c].stack.value] == c
  {
    OwnedOf(s, c);
    forall i: nat | i < |s.t| && i != c ensures s.t[i].stack != s.t[c].stack { OwnedOf(s, i); }
  }

  lemma ReapPages(s: Sys, me: nat, c: nat)
    requires Family(s) && PagesOk(s) && Enabled(s, WaitReap(me, c))
    ensures PagesOk(Do(s, WaitReap(me, c)))
  {
    var r := Do(s, WaitReap(me, c));
    SlotOf(s, c);
    OwnedOf(s, c);
    PagesReaped(s, c, r);
  }

  /** A zombie's stack and directory go, and nobody else had them. */
  lemma PagesReaped(s: Sys, c: nat, r: Sys)
    requires PagesOk(s) && c < |s.t| && |r.t| == |s.t| && r.t[c].stack.None? && !HasDir(r.t[c])
    requires s.t[c].stack.Some? && HasDir(s.t[c]) && StackOwned(s, c) && DirOwned(s, c)
    requires forall i: nat :: i < |s.t| && i != c ==>
      r.t[i].stack == s.t[i].stack && (HasDir(r.t[i]) <==> HasDir(s.t[i])) && r.t[i].pgdir == s.t[i].pgdir
    requires r.stacks == Without(s.stacks, s.t[c].stack) && r.dirs == Without(s.dirs, s.t[c].pgdir)
    ensures PagesOk(r)
  {
    forall i: nat | i < |r.t| ensures StackOwned(r, i) && DirOwned(r, i) {
      OwnedOf(s, i);
    }
  }

  // ----- runs -----

  /** userinit: one process, its own parent. */
  ghost predicate Init(s: Sys) {
    && s.init < |s.t| && s.nextpid == 2
    && s.t[s.init].state.RUNNABLE? && s.t[s.init].pid == 1 && s.t[s.init].parent == Some(s.init)
    && s.t[s.init].stack.Some? && s.t[s.init].pgdir.Some? && s.t[s.init].making.None? && !s.t[s.init].killed
    && s.stacks == map[s.t[s.init].stack.value := s.init] && s.dirs == map[s.t[s.init].pgdir.value := s.init]
    && forall i :: 0 <= i < |s.t| && i != s.init ==>
         && s.t[i].state.UNUSED? && s.t[i].parent.None? && s.t[i].stack.None? && s.t[i].making.None?
         && !s.t[i].killed && s.t[i].pid == 0
  }

  ghost predicate Run(states: seq<Sys>, steps: seq<Step>) {
    && |states| == |steps| + 1 && Init(states[0])
    && forall i {:trigger steps[i]} :: 0 <= i < |steps| ==>
      Enabled(states[i], steps[i]) && states[i + 1] == Do(states[i], steps[i])
  }

  lemma PagesKept(s: Sys, step: Step)
    requires Family(s) && PagesOk(s) && Enabled(s, step)
    ensures PagesOk(Do(s, step))
  {
    match step
    case StackOk(me, page) => StackOkPages(s, me, page);
    case CopyOk(me, dir) => CopyOkPages(s, me, dir);
    case CopyFail(me) => CopyFailPages(s, me);
    case StackFail(me) => ForkPages(s, step);
    case Publish(me) => ForkPages(s, step);
    case AllocProc(me, i) => AllocPages(s, me, i);
    case ExitStep(me) => ExitPages(s, me);
    case WaitReap(me, i) => ReapPages(s, me, i);
    case _ => QuietPages(s, step);
  }

  lemma {:induction false} RunInv(states: seq<Sys>, steps: seq<Step>, i: nat)
    requires Run(states, steps) && i < |states|
    ensures Family(states[i]) && Waiters(states[i]) && PagesOk(states[i])
  {
    if i == 0 {
      InitInv(states[0]);
    } else {
      RunInv(states, steps, i - 1);
      FamilyKept(states[i - 1], steps[i - 1]);
      WaitersKept(states[i - 1], steps[i - 1]);
      PagesKept(states[i - 1], steps[i - 1]);
    }
  }

  lemma InitInv(s: Sys)
    requires Init(s)
    ensures Family(s) && Waiters(s) && PagesOk(s)
  {
    forall i: nat | i < |s.t| ensures SlotOk(s, i) && WaiterOk(s, i) && StackOwned(s, i) && DirOwned(s, i) {
    }
  }

  // ----- theorems -----

  /** The `k`-th ancestor of a slot. */
  function Ancestor(t: Table, i: nat, k: nat): Option<nat>
    requires i < |t|
    decreases k
  {
    if k == 0 then Some(i)
    else
      match Ancestor(t, i, k - 1)
      case None => None
      case Some(j) => if j < |t| then t[j].parent else None
  }

  lemma {:induction false} AncestorNext(t: Table, i: nat, k: nat)
    requires i < |t| && t[i].parent.Some? && t[i].parent.value < |t|
    ensures Ancestor(t, i, k + 1) == Ancestor(t, t[i].parent.value, k)
  {
    if k > 0 {
      AncestorNext(t, i, k - 1);
    }
  }

  lemma {:induction false} ChainToInit(s: Sys, i: nat) returns (k: nat)
    requires Family(s) && i < |s.t| && Forked(s.t[i])
    ensures Ancestor(s.t, i, k) == Some(s.init)
    decreases s.t[i].pid
  {
    SlotOf(s, i);
    if i == s.init {
      return 0;
    }
    var q := s.t[i].parent.value;
    k := ChainToInit(s, q);
    AncestorNext(s.t, i, k);
    k := k + 1;
  }

  /** In every run the parent of each forked process is alive, and following parents leads to init. */
  lemma ParentsLead(states: seq<Sys>, steps: seq<Step>, n: nat, i: nat) returns (k: nat)
    requires Run(states, steps) && n < |states| && i < |states[n].t| && Forked(states[n].t[i])
    ensures ParentOk(states[n], states[n].t[i])
    ensures Ancestor(states[n].t, i, k) == Some(states[n].init)
  {
    RunInv(states, steps, n);
    assert SlotOk(states[n], i);
    k := ChainToInit(states[n], i);
  }

  /** A parent never sleeps in wait while it has a zombie child. */
  lemma NoWaitPastZombie(states: seq<Sys>, steps: seq<Step>, n: nat, q: nat, i: nat)
    requires Run(states, steps) && n < |states| && q < |states[n].t| && i < |states[n].t|
    requires ZombieChild(states[n].t[i], q)
    ensures !(states[n].t[q].state.SLEEPING? && states[n].t[q].chan.OfProc?)
  {
    RunInv(states, steps, n);
    assert WaiterOk(states[n], q);
  }

  predicate IsFork(step: Step) {
    step.AllocProc? || step.StackOk? || step.StackFail? || step.CopyOk? || step.CopyFail? || step.Publish?
  }

  /** fork changes only the process in it and the slot it fills. */
  lemma ForkSlots(s: Sys, step: Step, i: nat)
    requires Family(s) && Enabled(s, step) && IsFork(step) && i < |s.t|
    ensures |Do(s, step).t| == |s.t| && s.nextpid <= Do(s, step).nextpid
    ensures s.t[i].state.ZOMBIE? ==> Do(s, step).t[i] == s.t[i]
    ensures Do(s, step).t[i].pid != s.t[i].pid ==>
      step.AllocProc? && s.t[i].state.UNUSED? && Do(s, step).t[i].pid == s.nextpid
    ensures s.t[i].state.UNUSED? && !Do(s, step).t[i].state.UNUSED? ==> Do(s, step).t[i].pid == s.nextpid
  {
    SlotOf(s, step.me);
    if !step.AllocProc? { SlotOf(s, Child(s, step.me)); }
  }

  lemma ZombieStays(s: Sys, step: Step, i: nat)
    requires Family(s) && Enabled(s, step) && i < |s.t| && s.t[i].state.ZOMBIE?
    requires !(step.WaitReap? && step.i == i)
    ensures |Do(s, step).t| == |s.t| && Do(s, step).t[i].state.ZOMBIE?
  {
    if IsFork(step) {
      ForkSlots(s, step, i);
    } else if step.ExitStep? {
      SlotOf(s, step.me);
      ExitedAt(s.t, step.me, s.init, i);
    }
  }

  /** A zombie leaves the table only when its living parent waits, which releases its own stack and directory. */
  lemma ReapedByParent(states: seq<Sys>, steps: seq<Step>, n: nat, i: nat)
    requires Run(states, steps) && n < |steps| && i < |states[n].t| && states[n].t[i].state.ZOMBIE?
    ensures |states[n + 1].t| == |states[n].t|
    ensures var s, r := states[n], states[n + 1];
      !r.t[i].state.ZOMBIE? ==>
        && steps[n].WaitReap? && steps[n].i == i && s.t[i].parent == Some(steps[n].me) && Running(s, steps[n].me)
        && s.t[i].stack.Some? && s.t[i].stack.value in s.stacks && r.stacks == s.stacks - {s.t[i].stack.value}
        && s.t[i].pgdir.Some? && s.t[i].pgdir.value in s.dirs && r.dirs == s.dirs - {s.t[i].pgdir.value}
  {
    RunInv(states, steps, n);
    var s, step := states[n], steps[n];
    if step.WaitReap? && step.i == i {
      assert SlotOk(s, i) && StackOwned(s, i) && DirOwned(s, i);
    } else {
      ZombieStays(s, step, i);
    }
  }

  /** Process numbers are never used twice: a collected process does not come back. */
  lemma PidsAreFresh(s: Sys, step: Step, i: nat)
    requires Family(s) && Enabled(s, step) && i < |s.t|
    ensures |Do(s, step).t| == |s.t| && s.nextpid <= Do(s, step).nextpid
    ensures var p, q := s.t[i], Do(s, step).t[i];
      !q.state.UNUSED? && (p.state.UNUSED? || q.pid != p.pid) ==> p.state.UNUSED? && q.pid == s.nextpid
  {
    SlotOf(s, i);
    if IsFork(step) {
      ForkSlots(s, step, i);
    } else if step.ExitStep? {
      SlotOf(s, step.me);
      ExitedAt(s.t, step.me, s.init, i);
    }
  }

  /** A slot holds the same process from state `i` to state `j` of a run. */
  ghost predicate SameProcess(states: seq<Sys>, i: nat, j: nat, x: nat, pid: nat) {
    forall n: nat :: i <= n <= j && n < |states| ==>
      x < |states[n].t| && !states[n].t[x].state.UNUSED? && states[n].t[x].pid == pid
  }

  /**
   Over a run: a process that exists later has a number not yet handed out before, or it was there all
   the time, in the same slot. So no number comes back after its process is gone.
   */
  lemma {:induction false} PidsNeverReused(states: seq<Sys>, steps: seq<Step>, i: nat, j: nat, x: nat)
    requires Run(states, steps) && i <= j < |states| && x < |states[j].t| && !states[j].t[x].state.UNUSED?
    ensures states[i].nextpid <= states[j].nextpid && |states[i].t| == |states[j].t|
    ensures states[j].t[x].pid >= states[i].nextpid || SameProcess(states, i, j, x, states[j].t[x].pid)
    decreases j - i
  {
    if i < j {
      RunGrows(states, steps, i, j);
      RunGrows(states, steps, i, j - 1);
      PidsStep(states, steps, j - 1, x);
      if !states[j - 1].t[x].state.UNUSED? { PidsNeverReused(states, steps, i, j - 1, x); }
    }
  }

  lemma PidsStep(states: seq<Sys>, steps: seq<Step>, n: nat, x: nat)
    requires Run(states, steps) && n < |steps| && x < |states[n].t|
    ensures |states[n + 1].t| == |states[n].t| && states[n].nextpid <= states[n + 1].nextpid
    ensures var p, q := states[n].t[x], states[n + 1].t[x];
      !q.state.UNUSED? && (p.state.UNUSED? || q.pid != p.pid) ==> p.state.UNUSED? && q.pid == states[n].nextpid
  {
    RunInv(states, steps, n);
    PidsAreFresh(states[n], steps[n], x);
  }

  /** A number other than 0 is in one slot at most, also the number a failed fork leaves in an unused slot. */
  ghost predicate PidsDiffer(s: Sys) {
    && s.nextpid > 0
    && (forall i :: 0 <= i < |s.t| ==> s.t[i].pid < s.nextpid)
    && forall i, j :: 0 <= i < j < |s.t| && s.t[i].pid != 0 ==> s.t[i].pid != s.t[j].pid
  }

  /** The number in slot `i` after a step. */
  function PidAfter(s: Sys, step: Step, i: nat): nat
    requires i < |s.t|
  {
    if step.AllocProc? && step.i == i then s.nextpid else if Reaps(step, i) then 0 else s.t[i].pid
  }

  lemma StepPid(s: Sys, step: Step, i: nat)
    requires Family(s) && Enabled(s, step) && i < |s.t|
    ensures |Do(s, step).t| == |s.t| && Do(s, step).t[i].pid == PidAfter(s, step, i)
    ensures Do(s, step).nextpid == s.nextpid + if step.AllocProc? then 1 else 0
  {
    if IsFork(step) {
      ForkPid(s, step, i);
    } else if step.ExitStep? {
      ExitLeaves(s.t, step.me, s.init);
    }
  }

  lemma ForkPid(s: Sys, step: Step, i: nat)
    requires Family(s) && Enabled(s, step) && IsFork(step) && i < |s.t|
    ensures |Do(s, step).t| == |s.t| && Do(s, step).t[i].pid == PidAfter(s, step, i)
  {
    SlotOf(s, step.me);
    if !step.AllocProc? { SlotOf(s, Child(s, step.me)); }
  }

  /** So kill, which takes the first slot with the number, finds the process that has it. */
  lemma {:induction false} PidsDistinct(states: seq<Sys>, steps: seq<Step>, n: nat)
    requires Run(states, steps) && n < |states|
    ensures PidsDiffer(states[n])
  {
    if n > 0 {
      PidsDistinct(states, steps, n - 1);
      RunInv(states, steps, n - 1);
      StepDiffer(states[n - 1], steps[n - 1], states[n]);
    }
  }

  lemma StepDiffer(s: Sys, step: Step, r: Sys)
    requires Family(s) && Enabled(s, step) && r == Do(s, step) && PidsDiffer(s)
    ensures PidsDiffer(r)
  {
    StepPid(s, step, s.init);
    forall i: nat | i < |r.t| ensures r.t[i].pid == PidAfter(s, step, i) {
      StepPid(s, step, i);
    }
    forall i: nat, j: nat | i < j < |r.t| && r.t[i].pid != 0 ensures r.t[i].pid != r.t[j].pid {
      assert r.t[i].pid == PidAfter(s, step, i) && r.t[j].pid == PidAfter(s, step, j);
    }
  }

  lemma {:induction false} RunGrows(states: seq<Sys>, steps: seq<Step>, i: nat, j: nat)
    requires Run(states, steps) && i <= j < |states|
    ensures states[i].nextpid <= states[j].nextpid && |states[i].t| == |states[j].t|
    decreases j - i
  {
    if i < j {
      RunGrows(states, steps, i, j - 1);
      RunInv(states, steps, j - 1);
      StepGrows(states[j - 1], steps[j - 1]);
    }
  }

  lemma StepGrows(s: Sys, step: Step)
    requires Family(s) && Enabled(s, step)
    ensures |Do(s, step).t| == |s.t| && s.nextpid <= Do(s, step).nextpid
  {
    PidsAreFresh(s, step, s.init);
  }

  // ----- killed before it is born -----

  predicate Reaps(step: Step, x: nat) { step.WaitReap? && step.i == x }

  /** Step `m` killed slot `x` and wait has not cleared it since. */
  ghost predicate MarkedAt(steps: seq<Step>, m: nat, n: nat, x: nat) {
    m < n && m < |steps| && steps[m] == KillStep(x) && forall k: nat :: m < k < n && k < |steps| ==> !Reaps(steps[k], x)
  }

  lemma KilledStep(s: Sys, step: Step, x: nat)
    requires Family(s) && Enabled(s, step) && x < |s.t|
    ensures |Do(s, step).t| == |s.t|
    ensures Do(s, step).t[x].killed <==> step == KillStep(x) || (s.t[x].killed && !Reaps(step, x))
  {
    StepGrows(s, step);
    if step.ExitStep? {
      ExitLeaves(s.t, step.me, s.init);
    } else if IsFork(step) {
      ForkMarks(s, step, x);
    }
  }

  lemma ForkMarks(s: Sys, step: Step, x: nat)
    requires Family(s) && Enabled(s, step) && IsFork(step) && x < |s.t|
    ensures |Do(s, step).t| == |s.t| && Do(s, step).t[x].killed == s.t[x].killed
  {
    SlotOf(s, step.me);
  }

  lemma {:induction false} KilledIff(states: seq<Sys>, steps: seq<Step>, n: nat, x: nat)
    requires Run(states, steps) && n < |states| && x < |states[n].t|
    ensures states[n].t[x].killed <==> exists m: nat :: MarkedAt(steps, m, n, x)
    decreases n
  {
    if n > 0 {
      RunGrows(states, steps, n - 1, n);
      KilledIff(states, steps, n - 1, x);
      RunInv(states, steps, n - 1);
      KilledStep(states[n - 1], steps[n - 1], x);
      MarkedNext(steps, n - 1, n, x);
    }
  }

  lemma MarkedNext(steps: seq<Step>, m: nat, n: nat, x: nat)
    requires m + 1 == n <= |steps|
    ensures (exists i: nat :: MarkedAt(steps, i, n, x)) <==>
      steps[m] == KillStep(x) || (!Reaps(steps[m], x) && exists i: nat :: MarkedAt(steps, i, m, x))
  {
    if steps[m] == KillStep(x) { assert MarkedAt(steps, m, n, x); }
    forall i: nat | i < m ensures MarkedAt(steps, i, n, x) <==> MarkedAt(steps, i, m, x) && !Reaps(steps[m], x) {}
    forall i: nat | MarkedAt(steps, i, m, x) ensures i < m {}
  }

  lemma ForkedStays(s: Sys, step: Step, x: nat)
    requires Family(s) && Enabled(s, step) && x < |s.t| && Forked(s.t[x]) && !Reaps(step, x)
    ensures |Do(s, step).t| == |s.t| && Forked(Do(s, step).t[x])
  {
    StepGrows(s, step);
    if IsFork(step) {
      ForkKeepsForked(s, step, x);
    } else if step.ExitStep? {
      SlotOf(s, step.me);
      ExitedAt(s.t, step.me, s.init, x);
    }
  }

  lemma ForkKeepsForked(s: Sys, step: Step, x: nat)
    requires Family(s) && Enabled(s, step) && IsFork(step) && x < |s.t| && Forked(s.t[x])
    ensures |Do(s, step).t| == |s.t| && Forked(Do(s, step).t[x])
  {
    SlotOf(s, step.me);
    if !step.AllocProc? { SlotOf(s, Child(s, step.me)); }
  }

  lemma {:induction false} StaysUntilReaped(states: seq<Sys>, steps: seq<Step>, m: nat, n: nat, x: nat)
    requires Run(states, steps) && m <= n < |states| && x < |states[m].t| && Forked(states[m].t[x])
    requires forall k: nat :: m <= k < n && k < |steps| ==> !Reaps(steps[k], x)
    ensures |states[n].t| == |states[m].t| && Forked(states[n].t[x])
    decreases n - m
  {
    if m < n {
      StaysUntilReaped(states, steps, m, n - 1, x);
      RunInv(states, steps, n - 1);
      ForkedStays(states[n - 1], steps[n - 1], x);
    }
  }

  /**
   A process starts out killed if and only if kill hit its slot after the slot was last given up by wait; and
   then the slot was unused, or held a process whose fork was still going on and then failed.
   */
  lemma BornKilledIff(states: seq<Sys>, steps: seq<Step>, n: nat, me: nat, x: nat)
    requires Run(states, steps) && n < |steps| && steps[n] == AllocProc(me, x)
    ensures x < |states[n].t| == |states[n + 1].t|
    ensures states[n + 1].t[x].killed <==> exists m: nat :: MarkedAt(steps, m, n, x)
    ensures forall m: nat :: MarkedAt(steps, m, n, x) ==> x < |states[m].t| && !Forked(states[m].t[x])
  {
    RunInv(states, steps, n);
    KilledIff(states, steps, n, x);
    KilledStep(states[n], steps[n], x);
    forall m: nat | MarkedAt(steps, m, n, x) ensures x < |states[m].t| && !Forked(states[m].t[x]) {
      RunGrows(states, steps, m, n);
      if Forked(states[m].t[x]) {
        StaysUntilReaped(states, steps, m, n, x);
      }
    }
  }

  /** And that happens: kill finds the number of an unused slot, and the next process there is killed. */
  lemma BornKilled() returns (states: seq<Sys>, steps: seq<Step>)
    ensures Run(states, steps) && |states| == 4 && steps[2] == AllocProc(0, 1) && states[3].t[1].killed
  {
    var init := Proc(RUNNABLE, 1, Some(0), NoChan, false, Some(0), Some(0), None);
    var unused := Proc(UNUSED, 0, None, NoChan, false, None, None, None);
    var s0 := Sys([init, unused], 2, 0, map[0 := 0], map[0 := 0]);
    steps := [KillStep(1), Dispatch(0), AllocProc(0, 1)];
    var s1 := Do(s0, steps[0]);
    var s2 := Do(s1, steps[1]);
    states := [s0, s1, s2, Do(s2, steps[2])];
  }
}
