/**
 The process table: what fork, exit, wait, sleep, wakeup, kill and the scheduler do to it, each as
 one step under ptable.lock.
 */
module ProcTable {
  import opened Options

  datatype PState = UNUSED | EMBRYO | SLEEPING | RUNNABLE | RUNNING | ZOMBIE

  /** A sleep channel: the address of a process (used by wait) or of anything else. */
  datatype Chan = NoChan | OfProc(slot: nat) | Other(addr: nat)

  datatype Proc = Proc(
    state: PState,
    pid: nat,
    parent: Option<nat>,     // slot of the parent
    chan: Chan,
    killed: bool,
    stack: Option<nat>,      // kernel stack page
    pgdir: Option<nat>,      // page directory; not cleared when wait frees it
    making: Option<nat>)     // the slot this process is filling in fork

  type Table = seq<Proc>

  predicate Live(p: Proc) { p.state.SLEEPING? || p.state.RUNNABLE? || p.state.RUNNING? }

  /** A process that fork has completed. */
  predicate Forked(p: Proc) { Live(p) || p.state.ZOMBIE? }

  // ----- the loops over the table, as functions -----

  /** wakeup1(chan) */
  function Woken(t: Table, chan: Chan): (r: Table)
    ensures |r| == |t|
  {
    seq(|t|, i requires 0 <= i < |t| => WokenProc(t[i], chan))
  }

  function WokenProc(p: Proc, chan: Chan): Proc {
    if p.state.SLEEPING? && p.chan == chan then p.(state := RUNNABLE) else p
  }

  predicate ChildOf(p: Proc, me: nat) { p.parent == Some(me) }

  predicate ZombieChild(p: Proc, me: nat) { ChildOf(p, me) && p.state.ZOMBIE? }

  ghost predicate HasZombie(t: Table, me: nat, k: nat) {
    exists i :: 0 <= i < k && i < |t| && ZombieChild(t[i], me)
  }

  /** exit's loop after `k` slots: the children go to init, which is woken if one of them is a zombie. */
  ghost function Abandoned(t: Table, me: nat, init: nat, k: nat): (r: Table)
    ensures |r| == |t|
  {
    seq(|t|, i requires 0 <= i < |t| =>
      var p := if HasZombie(t, me, k) then WokenProc(t[i], OfProc(init)) else t[i];
      if i < k && ChildOf(t[i], me) then p.(parent := Some(init)) else p)
  }

  /** All of exit's critical section. */
  ghost function Exited(t: Table, me: nat, init: nat): (r: Table)
    requires me < |t|
    ensures |r| == |t|
  {
    var t1 := if t[me].parent.Some? then Woken(t, OfProc(t[me].parent.value)) else t;
    var t2 := Abandoned(t1, me, init, |t|);
    t2[me := t2[me].(state := ZOMBIE)]
  }

  /** What wait does to the slot of a zombie child. */
  function Reaped(p: Proc): Proc {
    p.(state := UNUSED, pid := 0, parent := None, killed := false, stack := None)
  }

  function Killed(p: Proc): Proc {
    p.(killed := true, state := if p.state.SLEEPING? then RUNNABLE else p.state)
  }

  /** Number, channel, pages and the slot being filled are the same. */
  predicate SameButState(p: Proc, q: Proc) {
    q.pid == p.pid && q.chan == p.chan && q.stack == p.stack && q.pgdir == p.pgdir && q.making == p.making
  }

  /** Somebody waits for what the exit of `me` brings: its parent, and init if a zombie is left to it. */
  ghost predicate AwaitsExit(t: Table, me: nat, init: nat, i: nat)
    requires me < |t| && i < |t|
  {
    && t[i].state.SLEEPING?
    && ((t[me].parent.Some? && t[i].chan == OfProc(t[me].parent.value))
        || (t[i].chan == OfProc(init) && HasZombie(t, me, |t|)))
  }

  /** What is left in slot `i` when `me` exits. */
  ghost predicate Leaves(t: Table, me: nat, init: nat, i: nat, q: Proc)
    requires me < |t| && i < |t|
  {
    && SameButState(t[i], q) && q.killed == t[i].killed
    && q.parent == (if ChildOf(t[i], me) then Some(init) else t[i].parent)
    && q.state == if i == me then ZOMBIE else if AwaitsExit(t, me, init, i) then RUNNABLE else t[i].state
  }

  lemma ExitLeaves(t: Table, me: nat, init: nat)
    requires me < |t|
    ensures forall i :: 0 <= i < |t| ==> Leaves(t, me, init, i, Exited(t, me, init)[i])
  {
    var t1 := if t[me].parent.Some? then Woken(t, OfProc(t[me].parent.value)) else t;
    assert HasZombie(t1, me, |t|) <==> HasZombie(t, me, |t|) by {
      assert forall i :: 0 <= i < |t| ==> (ZombieChild(t1[i], me) <==> ZombieChild(t[i], me));
    }
    forall i | 0 <= i < |t| ensures Leaves(t, me, init, i, Exited(t, me, init)[i]) {
    }
  }

  class PTable {
    var t: Table
    var nextpid: nat
    const init: nat

    constructor (t: Table, nextpid: nat, init: nat)
      ensures this.t == t && this.nextpid == nextpid && this.init == init
    {
      this.t, this.nextpid, this.init := t, nextpid, init;
    }

    /** wakeup1(chan): exactly the processes asleep on the channel become runnable. */
    method Wakeup1(chan: Chan)
      modifies this`t
      ensures t == Woken(old(t), chan)
      ensures |t| == |old(t)| && forall i :: 0 <= i < |t| ==>
        && SameButState(old(t)[i], t[i]) && t[i].parent == old(t)[i].parent && t[i].killed == old(t)[i].killed
        && t[i].state == if old(t)[i].state.SLEEPING? && old(t)[i].chan == chan then RUNNABLE else old(t)[i].state
    {
      for i := 0 to |t|
        invariant |t| == |old(t)|
        invariant forall j :: 0 <= j < i ==> t[j] == WokenProc(old(t)[j], chan)
        invariant forall j :: i <= j < |t| ==> t[j] == old(t)[j]
      {
        if t[i].state.SLEEPING? && t[i].chan == chan {
          t := t[i := t[i].(state := RUNNABLE)];
        }
      }
    }

    /** exit, from taking ptable.lock to calling sched; false where init would exit (panic). */
    method Exit(me: nat) returns (ok: bool)
      requires me < |t| && init < |t|
      modifies this`t
      ensures ok <==> me != init
      ensures t == if ok then Exited(old(t), me, init) else old(t)
      ensures ok ==> |t| == |old(t)| && forall i :: 0 <= i < |t| ==> Leaves(old(t), me, init, i, t[i])
    {
      if me == init {
        return false;
      }
      if t[me].parent.Some? {
        Wakeup1(OfProc(t[me].parent.value));
      }
      ghost var t1 := t;
      for i := 0 to |t|
        invariant |t| == |t1|
        invariant t == Abandoned(t1, me, init, i)
      {
        ghost var before := t;
        if ChildOf(t[i], me) {
          t := t[i := t[i].(parent := Some(init))];
          if t[i].state.ZOMBIE? {
            Wakeup1(OfProc(init));
          }
        }
        AbandonNext(t1, me, init, i, before, t);
      }
      t := t[me := t[me].(state := ZOMBIE)];
      ExitLeaves(old(t), me, init);
      return true;
    }

    /**
     kill(pid): the first slot with that pid is marked, and if it slept, it sleeps no longer; false if
     there is no such slot.
     */
    method Kill(pid: nat) returns (found: bool, ghost slot: nat)
      modifies this`t
      ensures found <==> exists i :: 0 <= i < |old(t)| && old(t)[i].pid == pid
      ensures !found ==> t == old(t)
      ensures found ==>
        && slot < |old(t)| == |t| && old(t)[slot].pid == pid
        && (forall j :: 0 <= j < slot ==> old(t)[j].pid != pid)
        && (forall j :: 0 <= j < |t| && j != slot ==> t[j] == old(t)[j])
        && t[slot] == Killed(old(t)[slot])
        && t[slot].killed && t[slot].parent == old(t)[slot].parent && SameButState(old(t)[slot], t[slot])
        && t[slot].state == if old(t)[slot].state.SLEEPING? then RUNNABLE else old(t)[slot].state
    {
      slot := 0;
      for i := 0 to |t|
        invariant t == old(t) && forall j :: 0 <= j < i ==> t[j].pid != pid
      {
        if t[i].pid == pid {
          t := t[i := t[i].(killed := true)];
          if t[i].state.SLEEPING? {
            t := t[i := t[i].(state := RUNNABLE)];
          }
          return true, i;
        }
      }
      return false, 0;
    }

    /** The search of allocproc: the first unused slot gets the next pid. */
    method AllocProc() returns (slot: Option<nat>)
      modifies this`t, this`nextpid
      ensures slot.None? ==> t == old(t) && nextpid == old(nextpid) && forall i :: 0 <= i < |t| ==> !t[i].state.UNUSED?
      ensures slot.Some? ==>
        && slot.value < |old(t)| && old(t)[slot.value].state.UNUSED?
        && (forall i :: 0 <= i < slot.value ==> !old(t)[i].state.UNUSED?)
        && t == old(t)[slot.value := old(t)[slot.value].(state := EMBRYO, pid := old(nextpid))]
        && nextpid == old(nextpid) + 1
    {
      for i := 0 to |t|
        invariant t == old(t) && nextpid == old(nextpid) && forall j :: 0 <= j < i ==> !t[j].state.UNUSED?
      {
        if t[i].state.UNUSED? {
          t := t[i := t[i].(state := EMBRYO, pid := nextpid)];
          nextpid := nextpid + 1;
          return Some(i);
        }
      }
      return None;
    }

    /** One scan of wait: a zombie child is reaped, or the caller returns -1, or it sleeps on itself. */
    method Wait(me: nat) returns (reaped: Option<nat>, slept: bool)
      requires me < |t|
      modifies this`t
      ensures reaped.Some? ==>
        && !slept && reaped.value < |old(t)| && ZombieChild(old(t)[reaped.value], me)
        && (forall j :: 0 <= j < reaped.value ==> !ZombieChild(old(t)[j], me))
        && t == old(t)[reaped.value := Reaped(old(t)[reaped.value])]
        && t[reaped.value].state == UNUSED && t[reaped.value].pid == 0 && t[reaped.value].parent == None
        && !t[reaped.value].killed && t[reaped.value].stack == None
      ensures reaped.None? ==> forall j :: 0 <= j < |old(t)| ==> !ZombieChild(old(t)[j], me)
      ensures reaped.None? ==>
        (slept <==> (exists j :: 0 <= j < |old(t)| && ChildOf(old(t)[j], me)) && !old(t)[me].killed)
      ensures reaped.None? ==>
        t == if slept then old(t)[me := old(t)[me].(state := SLEEPING, chan := OfProc(me))] else old(t)
    {
      var havekids := false;
      for i := 0 to |t|
        invariant t == old(t)
        invariant forall j :: 0 <= j < i ==> !ZombieChild(t[j], me)
        invariant havekids <==> exists j :: 0 <= j < i && ChildOf(t[j], me)
      {
        if ChildOf(t[i], me) {
          havekids := true;
          if t[i].state.ZOMBIE? {
            t := t[i := Reaped(t[i])];
            return Some(i), false;
          }
        }
      }
      if !havekids || t[me].killed {
        return None, false;
      }
      t := t[me := t[me].(state := SLEEPING, chan := OfProc(me))];
      return None, true;
    }
  }

  lemma AbandonNext(t: Table, me: nat, init: nat, i: nat, before: Table, after: Table)
    requires i < |t| && init != me && before == Abandoned(t, me, init, i)
    requires after == if ChildOf(before[i], me)
      then (var r := before[i := before[i].(parent := Some(init))]; if r[i].state.ZOMBIE? then Woken(r, OfProc(init))
        else r)
      else before
    ensures after == Abandoned(t, me, init, i + 1)
  {
    assert before[i].parent == t[i].parent;
    assert HasZombie(t, me, i + 1) <==> HasZombie(t, me, i) || ZombieChild(t[i], me);
    forall j | 0 <= j < |t| ensures after[j] == Abandoned(t, me, init, i + 1)[j] {
    }
  }
}
