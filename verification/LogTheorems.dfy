/**
 What the runs of the logging layer guarantee: crash atomicity, group commit, durability,
 no-steal, reads see the last write. Group commit and durability hold in every run; the
 others in every run in which each block finds room when it is logged. LogReservation and
 LogReservationGap say for which sizes that is every run.
 */
module LogTheorems {
  import opened LogFormat
  import opened LogProtocol
  import opened LogSafety
  import opened Options

  // ----- the invariant over whole runs -----

  lemma InitInv(g: Geometry, s: State)
    requires g.Valid() && Init(g, s) && Shaped(g, s.img)
    ensures Inv(g, s)
  {
  }

  /** Whenever a block is logged the list has room for it, in memory and on disk. */
  ghost predicate RoomyRun(g: Geometry, states: seq<State>, steps: seq<Step>) {
    && Run(g, states, steps) && Shaped(g, states[0].img)
    && forall i {:trigger steps[i]} :: 0 <= i < |steps| ==> Roomy(g, states[i], steps[i])
  }

  lemma RunStep(g: Geometry, states: seq<State>, steps: seq<Step>, k: nat)
    requires Run(g, states, steps) && k < |steps|
    ensures Enabled(g, states[k], steps[k]) && states[k + 1] == Do(g, states[k], steps[k])
  {
  }

  lemma {:induction false} RunOps(g: Geometry, states: seq<State>, steps: seq<Step>, i: nat)
    requires Run(g, states, steps) && i < |states|
    ensures OpsOk(g, states[i])
  {
    if i > 0 {
      RunOps(g, states, steps, i - 1);
      RunStep(g, states, steps, i - 1);
      OpsKept(g, states[i - 1], steps[i - 1]);
    }
  }

  lemma UpdateSize(cache: map<nat, Buf>, b: nat, buf: Buf)
    ensures |cache[b := buf]| == if b in cache then |cache| else |cache| + 1
  {
    var c := cache[b := buf];
    assert c.Keys == cache.Keys + {b};
    assert |c| == |c.Keys| && |cache| == |cache.Keys|;
  }

  lemma RemoveSize(cache: map<nat, Buf>, b: nat)
    requires b in cache
    ensures |cache - {b}| == |cache| - 1
  {
    var c := cache - {b};
    assert c.Keys == cache.Keys - {b};
    assert |c| == |c.Keys| && |cache| == |cache.Keys|;
  }

  lemma MissFits(g: Geometry, s: State, p: Pid, b: nat, v: Option<nat>)
    requires Enabled(g, s, Miss(p, b, v)) && |s.cache| <= g.nbuf
    ensures |Do(g, s, Miss(p, b, v)).cache| <= g.nbuf
  {
    if v.Some? { RemoveSize(s.cache, v.value); }
    var c := if v.Some? then s.cache - {v.value} else s.cache;
    UpdateSize(c, b, Buf([], false, false, Some(p), false));
  }

  lemma SameKeys(c: map<nat, Buf>, c': map<nat, Buf>)
    requires c.Keys == c'.Keys
    ensures |c| == |c'|
  {
    assert |c| == |c.Keys| && |c'| == |c'.Keys|;
  }

  lemma OtherKeys(g: Geometry, s: State, step: Step, r: State)
    requires Enabled(g, s, step) && r == Do(g, s, step) && !step.Miss? && !step.Crash?
    ensures r.cache.Keys == s.cache.Keys
  {
  }

  lemma StepFits(g: Geometry, s: State, step: Step, r: State)
    requires Enabled(g, s, step) && r == Do(g, s, step) && |s.cache| <= g.nbuf
    ensures |r.cache| <= g.nbuf
  {
    if step.Miss? {
      MissFits(g, s, step.p, step.b, step.victim);
    } else if !step.Crash? {
      OtherKeys(g, s, step, r);
      SameKeys(s.cache, r.cache);
    }
  }

  /** There are never more than NBUF buffers. */
  lemma {:induction false} RunCache(g: Geometry, states: seq<State>, steps: seq<Step>, i: nat)
    requires Run(g, states, steps) && i < |states|
    ensures |states[i].cache| <= g.nbuf
  {
    if i > 0 {
      RunCache(g, states, steps, i - 1);
      RunStep(g, states, steps, i - 1);
      StepFits(g, states[i - 1], steps[i - 1], states[i]);
    }
  }

  lemma StepTo(g: Geometry, s: State, step: Step, r: State)
    requires Inv(g, s) && Enabled(g, s, step) && Roomy(g, s, step) && |s.cache| <= g.nbuf && r == Do(g, s, step)
    ensures Inv(g, r)
  {
    StepKeeps(g, s, step);
  }

  lemma {:induction false} RunInv(g: Geometry, states: seq<State>, steps: seq<Step>, i: nat)
    requires RoomyRun(g, states, steps) && i < |states|
    ensures Inv(g, states[i])
  {
    if i == 0 {
      InitInv(g, states[0]);
    } else {
      RunInv(g, states, steps, i - 1);
      RunCache(g, states, steps, i - 1);
      RunStep(g, states, steps, i - 1);
      StepTo(g, states[i - 1], steps[i - 1], states[i]);
    }
  }

  // ----- operations and groups -----

  /** No operation is split over two groups. */
  ghost predicate OneGroup(evs: seq<Event>) {
    forall i, j :: 0 <= i < |evs| && 0 <= j < |evs| && evs[i].op == evs[j].op ==> evs[i].group == evs[j].group
  }

  ghost predicate OpAbsent(evs: seq<Event>, id: nat) {
    forall i :: 0 <= i < |evs| ==> evs[i].op != id
  }

  ghost predicate History(img0: seq<Block>, s: State) {
    && s.img == Written(img0, s.done)
    && OneGroup(s.done)
    && (forall i :: 0 <= i < |s.done| ==> s.done[i].op < s.nextOp)
    && (forall i :: 0 <= i < |s.cur| ==> s.cur[i].op < s.nextOp)
    && (forall i :: 0 <= i < |s.cur| ==> s.cur[i].group == s.groups)
    && (forall i :: 0 <= i < |s.cur| ==> OpAbsent(s.done, s.cur[i].op))
    && (forall p :: p in s.ops ==> s.ops[p].id < s.nextOp)
    && (forall p :: p in s.ops ==> OpAbsent(s.done, s.ops[p].id))
  }

  lemma GroupsJoin(done: seq<Event>, cur: seq<Event>, group: nat)
    requires OneGroup(done)
    requires forall i :: 0 <= i < |cur| ==> cur[i].group == group && OpAbsent(done, cur[i].op)
    ensures OneGroup(done + cur)
  {
  }

  lemma SealHistory(img0: seq<Block>, g: Geometry, s: State)
    requires History(img0, s) && Enabled(g, s, Seal) && s.ops == map[]
    ensures History(img0, Do(g, s, Seal))
  {
    WrittenConcat(img0, s.done, s.cur);
    GroupsJoin(s.done, s.cur, s.groups);
  }

  lemma LogWriteHistory(img0: seq<Block>, g: Geometry, s: State, p: Pid, b: nat)
    requires History(img0, s) && Enabled(g, s, LogWrite(p, b))
    ensures History(img0, Do(g, s, LogWrite(p, b)))
  {
  }

  lemma BeginHistory(img0: seq<Block>, g: Geometry, s: State, p: Pid)
    requires History(img0, s) && Enabled(g, s, BeginOp(p))
    ensures History(img0, Do(g, s, BeginOp(p)))
  {
  }

  /** The steps that start no operation and log or commit nothing. */
  lemma OtherHistory(g: Geometry, s: State, step: Step, r: State)
    requires Enabled(g, s, step) && r == Do(g, s, step) && !step.Seal? && !step.LogWrite? && !step.BeginOp?
    ensures r.img == s.img && r.done == s.done && r.groups == s.groups && r.nextOp == s.nextOp
    ensures r.cur == s.cur || r.cur == []
    ensures forall p :: p in r.ops ==> p in s.ops && r.ops[p].id == s.ops[p].id
  {
  }

  lemma StepHistory(img0: seq<Block>, g: Geometry, s: State, step: Step)
    requires OpsOk(g, s) && Enabled(g, s, step) && History(img0, s)
    ensures History(img0, Do(g, s, step))
  {
    if step.Seal? {
      SealHistory(img0, g, s);
    } else if step.LogWrite? {
      LogWriteHistory(img0, g, s, step.p, step.b);
    } else if step.BeginOp? {
      BeginHistory(img0, g, s, step.p);
    } else {
      var r := Do(g, s, step);
      OtherHistory(g, s, step, r);
      SameHistory(img0, s, r);
    }
  }

  lemma SameHistory(img0: seq<Block>, s: State, r: State)
    requires History(img0, s)
    requires r.img == s.img && r.done == s.done && r.groups == s.groups && r.nextOp == s.nextOp
    requires r.cur == s.cur || r.cur == []
    requires forall p :: p in r.ops ==> p in s.ops && r.ops[p].id == s.ops[p].id
    ensures History(img0, r)
  {
  }

  lemma {:induction false} RunHistory(g: Geometry, states: seq<State>, steps: seq<Step>, i: nat)
    requires Run(g, states, steps) && i < |states|
    ensures History(states[0].img, states[i])
  {
    if i > 0 {
      RunHistory(g, states, steps, i - 1);
      RunOps(g, states, steps, i - 1);
      StepHistory(states[0].img, g, states[i - 1], steps[i - 1]);
    }
  }

  // ----- theorems -----

  /** Replaying the log of s gives what the committed groups wrote, and an empty log. */
  ghost predicate Atomic(g: Geometry, img0: seq<Block>, s: State) {
    && g.Valid() && Shaped(g, s.disk) && Loggable(g, Entries(s.disk[g.logStart]))
    && SameHome(g, Replay(g, s.disk), Written(img0, s.done))
    && Entries(Replay(g, s.disk)[g.logStart]) == []
  }

  /** The home blocks on disk hold committed content only, and the logged blocks are in the cache. */
  ghost predicate Unstolen(g: Geometry, img0: seq<Block>, s: State) {
    && SameHome(g, s.disk, Written(img0, s.done))
    && forall k :: 0 <= k < |s.lh| ==> s.lh[k] in s.cache && s.cache[s.lh[k]].dirty
  }

  lemma AtomicNow(g: Geometry, img0: seq<Block>, s: State)
    requires Inv(g, s) && History(img0, s)
    ensures Atomic(g, img0, s)
  {
    CrashKeeps(g, s, 0);
    RecoverableReplays(g, s.disk, s.img);
    ReplayClears(g, s.disk);
  }

  lemma UnstolenNow(g: Geometry, img0: seq<Block>, s: State)
    requires Inv(g, s) && History(img0, s) && !Sealed(s.phase) && !Booting(s.phase)
    ensures Unstolen(g, img0, s)
  {
    forall k | 0 <= k < |s.lh| ensures s.lh[k] in s.cache && s.cache[s.lh[k]].dirty {
      assert s.lh[k] in Pending(s.lh, s.phase);
    }
  }

  /** Group commit: no operation is half committed, in any run. */
  lemma WholeOperations(g: Geometry, states: seq<State>, steps: seq<Step>, i: nat)
    requires Run(g, states, steps) && i < |states|
    ensures OneGroup(states[i].done + states[i].cur)
  {
    RunHistory(g, states, steps, i);
    GroupsJoin(states[i].done, states[i].cur, states[i].groups);
  }

  /**
   Crash atomicity. Pull the plug at any point of a run: replaying the log yields exactly
   the effect of the committed groups, and an empty log.
   */
  lemma CrashAtomicity(g: Geometry, states: seq<State>, steps: seq<Step>, i: nat)
    requires RoomyRun(g, states, steps) && i < |states|
    ensures Atomic(g, states[0].img, states[i])
  {
    RunInv(g, states, steps, i);
    RunHistory(g, states, steps, i);
    AtomicNow(g, states[0].img, states[i]);
  }

  lemma StepExtendsDone(g: Geometry, s: State, step: Step, r: State)
    requires Enabled(g, s, step) && r == Do(g, s, step)
    ensures s.done <= r.done
  {
  }

  lemma PrefixThrough(a: seq<Event>, b: seq<Event>, c: seq<Event>)
    requires a <= b && b <= c
    ensures a <= c
  {
  }

  /** Durability: what was committed stays committed, through any number of crashes. */
  lemma {:induction false} CommitsArePrefix(g: Geometry, states: seq<State>, steps: seq<Step>, i: nat, j: nat)
    requires Run(g, states, steps) && i <= j < |states|
    ensures states[i].done <= states[j].done
    decreases j - i
  {
    if i < j {
      CommitsArePrefix(g, states, steps, i, j - 1);
      assert states[j - 1].done <= states[j].done by {
        RunStep(g, states, steps, j - 1);
        StepExtendsDone(g, states[j - 1], steps[j - 1], states[j]);
      }
      PrefixThrough(states[i].done, states[j - 1].done, states[j].done);
    }
  }

  /**
   Once no operation is running and no commit is in progress nothing is pending: every
   log_write is committed and in place on disk, and a waiting begin_op finds an empty log.
   */
  lemma QuiescentIsCommitted(g: Geometry, states: seq<State>, steps: seq<Step>, i: nat)
    requires RoomyRun(g, states, steps) && i < |states|
    requires states[i].phase.Running? && states[i].ops == map[]
    ensures states[i].cur == [] && states[i].lh == []
    ensures SameHome(g, states[i].disk, Written(states[0].img, states[i].done))
    ensures g.maxOp <= g.logSize ==> forall p :: Enabled(g, states[i], BeginOp(p))
  {
    RunInv(g, states, steps, i);
    RunHistory(g, states, steps, i);
    Quiescent(g, states[0].img, states[i]);
  }

  lemma Quiescent(g: Geometry, img0: seq<Block>, s: State)
    requires Inv(g, s) && History(img0, s) && s.phase.Running? && s.ops == map[]
    ensures s.cur == [] && s.lh == [] && SameHome(g, s.disk, Written(img0, s.done))
    ensures g.maxOp <= g.logSize ==> forall p :: Enabled(g, s, BeginOp(p))
  {
    assert |s.cur| == 0;
  }

  /** Committing excludes operations: nothing runs between `begin_op` and `end_op` during a commit. */
  lemma CommitIsQuiet(g: Geometry, states: seq<State>, steps: seq<Step>, i: nat)
    requires Run(g, states, steps) && i < |states|
    ensures Committing(states[i].phase) ==> states[i].ops == map[]
  {
    RunOps(g, states, steps, i);
  }

  /** No-steal: until the header is sealed the home blocks on disk hold the committed content only. */
  lemma NoSteal(g: Geometry, states: seq<State>, steps: seq<Step>, i: nat)
    requires RoomyRun(g, states, steps) && i < |states|
    requires !Sealed(states[i].phase) && !Booting(states[i].phase)
    ensures Unstolen(g, states[0].img, states[i])
  {
    RunInv(g, states, steps, i);
    RunHistory(g, states, steps, i);
    UnstolenNow(g, states[0].img, states[i]);
  }

  /** The cache and the disk together act as one block store: a valid buffer holds the last content logged. */
  lemma ReadsSeeLastWrite(g: Geometry, states: seq<State>, steps: seq<Step>, i: nat, p: Pid, b: nat)
    requires RoomyRun(g, states, steps) && i < |states|
    requires !Booting(states[i].phase) && g.Home(b)
    requires HoldsValid(states[i], p, b) && !states[i].cache[b].touched
    ensures var s := states[i];
      b < |states[0].img| && s.cache[b].data == Written(states[0].img, s.done + s.cur)[b]
  {
    var s := states[i];
    RunInv(g, states, steps, i);
    RunHistory(g, states, steps, i);
    WrittenConcat(states[0].img, s.done, s.cur);
    assert Expected(g, s, b, s.cache[b].data);
  }
}
