/**
 What becomes of a write: it is logged as its caller left it, nothing logged is forgotten before a crash,
 and once the log is quiet it is on disk, where every later crash and recovery finds it.
 */
module LogDurability {
  import opened LogFormat
  import opened LogProtocol
  import opened LogSafety
  import opened LogTheorems
  import opened Options

  // ----- what is logged stays logged -----

  /** What a step logs: one call of log_write its operation, its block and what the buffer holds. */
  function Recorded(s: State, step: Step): seq<Event> {
    if step.LogWrite? && step.p in s.ops && step.b in s.cache
    then [Event(s.ops[step.p].id, s.groups, step.b, s.cache[step.b].data)]
    else []
  }

  /** What each step logs. */
  function Records(states: seq<State>, steps: seq<Step>): seq<seq<Event>> {
    seq(|steps|, k requires 0 <= k < |steps| => if k < |states| then Recorded(states[k], steps[k]) else [])
  }

  function Flat(recs: seq<seq<Event>>, i: nat, j: nat): seq<Event>
    decreases j - i
  {
    if i < j <= |recs| then Flat(recs, i, j - 1) + recs[j - 1] else []
  }

  /** Everything logged in steps `i` to `j`, in order. */
  function Since(states: seq<State>, steps: seq<Step>, i: nat, j: nat): seq<Event> {
    Flat(Records(states, steps), i, j)
  }

  ghost predicate NoCrash(steps: seq<Step>, i: nat, j: nat) {
    forall k :: i <= k < j && k < |steps| ==> !steps[k].Crash?
  }

  lemma StepRecords(g: Geometry, s: State, step: Step, r: State)
    requires Enabled(g, s, step) && r == Do(g, s, step) && !step.Crash?
    ensures r.done + r.cur == s.done + s.cur + Recorded(s, step)
  {
    assert s.done + (s.cur + Recorded(s, step)) == s.done + s.cur + Recorded(s, step);
  }

  /** Committed and open writes, state by state. */
  function Alls(states: seq<State>): seq<seq<Event>> {
    seq(|states|, k requires 0 <= k < |states| => states[k].done + states[k].cur)
  }

  lemma RunRecords(g: Geometry, states: seq<State>, steps: seq<Step>, k: nat, n: nat)
    requires Run(g, states, steps) && n == k + 1 < |states| && !steps[k].Crash?
    ensures states[n].done + states[n].cur == states[k].done + states[k].cur + Recorded(states[k], steps[k])
  {
    RunStep(g, states, steps, k);
    StepRecords(g, states[k], steps[k], states[n]);
  }

  lemma AllsGrow(g: Geometry, states: seq<State>, steps: seq<Step>, k: nat, n: nat)
    requires Run(g, states, steps) && n == k + 1 < |states| && !steps[k].Crash?
    ensures Alls(states)[n] == Alls(states)[k] + Records(states, steps)[k]
  {
    RunRecords(g, states, steps, k, n);
  }

  ghost predicate Extends(alls: seq<seq<Event>>, recs: seq<seq<Event>>, i: nat, j: nat) {
    j < |alls| && j <= |recs| && forall k: nat :: i <= k < j ==> alls[k + 1] == alls[k] + recs[k]
  }

  lemma AllExtend(g: Geometry, states: seq<State>, steps: seq<Step>, i: nat, j: nat)
    requires Run(g, states, steps) && j < |states| && NoCrash(steps, i, j)
    ensures Extends(Alls(states), Records(states, steps), i, j)
  {
    forall k: nat | i <= k < j ensures Alls(states)[k + 1] == Alls(states)[k] + Records(states, steps)[k] {
      AllsGrow(g, states, steps, k, k + 1);
    }
  }

  lemma {:induction false} FlatGrows(alls: seq<seq<Event>>, recs: seq<seq<Event>>, i: nat, j: nat)
    requires i <= j && Extends(alls, recs, i, j)
    ensures alls[j] == alls[i] + Flat(recs, i, j)
    decreases j - i
  {
    if i < j {
      FlatGrows(alls, recs, i, j - 1);
      Appended(alls[i], Flat(recs, i, j - 1), recs[j - 1]);
    }
  }

  lemma Appended(a: seq<Event>, b: seq<Event>, c: seq<Event>)
    ensures a + b + c == a + (b + c)
  {
  }

  /** Without a crash the log holds what it held and, after that, exactly what was logged since. */
  lemma NothingForgotten(g: Geometry, states: seq<State>, steps: seq<Step>, i: nat, j: nat)
    requires Run(g, states, steps) && i <= j < |states| && NoCrash(steps, i, j)
    ensures states[j].done + states[j].cur == states[i].done + states[i].cur + Since(states, steps, i, j)
  {
    AllExtend(g, states, steps, i, j);
    FlatGrows(Alls(states), Records(states, steps), i, j);
  }

  /**
   Group commit keeps its promise: when the log is quiet again, everything logged since, and what was
   open before, is committed in that order and is what the home blocks on disk hold.
   */
  lemma QuietHoldsAll(g: Geometry, states: seq<State>, steps: seq<Step>, i: nat, j: nat)
    requires RoomyRun(g, states, steps) && i <= j < |states| && NoCrash(steps, i, j)
    requires states[j].phase.Running? && states[j].ops == map[]
    ensures states[j].done == states[i].done + states[i].cur + Since(states, steps, i, j)
    ensures SameHome(g, states[j].disk, Written(states[0].img, states[j].done))
  {
    NothingForgotten(g, states, steps, i, j);
    QuiescentIsCommitted(g, states, steps, j);
  }

  // ----- a caller's write is what is logged -----

  /** A step by which p gives its buffer of b another content, or gives it up. */
  predicate GivesUp(step: Step, p: Pid, b: nat) {
    || step.Crash? || step == EndOp(p) || step == Release(p, b)
    || (step.Modify? && step.p == p && step.b == b)
  }

  ghost predicate HoldsData(s: State, p: Pid, b: nat, data: Block) {
    p in s.ops && HoldsValid(s, p, b) && s.cache[b].data == data
  }

  lemma StepHolds(g: Geometry, s: State, step: Step, r: State, p: Pid, b: nat, data: Block)
    requires OpsOk(g, s) && Enabled(g, s, step) && r == Do(g, s, step)
    requires HoldsData(s, p, b, data) && !GivesUp(step, p, b)
    ensures HoldsData(r, p, b, data)
  {
  }

  /** While p has its buffer, nobody else changes it. */
  lemma {:induction false} OwnWriteStays(
      g: Geometry, states: seq<State>, steps: seq<Step>, i: nat, k: nat, p: Pid, b: nat, data: Block)
    requires Run(g, states, steps) && i < k < |states| && steps[i] == Modify(p, b, data)
    requires forall m :: i < m < k ==> !GivesUp(steps[m], p, b)
    ensures HoldsData(states[k], p, b, data)
    decreases k
  {
    RunStep(g, states, steps, k - 1);
    if k > i + 1 {
      OwnWriteStays(g, states, steps, i, k - 1, p, b, data);
      RunOps(g, states, steps, k - 1);
      StepHolds(g, states[k - 1], steps[k - 1], states[k], p, b, data);
    }
  }

  // ----- and it survives -----

  /** Nobody logs block `b` in steps `i` to `j`. */
  ghost predicate NotLogged(steps: seq<Step>, b: nat, i: nat, j: nat) {
    forall k :: i <= k < j && k < |steps| ==> !(steps[k].LogWrite? && steps[k].b == b)
  }

  ghost predicate Avoids(evs: seq<Event>, b: nat) {
    forall k :: 0 <= k < |evs| ==> evs[k].block != b
  }

  /** After a point where nothing is open the history grows, through crashes too, by what is logged from then on. */
  lemma {:induction false} LaterAvoids(g: Geometry, states: seq<State>, steps: seq<Step>, i: nat, n: nat, b: nat)
    returns (more: seq<Event>)
    requires Run(g, states, steps) && i <= n < |states| && states[i].cur == [] && NotLogged(steps, b, i, n)
    ensures states[n].done + states[n].cur == states[i].done + more && Avoids(more, b)
    ensures |states[i].done| <= |states[n].done|
    decreases n - i
  {
    if i == n {
      more := [];
    } else {
      more := LaterAvoids(g, states, steps, i, n - 1, b);
      RunStep(g, states, steps, n - 1);
      more := StepAvoids(g, states[n - 1], steps[n - 1], states[n], states[i].done, more, b);
    }
  }

  lemma StepAvoids(g: Geometry, s: State, step: Step, r: State, base: seq<Event>, more: seq<Event>, b: nat)
    returns (more': seq<Event>)
    requires Enabled(g, s, step) && r == Do(g, s, step) && !(step.LogWrite? && step.b == b)
    requires s.done + s.cur == base + more && |base| <= |s.done| && Avoids(more, b)
    ensures r.done + r.cur == base + more' && |base| <= |r.done| && Avoids(more', b)
  {
    if step.Crash? {
      more' := more[..|s.done| - |base|];
      assert s.done == (base + more)[..|s.done|] == base + more';
      assert r.done + r.cur == s.done;
    } else {
      StepRecords(g, s, step, r);
      more' := more + Recorded(s, step);
      assert base + more + Recorded(s, step) == base + more';
    }
  }

  lemma WrittenLast(img: seq<Block>, evs: seq<Event>, e: Event, more: seq<Event>)
    requires e.block < |img| && Avoids(more, e.block)
    ensures Written(img, evs + [e] + more)[e.block] == e.data
  {
    WrittenConcat(img, evs + [e], more);
    WrittenElsewhere(Written(img, evs + [e]), more, e.block);
    assert (evs + [e])[..|evs|] == evs;
  }

  /** What block `b` was logged with last is what the committed history, complete at `j`, writes to it. */
  lemma LoggedLast(g: Geometry, states: seq<State>, steps: seq<Step>, k: nat, j: nat, b: nat, data: Block)
    returns (evs: seq<Event>, e: Event, more: seq<Event>)
    requires Run(g, states, steps) && k < j < |states| && NoCrash(steps, k, j) && NotLogged(steps, b, k + 1, j)
    requires steps[k].LogWrite? && steps[k].b == b && HoldsData(states[k], steps[k].p, b, data)
    ensures states[j].done + states[j].cur == evs + [e] + more
    ensures e.block == b && e.data == data && Avoids(more, b)
  {
    var s := states[k];
    evs, e, more := s.done + s.cur, Event(s.ops[steps[k].p].id, s.groups, b, data), Since(states, steps, k + 1, j);
    RunStep(g, states, steps, k);
    StepRecords(g, s, steps[k], states[k + 1]);
    NothingForgotten(g, states, steps, k + 1, j);
    SinceAvoids(states, steps, k + 1, j, b);
  }

  lemma SinceAvoids(states: seq<State>, steps: seq<Step>, i: nat, j: nat, b: nat)
    requires NotLogged(steps, b, i, j)
    ensures Avoids(Since(states, steps, i, j), b)
  {
    FlatAvoids(Records(states, steps), i, j, b);
  }

  lemma {:induction false} FlatAvoids(recs: seq<seq<Event>>, i: nat, j: nat, b: nat)
    requires forall k :: i <= k < j && k < |recs| ==> Avoids(recs[k], b)
    ensures Avoids(Flat(recs, i, j), b)
    decreases j - i
  {
    if i < j { FlatAvoids(recs, i, j - 1, b); }
  }

  /**
   Durability from end to end. A process changes a block and logs it, and no other call logs that block. As
   soon as the log is quiet, with no crash so far, the block on disk holds the change, and whatever happens
   then, any number of crashes included, recovering the disk gives the change back.
   */
  lemma WriteSurvives(g: Geometry, states: seq<State>, steps: seq<Step>,
                      i: nat, k: nat, j: nat, n: nat, p: Pid, b: nat, data: Block)
    requires RoomyRun(g, states, steps) && i < k < j <= n < |states|
    requires steps[i] == Modify(p, b, data) && steps[k] == LogWrite(p, b)
    requires forall m :: i < m < k ==> !GivesUp(steps[m], p, b)
    requires states[j].phase.Running? && states[j].ops == map[] && NoCrash(steps, k, j) && NotLogged(steps, b, k + 1, n)
    ensures g.Home(b) && b < |states[j].disk| && states[j].disk[b] == data
    ensures Atomic(g, states[0].img, states[n]) && b < |Replay(g, states[n].disk)|
      && Replay(g, states[n].disk)[b] == data
  {
    RunStep(g, states, steps, i);
    OwnWriteStays(g, states, steps, i, k, p, b, data);
    var evs, e, more := LoggedLast(g, states, steps, k, j, b, data);
    QuiescentIsCommitted(g, states, steps, j);
    RunInv(g, states, steps, 0);
    WrittenLast(states[0].img, evs, e, more);
    assert states[j].done + [] == states[j].done;
    Survives(g, states, steps, j, n, evs, e, more);
  }

  lemma Survives(g: Geometry, states: seq<State>, steps: seq<Step>, j: nat, n: nat,
                 evs: seq<Event>, e: Event, more: seq<Event>)
    requires RoomyRun(g, states, steps) && j <= n < |states| && states[j].cur == [] && NotLogged(steps, e.block, j, n)
    requires states[j].done == evs + [e] + more && Avoids(more, e.block) && g.Home(e.block)
      && e.block < |states[0].img|
    ensures Atomic(g, states[0].img, states[n])
    ensures e.block < |Replay(g, states[n].disk)| && Replay(g, states[n].disk)[e.block] == e.data
  {
    CrashAtomicity(g, states, steps, n);
    var tail := LaterDone(g, states, steps, j, n, e.block);
    WrittenThen(states[0].img, evs, e, more, tail);
  }

  lemma LaterDone(g: Geometry, states: seq<State>, steps: seq<Step>, j: nat, n: nat, b: nat)
    returns (tail: seq<Event>)
    requires Run(g, states, steps) && j <= n < |states| && states[j].cur == [] && NotLogged(steps, b, j, n)
    ensures states[n].done == states[j].done + tail && Avoids(tail, b)
  {
    var more := LaterAvoids(g, states, steps, j, n, b);
    tail := more[..|states[n].done| - |states[j].done|];
    assert states[n].done == (states[n].done + states[n].cur)[..|states[n].done|];
  }

  lemma WrittenThen(img: seq<Block>, evs: seq<Event>, e: Event, more: seq<Event>, tail: seq<Event>)
    requires e.block < |img| && Avoids(more, e.block) && Avoids(tail, e.block)
    ensures Written(img, evs + [e] + more + tail)[e.block] == e.data
  {
    assert evs + [e] + more + tail == evs + [e] + (more + tail);
    WrittenLast(img, evs, e, more + tail);
  }
}
