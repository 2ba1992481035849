/**
 sleep and wakeup as a transition system: any number of processes test a condition under a
 lock `lk` and sleep on its channel, others make it true and wake the channel up.
 ptable.lock orders going to sleep against waking up.
 */
module SleepWakeup {
  import opened Options

  type Pid = nat

  datatype Pc =
    | Out                     // outside, no lock held
    | Inside                  // holds lk, may test or change the condition
    | Committed               // tested it false and called sleep; wants ptable.lock
    | Both                    // in sleep, holds lk (if any) and ptable.lock
    | Going                   // in sleep, lk released, holds ptable.lock
    | Asleep                  // SLEEPING on the channel
    | Runnable                // woken, not running yet
    | Back                    // resumed inside sleep with ptable.lock held
    | Waiting                 // in sleep, ptable.lock released, wants lk again
    | Waking(inside: bool)    // in wakeup, wants ptable.lock
    | Scanning(inside: bool)  // in wakeup1, holds ptable.lock

  /** ptable.lock passes to the scheduler in sched, and from it to a resumed process. */
  datatype Holder = Nobody | Scheduler | Proc(p: Pid)

  datatype State = State(
    pc: map<Pid, Pc>,           // absent: Out
    lk: Option<Pid>,
    pt: Holder,
    cond: bool,
    // history
    rises: nat,                 // how often the condition became true
    tested: map<Pid, nat>,      // `rises` at the last test that found it false
    issued: map<Pid, nat>,      // `rises` when the process called wakeup
    signalled: nat,             // the largest such number among completed wakeups
    bare: set<Pid>)             // whose sleep was called without a lock

  function At(s: State, p: Pid): Pc {
    if p in s.pc then s.pc[p] else Out
  }

  function Tested(s: State, p: Pid): nat {
    if p in s.tested then s.tested[p] else 0
  }

  function Issued(s: State, p: Pid): nat {
    if p in s.issued then s.issued[p] else 0
  }

  function Go(s: State, p: Pid, pc: Pc): State {
    s.(pc := s.pc[p := pc])
  }

  /** wakeup1: every process sleeping on the channel becomes runnable. */
  function Woken(pc: map<Pid, Pc>): map<Pid, Pc> {
    map p | p in pc :: if pc[p].Asleep? then Runnable else pc[p]
  }

  datatype Step =
    | AcquireLk(p: Pid)        // acquire(lk), at first or when sleep returns
    | ReleaseLk(p: Pid)
    | SetCond(p: Pid, v: bool)
    | TestFalse(p: Pid)        // under lk
    | TestBare(p: Pid)         // without a lock: sleep(chan, 0)
    | SleepAcquire(p: Pid)     // acquire(&ptable.lock)
    | SleepRelease(p: Pid)     // if(lk) release(lk)
    | SleepSched(p: Pid)       // chan and state set, sched()
    | CallWakeup(p: Pid)
    | WakeAcquire(p: Pid)
    | Wakeup1(p: Pid)          // wakeup1 and release(&ptable.lock)
    | SchedAcquire
    | SchedRelease
    | Resume(p: Pid)           // the scheduler runs a runnable process
    | SleepReturn(p: Pid)      // chan cleared, release(&ptable.lock)
    | Kill(p: Pid)             // kill: a sleeping process becomes runnable

  /** `locked`: sleepers hold lk from the test of the condition on. */
  predicate Enabled(locked: bool, s: State, step: Step) {
    match step
    case AcquireLk(p) => s.lk.None? && (At(s, p).Out? || At(s, p).Waiting?)
    case ReleaseLk(p) => At(s, p).Inside?
    case SetCond(p, v) => At(s, p).Inside?
    case TestFalse(p) => At(s, p).Inside? && !s.cond
    case TestBare(p) => !locked && At(s, p).Out? && !s.cond
    case SleepAcquire(p) => At(s, p).Committed? && s.pt.Nobody?
    case SleepRelease(p) => At(s, p).Both?
    case SleepSched(p) => At(s, p).Going?
    case CallWakeup(p) => At(s, p).Inside? || At(s, p).Out?
    case WakeAcquire(p) => At(s, p).Waking? && s.pt.Nobody?
    case Wakeup1(p) => At(s, p).Scanning?
    case SchedAcquire => s.pt.Nobody?
    case SchedRelease => s.pt.Scheduler?
    case Resume(p) => At(s, p).Runnable? && s.pt.Scheduler?
    case SleepReturn(p) => At(s, p).Back?
    case Kill(p) => At(s, p).Asleep? && s.pt.Nobody?
  }

  function Do(locked: bool, s: State, step: Step): State
    requires Enabled(locked, s, step)
  {
    match step
    case AcquireLk(p) => Go(s, p, Inside).(lk := Some(p))
    case ReleaseLk(p) => Go(s, p, Out).(lk := None)
    case SetCond(p, v) => s.(cond := v, rises := if v && !s.cond then s.rises + 1 else s.rises)
    case TestFalse(p) => Go(s, p, Committed).(tested := s.tested[p := s.rises], bare := s.bare - {p})
    case TestBare(p) => Go(s, p, Committed).(tested := s.tested[p := s.rises], bare := s.bare + {p})
    case SleepAcquire(p) => Go(s, p, Both).(pt := Proc(p))
    case SleepRelease(p) => if p in s.bare then Go(s, p, Going) else Go(s, p, Going).(lk := None)
    case SleepSched(p) => Go(s, p, Asleep).(pt := Scheduler)
    case CallWakeup(p) => Go(s, p, Waking(At(s, p).Inside?)).(issued := s.issued[p := s.rises])
    case WakeAcquire(p) => Go(s, p, Scanning(At(s, p).inside)).(pt := Proc(p))
    case Wakeup1(p) =>
      Go(s.(pc := Woken(s.pc)), p, if At(s, p).inside then Inside else Out).(
        pt := Nobody, signalled := if s.signalled < Issued(s, p) then Issued(s, p) else s.signalled)
    case SchedAcquire => s.(pt := Scheduler)
    case SchedRelease => s.(pt := Nobody)
    case Resume(p) => Go(s, p, Back).(pt := Proc(p))
    case SleepReturn(p) => Go(s, p, if p in s.bare then Out else Waiting).(pt := Nobody)
    case Kill(p) => Go(s, p, Runnable)
  }

  predicate Init(s: State) {
    s.pc == map[] && s.lk.None? && s.pt.Nobody? && s.tested == map[] && s.issued == map[] && s.signalled == 0
    && s.bare == {}
  }

  ghost predicate Run(locked: bool, states: seq<State>, steps: seq<Step>) {
    && |states| == |steps| + 1 && Init(states[0])
    && forall i {:trigger steps[i]} :: 0 <= i < |steps| ==>
         Enabled(locked, states[i], steps[i]) && states[i + 1] == Do(locked, states[i], steps[i])
  }

  // ----- invariant -----

  predicate HoldsLk(pc: Pc) {
    pc.Inside? || pc.Committed? || pc.Both? || (pc.Waking? && pc.inside) || (pc.Scanning? && pc.inside)
  }

  predicate HoldsPt(pc: Pc) {
    pc.Both? || pc.Going? || pc.Back? || pc.Scanning?
  }

  /** What holds of one process at every moment, when sleepers hold the lock. */
  ghost predicate ProcOk(s: State, p: Pid) {
    var pc := At(s, p);
    && (HoldsLk(pc) <==> s.lk == Some(p))
    && (HoldsPt(pc) <==> s.pt == Proc(p))
    && Tested(s, p) <= s.rises && Issued(s, p) <= s.rises
    && (pc.Committed? || pc.Both? ==> Tested(s, p) == s.rises && !s.cond)
    && (pc.Going? || pc.Asleep? ==> s.signalled <= Tested(s, p))
    && (pc.Going? || pc.Asleep? ==> (Tested(s, p) == s.rises ==> !s.cond))
    && p !in s.bare
  }

  ghost predicate Inv(s: State) {
    && s.signalled <= s.rises
    && forall p: Pid :: ProcOk(s, p)
  }

  lemma StepKeeps(s: State, step: Step)
    requires Inv(s) && Enabled(true, s, step)
    ensures Inv(Do(true, s, step))
  {
    if step.CallWakeup? || step.WakeAcquire? || step.Wakeup1? {
      WakeKeeps(s, step);
    } else if step.TestFalse? || step.SleepAcquire? || step.SleepRelease? || step.SleepSched? {
      SleepKeeps(s, step);
    } else if step.AcquireLk? || step.ReleaseLk? || step.SetCond? {
      LockKeeps(s, step);
    } else {
      SchedKeeps(s, step);
    }
  }

  lemma WakeKeeps(s: State, step: Step)
    requires Inv(s) && Enabled(true, s, step) && (step.CallWakeup? || step.WakeAcquire? || step.Wakeup1?)
    ensures Inv(Do(true, s, step))
  {
    var r := Do(true, s, step);
    assert ProcOk(s, step.p);
    forall p: Pid ensures ProcOk(r, p) {
      assert ProcOk(s, p);
    }
  }

  lemma SleepKeeps(s: State, step: Step)
    requires Inv(s) && Enabled(true, s, step)
    requires step.TestFalse? || step.SleepAcquire? || step.SleepRelease? || step.SleepSched?
    ensures Inv(Do(true, s, step))
  {
    var r := Do(true, s, step);
    assert ProcOk(s, step.p);
    forall p: Pid ensures ProcOk(r, p) {
      assert ProcOk(s, p);
    }
  }

  lemma LockKeeps(s: State, step: Step)
    requires Inv(s) && Enabled(true, s, step) && (step.AcquireLk? || step.ReleaseLk? || step.SetCond?)
    ensures Inv(Do(true, s, step))
  {
    var r := Do(true, s, step);
    assert ProcOk(s, step.p);
    forall p: Pid ensures ProcOk(r, p) {
      assert ProcOk(s, p);
    }
  }

  lemma SchedKeeps(s: State, step: Step)
    requires Inv(s) && Enabled(true, s, step)
    requires step.SchedAcquire? || step.SchedRelease? || step.Resume? || step.SleepReturn? || step.Kill?
      || step.TestBare?
    ensures Inv(Do(true, s, step))
  {
    var r := Do(true, s, step);
    assert step.SchedAcquire? || step.SchedRelease? || ProcOk(s, step.p);
    forall p: Pid ensures ProcOk(r, p) {
      assert ProcOk(s, p);
    }
  }

  lemma {:induction false} RunInv(states: seq<State>, steps: seq<Step>, i: nat)
    requires Run(true, states, steps) && i < |states|
    ensures Inv(states[i])
  {
    if i > 0 {
      RunInv(states, steps, i - 1);
      StepKeeps(states[i - 1], steps[i - 1]);
    }
  }

  // ----- theorems -----

  lemma StepSignals(locked: bool, s: State, step: Step, r: State)
    requires Enabled(locked, s, step) && r == Do(locked, s, step)
    ensures s.signalled <= r.signalled
  {
  }

  lemma RunStep(locked: bool, states: seq<State>, steps: seq<Step>, k: nat)
    requires Run(locked, states, steps) && k < |steps|
    ensures Enabled(locked, states[k], steps[k]) && states[k + 1] == Do(locked, states[k], steps[k])
  {
  }

  lemma {:induction false} SignalledGrows(locked: bool, states: seq<State>, steps: seq<Step>, i: nat, j: nat)
    requires Run(locked, states, steps) && i <= j < |states|
    ensures states[i].signalled <= states[j].signalled
    decreases j - i
  {
    if i < j {
      SignalledGrows(locked, states, steps, i, j - 1);
      RunStep(locked, states, steps, j - 1);
      StepSignals(locked, states[j - 1], steps[j - 1], states[j]);
    }
  }

  /**
   No lost wakeup: once a wakeup has been completed, every process that sleeps on the channel, then or
   later, tested the condition after everything that had made it true when that wakeup was called.
   */
  lemma NoLostWakeup(states: seq<State>, steps: seq<Step>, i: nat, j: nat, p: Pid)
    requires Run(true, states, steps) && i < |steps| && steps[i].Wakeup1? && i < j < |states|
    requires At(states[j], p).Asleep?
    ensures Tested(states[j], p) >= Issued(states[i], steps[i].p)
  {
    RunInv(states, steps, j);
    assert ProcOk(states[j], p);
    SignalledGrows(true, states, steps, i + 1, j);
  }

  /** If the condition is true and a wakeup was called since it last became true, nobody is left asleep. */
  lemma NobodyLeftAsleep(states: seq<State>, steps: seq<Step>, i: nat, p: Pid)
    requires Run(true, states, steps) && i < |states|
    requires states[i].cond && states[i].signalled == states[i].rises
    ensures !At(states[i], p).Asleep?
  {
    RunInv(states, steps, i);
    assert ProcOk(states[i], p);
  }

  /** Both locks have one holder at a time. */
  lemma MutualExclusion(states: seq<State>, steps: seq<Step>, i: nat, p: Pid, q: Pid)
    requires Run(true, states, steps) && i < |states| && p != q
    ensures !(HoldsLk(At(states[i], p)) && HoldsLk(At(states[i], q)))
    ensures !(HoldsPt(At(states[i], p)) && HoldsPt(At(states[i], q)))
  {
    RunInv(states, steps, i);
    assert ProcOk(states[i], p) && ProcOk(states[i], q);
  }

  // ----- sleep returns with its lock -----

  /** Inside sleep: the call has begun and lk has not been taken back. */
  predicate InSleep(pc: Pc) {
    pc.Committed? || pc.Both? || pc.Going? || pc.Asleep? || pc.Runnable? || pc.Back? || pc.Waiting?
  }

  /** The steps of sleep, and what others do to a process in it. */
  predicate SleepsOn(step: Step) {
    || step.SleepAcquire? || step.SleepRelease? || step.SleepSched? || step.Resume? || step.SleepReturn?
    || step.Kill? || step.AcquireLk?
  }

  predicate Takes(step: Step, p: Pid) { !step.SchedAcquire? && !step.SchedRelease? && step.p == p }

  lemma SleepStep(locked: bool, s: State, step: Step, r: State, p: Pid)
    requires Enabled(locked, s, step) && r == Do(locked, s, step) && InSleep(At(s, p)) && p !in s.bare
    ensures p !in r.bare && if step == AcquireLk(p) then At(r, p).Inside? && r.lk == Some(p) else InSleep(At(r, p))
    ensures Takes(step, p) ==> SleepsOn(step)
  {
  }

  /**
   A process that found the condition false and called sleep takes no step outside sleep before it holds lk
   again: sleep returns through acquire(lk) only.
   */
  lemma {:induction false} SleepReturnsLocked(
      locked: bool, states: seq<State>, steps: seq<Step>, a: nat, n: nat, p: Pid)
    requires Run(locked, states, steps) && a < n < |states| && steps[a] == TestFalse(p)
    requires forall k :: a < k < n ==> steps[k] != AcquireLk(p)
    ensures InSleep(At(states[n], p)) && p !in states[n].bare
    ensures n < |steps| && Takes(steps[n], p) ==> SleepsOn(steps[n])
    ensures n < |steps| && steps[n] == AcquireLk(p) ==> At(states[n + 1], p).Inside? && states[n + 1].lk == Some(p)
    decreases n
  {
    RunStep(locked, states, steps, n - 1);
    if n > a + 1 {
      SleepReturnsLocked(locked, states, steps, a, n - 1, p);
      SleepStep(locked, states[n - 1], steps[n - 1], states[n], p);
    }
    if n < |steps| {
      RunStep(locked, states, steps, n);
      SleepStep(locked, states[n], steps[n], states[n + 1], p);
    }
  }

  lemma BareStep(locked: bool, s: State, step: Step, r: State, p: Pid)
    requires Enabled(locked, s, step) && r == Do(locked, s, step)
    requires InSleep(At(s, p)) && !At(s, p).Waiting? && p in s.bare
    ensures p in r.bare && if step == SleepReturn(p) then At(r, p).Out? else InSleep(At(r, p)) && !At(r, p).Waiting?
    ensures Takes(step, p) ==> SleepsOn(step) && !step.AcquireLk?
  {
  }

  /** And one that called sleep without a lock comes back without one. */
  lemma {:induction false} BareSleepReturns(
      locked: bool, states: seq<State>, steps: seq<Step>, a: nat, n: nat, p: Pid)
    requires Run(locked, states, steps) && a < n < |states| && steps[a] == TestBare(p)
    requires forall k :: a < k < n ==> steps[k] != SleepReturn(p)
    ensures InSleep(At(states[n], p)) && !At(states[n], p).Waiting? && p in states[n].bare
    ensures n < |steps| && Takes(steps[n], p) ==> SleepsOn(steps[n]) && !steps[n].AcquireLk?
    ensures n < |steps| && steps[n] == SleepReturn(p) ==> At(states[n + 1], p).Out?
    decreases n
  {
    RunStep(locked, states, steps, n - 1);
    if n > a + 1 {
      BareSleepReturns(locked, states, steps, a, n - 1, p);
      BareStep(locked, states[n - 1], steps[n - 1], states[n], p);
    }
    if n < |steps| {
      RunStep(locked, states, steps, n);
      BareStep(locked, states[n], steps[n], states[n + 1], p);
    }
  }

  lemma AsleepStep(locked: bool, s: State, step: Step, r: State, p: Pid)
    requires Enabled(locked, s, step) && r == Do(locked, s, step) && At(r, p).Asleep? && step != SleepSched(p)
    ensures At(s, p).Asleep? && step != Kill(p) && !step.Wakeup1?
  {
  }

  /** A wakeup, or a kill, leaves no process in the sleep it was in: asleep later, it has gone to sleep again. */
  lemma {:induction false} WakesAll(locked: bool, states: seq<State>, steps: seq<Step>, a: nat, n: nat, p: Pid)
    requires Run(locked, states, steps) && a < n < |states| && (steps[a].Wakeup1? || steps[a] == Kill(p))
    requires At(states[n], p).Asleep?
    ensures exists k :: a < k < n && steps[k] == SleepSched(p)
    decreases n
  {
    if steps[n - 1] != SleepSched(p) {
      RunStep(locked, states, steps, n - 1);
      AsleepStep(locked, states[n - 1], steps[n - 1], states[n], p);
      WakesAll(locked, states, steps, a, n - 1, p);
    }
  }

  lemma Extend(states: seq<State>, steps: seq<Step>, step: Step, next: State) returns (ss: seq<State>, ts: seq<Step>)
    requires Run(false, states, steps) && Enabled(false, states[|steps|], step)
      && next == Do(false, states[|steps|], step)
    ensures Run(false, ss, ts) && ss[|ts|] == next
  {
    ss, ts := states + [next], steps + [step];
    forall i | 0 <= i < |ts| ensures Enabled(false, ss[i], ts[i]) && ss[i + 1] == Do(false, ss[i], ts[i]) {
      if i < |steps| {
        assert ss[i] == states[i] && ss[i + 1] == states[i + 1] && ts[i] == steps[i];
      }
    }
  }

  /** The sleeper has tested the condition; then the other process makes it true and calls wakeup. */
  lemma BareTestThenWakeup() returns (states: seq<State>, steps: seq<Step>)
    ensures Run(false, states, steps)
    ensures states[|steps|] ==
      State(map[0 := Committed, 1 := Waking(true)], Some(1), Nobody, true, 1, map[0 := 0], map[1 := 1], 0, {0})
  {
    states, steps := [State(map[], None, Nobody, false, 0, map[], map[], 0, {})], [];
    states, steps := Extend(states, steps, TestBare(0),
      State(map[0 := Committed], None, Nobody, false, 0, map[0 := 0], map[], 0, {0}));
    states, steps := Extend(states, steps, AcquireLk(1),
      State(map[0 := Committed, 1 := Inside], Some(1), Nobody, false, 0, map[0 := 0], map[], 0, {0}));
    states, steps := Extend(states, steps, SetCond(1, true),
      State(map[0 := Committed, 1 := Inside], Some(1), Nobody, true, 1, map[0 := 0], map[], 0, {0}));
    states, steps := Extend(states, steps, CallWakeup(1),
      State(map[0 := Committed, 1 := Waking(true)], Some(1), Nobody, true, 1, map[0 := 0], map[1 := 1], 0, {0}));
  }

  /** The wakeup finds nobody asleep. */
  lemma BareWakeupDone() returns (states: seq<State>, steps: seq<Step>)
    ensures Run(false, states, steps)
    ensures states[|steps|] ==
      State(map[0 := Committed, 1 := Inside], Some(1), Nobody, true, 1, map[0 := 0], map[1 := 1], 1, {0})
  {
    states, steps := BareTestThenWakeup();
    var pc := map[0 := Committed, 1 := Scanning(true)];
    states, steps := Extend(states, steps, WakeAcquire(1),
      State(pc, Some(1), Proc(1), true, 1, map[0 := 0], map[1 := 1], 0, {0}));
    assert Woken(pc) == pc;
    assert pc[1 := Inside] == map[0 := Committed, 1 := Inside];
    states, steps := Extend(states, steps, Wakeup1(1),
      State(map[0 := Committed, 1 := Inside], Some(1), Nobody, true, 1, map[0 := 0], map[1 := 1], 1, {0}));
  }

  /** The run in which a sleeper without a lock misses the only wakeup. */
  lemma BareSleepLosesWakeup() returns (states: seq<State>, steps: seq<Step>)
    ensures Run(false, states, steps)
    ensures LostWakeup(states[|steps|], 0)
  {
    states, steps := BareWakeupDone();
    states, steps := Extend(states, steps, SleepAcquire(0),
      State(map[0 := Both, 1 := Inside], Some(1), Proc(0), true, 1, map[0 := 0], map[1 := 1], 1, {0}));
    states, steps := Extend(states, steps, SleepRelease(0),
      State(map[0 := Going, 1 := Inside], Some(1), Proc(0), true, 1, map[0 := 0], map[1 := 1], 1, {0}));
    states, steps := Extend(states, steps, SleepSched(0),
      State(map[0 := Asleep, 1 := Inside], Some(1), Scheduler, true, 1, map[0 := 0], map[1 := 1], 1, {0}));
  }

  ghost predicate LostWakeup(s: State, p: Pid) {
    s.cond && s.signalled == s.rises && At(s, p).Asleep?
  }

  /** Holding the lock from the test on is exactly what keeps wakeups from being lost. */
  lemma LockIsExactlyWhatIsNeeded(locked: bool)
    ensures locked <==>
      forall states: seq<State>, steps: seq<Step>, i: nat, p: Pid ::
        Run(locked, states, steps) && i < |states| ==> !LostWakeup(states[i], p)
  {
    if locked {
      forall states: seq<State>, steps: seq<Step>, i: nat, p: Pid | Run(locked, states, steps) && i < |states|
        ensures !LostWakeup(states[i], p)
      {
        if states[i].cond && states[i].signalled == states[i].rises {
          NobodyLeftAsleep(states, steps, i, p);
        }
      }
    } else {
      var states, steps := BareSleepLosesWakeup();
      assert LostWakeup(states[|steps|], 0);
    }
  }
}
