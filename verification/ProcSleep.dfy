/**
 When processes sleep, over whole runs: what ends a sleep, that kill and wakeup leave nobody in the sleep
 they found it in, and that no killed process waits for its children.
 */
module ProcSleep {
  import opened ProcTable
  import opened ProcLife
  import opened Options

  /** The step is for a process asleep in slot `x`: kill, a wakeup of its channel, or an exit it waits for. */
  ghost predicate Rouses(s: Sys, step: Step, x: nat)
    requires x < |s.t|
  {
    match step
    case KillStep(i) => i == x
    case Wakeup(addr) => s.t[x].chan == Other(addr)
    case ExitStep(me) => me < |s.t| && AwaitsExit(s.t, me, s.init, x)
    case _ => false
  }

  /** The process in slot `x` goes to sleep. */
  predicate Dozes(step: Step, x: nat) {
    (step.SleepOn? || step.WaitSleep?) && step.me == x
  }

  /** A sleep ends exactly by such a step, and then the process is runnable; until then the channel is the same. */
  lemma SleepEndsIff(s: Sys, step: Step, x: nat)
    requires Family(s) && Enabled(s, step) && x < |s.t| && s.t[x].state.SLEEPING?
    ensures |Do(s, step).t| == |s.t| && Do(s, step).t[x].chan == s.t[x].chan
    ensures Do(s, step).t[x].state == if Rouses(s, step, x) then RUNNABLE else SLEEPING
  {
    if IsFork(step) {
      ForkLetsSleep(s, step, x);
    } else if step.ExitStep? {
      ExitLeaves(s.t, step.me, s.init);
    }
  }

  lemma ForkLetsSleep(s: Sys, step: Step, x: nat)
    requires Family(s) && Enabled(s, step) && IsFork(step) && x < |s.t| && s.t[x].state.SLEEPING?
    ensures |Do(s, step).t| == |s.t| && Do(s, step).t[x] == s.t[x]
  {
    if !step.AllocProc? { SlotOf(s, step.me); }
  }

  /** And begins exactly when the process itself calls sleep, on the channel it names. */
  lemma SleepBeginsIff(s: Sys, step: Step, x: nat)
    requires Family(s) && Enabled(s, step) && x < |s.t| && !s.t[x].state.SLEEPING?
    ensures |Do(s, step).t| == |s.t|
    ensures Do(s, step).t[x].state.SLEEPING? <==> Dozes(step, x)
    ensures Dozes(step, x) ==> Do(s, step).t[x].chan == if step.SleepOn? then Other(step.addr) else OfProc(x)
  {
    StepGrows(s, step);
    if step.ExitStep? { ExitLeaves(s.t, step.me, s.init); }
  }

  predicate FillsSlot(s: Sys, step: Step, x: nat) {
    (step.StackFail? || step.CopyFail? || step.Publish?) && step.me < |s.t| && s.t[step.me].making == Some(x)
  }

  /** The life of a process: from which step it is in which state. */
  ghost predicate Turns(s: Sys, step: Step, x: nat, q: PState)
    requires x < |s.t|
  {
    match s.t[x].state
    case UNUSED => q == if step.AllocProc? && step.i == x then EMBRYO else UNUSED
    case EMBRYO => q == if !FillsSlot(s, step, x) then EMBRYO else if step.Publish? then RUNNABLE else UNUSED
    case RUNNABLE => q == if step == Dispatch(x) then RUNNING else RUNNABLE
    case RUNNING =>
      q == if step == Yield(x) then RUNNABLE else if Dozes(step, x) then SLEEPING
        else if step == ExitStep(x) then ZOMBIE else RUNNING
    case SLEEPING => q == if Rouses(s, step, x) then RUNNABLE else SLEEPING
    case ZOMBIE => q == if Reaps(step, x) then UNUSED else ZOMBIE
  }

  lemma LifeCycle(s: Sys, step: Step, x: nat)
    requires Family(s) && Enabled(s, step) && x < |s.t|
    ensures |Do(s, step).t| == |s.t| && Turns(s, step, x, Do(s, step).t[x].state)
  {
    if s.t[x].state.SLEEPING? {
      SleepEndsIff(s, step, x);
    } else if IsFork(step) {
      ForkTurns(s, step, x);
    } else if step.ExitStep? {
      ExitLeaves(s.t, step.me, s.init);
    }
  }

  lemma ForkTurns(s: Sys, step: Step, x: nat)
    requires Family(s) && Enabled(s, step) && IsFork(step) && x < |s.t|
    ensures |Do(s, step).t| == |s.t|
    ensures Do(s, step).t[x].state ==
      if step.AllocProc? && step.i == x then EMBRYO
      else if FillsSlot(s, step, x) then (if step.Publish? then RUNNABLE else UNUSED)
      else s.t[x].state
    ensures FillsSlot(s, step, x) ==> s.t[x].state.EMBRYO?
  {
    SlotOf(s, step.me);
  }

  /** A process found asleep that has not gone to sleep since was asleep all the time, and nothing was for it. */
  lemma {:induction false} AsleepSince(states: seq<Sys>, steps: seq<Step>, m: nat, n: nat, x: nat)
    requires Run(states, steps) && m <= n < |states| && x < |states[n].t| && states[n].t[x].state.SLEEPING?
    requires forall k: nat :: m <= k < n && k < |steps| ==> !Dozes(steps[k], x)
    ensures |states[m].t| == |states[n].t| && states[m].t[x].state.SLEEPING?
      && states[m].t[x].chan == states[n].t[x].chan
    ensures m < n ==> !Rouses(states[m], steps[m], x)
    decreases n - m
  {
    if m < n {
      RunGrows(states, steps, m, n);
      RunInv(states, steps, n - 1);
      RunGrows(states, steps, n - 1, n);
      var s := states[n - 1];
      if s.t[x].state.SLEEPING? {
        SleepEndsIff(s, steps[n - 1], x);
        AsleepSince(states, steps, m, n - 1, x);
      } else {
        SleepBeginsIff(s, steps[n - 1], x);
      }
    }
  }

  /** No process hit by kill is still in the sleep it was in: asleep later, it has gone to sleep since. */
  lemma KillEndsSleep(states: seq<Sys>, steps: seq<Step>, m: nat, n: nat, x: nat)
    requires Run(states, steps) && m < n < |states| && steps[m] == KillStep(x)
    requires x < |states[n].t| && states[n].t[x].state.SLEEPING?
    ensures exists k: nat :: m < k < n && k < |steps| && Dozes(steps[k], x)
  {
    if forall k: nat :: m < k < n && k < |steps| ==> !Dozes(steps[k], x) {
      AsleepSince(states, steps, m, n, x);
    }
  }

  /** Nor one that slept on a channel that was woken up. */
  lemma WakeupEndsSleep(states: seq<Sys>, steps: seq<Step>, m: nat, n: nat, x: nat, addr: nat)
    requires Run(states, steps) && m < n < |states| && steps[m] == Wakeup(addr)
    requires x < |states[n].t| && states[n].t[x].state.SLEEPING? && states[n].t[x].chan == Other(addr)
    ensures exists k: nat :: m < k < n && k < |steps| && Dozes(steps[k], x)
  {
    if forall k: nat :: m < k < n && k < |steps| ==> !Dozes(steps[k], x) {
      AsleepSince(states, steps, m, n, x);
    }
  }

  ghost predicate WaitsKilled(p: Proc) { p.killed && p.state.SLEEPING? && p.chan.OfProc? }

  /** A killed process never sleeps in wait, so it returns and can exit. */
  lemma {:induction false} KilledNeverWaits(states: seq<Sys>, steps: seq<Step>, n: nat, x: nat)
    requires Run(states, steps) && n < |states| && x < |states[n].t|
    ensures !WaitsKilled(states[n].t[x])
    decreases n
  {
    if n > 0 {
      RunGrows(states, steps, n - 1, n);
      KilledNeverWaits(states, steps, n - 1, x);
      RunInv(states, steps, n - 1);
      KilledStep(states[n - 1], steps[n - 1], x);
      if states[n - 1].t[x].state.SLEEPING? {
        SleepEndsIff(states[n - 1], steps[n - 1], x);
      } else {
        SleepBeginsIff(states[n - 1], steps[n - 1], x);
      }
    }
  }
}
