/**
 The log space reservation: `begin_op` admits an operation only if the log has room for
 MAXOPBLOCKS more blocks per outstanding operation, so `log_write` does not run out of
 log, provided the log on disk is really as large as LOGSIZE promises.
 */
module LogReservation {
  import opened LogFormat
  import opened LogProtocol
  import opened LogSafety
  import opened LogTheorems
  import opened Options

  /** The caller's part: no operation makes more than MAXOPBLOCKS calls of `log_write`. */
  ghost predicate WithinQuota(g: Geometry, s: State, step: Step) {
    (step.Test? || step.LogWrite?) && step.p in s.ops ==> s.ops[step.p].used < g.maxOp
  }

  ghost predicate QuotaRun(g: Geometry, states: seq<State>, steps: seq<Step>) {
    && Run(g, states, steps)
    && forall i {:trigger steps[i]} :: 0 <= i < |steps| ==> WithinQuota(g, states[i], steps[i])
  }

  /** A process within its quota is about to call `log_write`, and the call would panic. */
  ghost predicate AboutToPanic(g: Geometry, s: State, p: Pid, b: nat) {
    && p in s.ops && Idle(s, p) && s.ops[p].used < g.maxOp
    && g.Home(b) && HoldsValid(s, p, b)
    && TooBig(g, s)
  }

  // ----- the allowance not yet used -----

  ghost function Unused(ops: map<Pid, Op>, maxOp: nat): int
    decreases |ops|
  {
    if ops == map[] then 0
    else
      var p :| p in ops;
      maxOp - ops[p].used + Unused(ops - {p}, maxOp)
  }

  lemma {:induction false} UnusedSplit(ops: map<Pid, Op>, maxOp: nat, p: Pid)
    requires p in ops
    ensures Unused(ops, maxOp) == maxOp - ops[p].used + Unused(ops - {p}, maxOp)
    decreases |ops|
  {
    var q :| q in ops && Unused(ops, maxOp) == maxOp - ops[q].used + Unused(ops - {q}, maxOp);
    if q != p {
      UnusedSplit(ops - {q}, maxOp, p);
      UnusedSplit(ops - {p}, maxOp, q);
      assert ops - {q} - {p} == ops - {p} - {q};
    }
  }

  lemma MulStep(n: nat, m: nat)
    ensures (n + 1) * m == n * m + m
  {
  }

  lemma {:induction false} UnusedBounds(ops: map<Pid, Op>, maxOp: nat)
    requires forall p :: p in ops ==> ops[p].used <= maxOp
    ensures 0 <= Unused(ops, maxOp) <= |ops| * maxOp
    decreases |ops|
  {
    if ops != map[] {
      var p :| p in ops;
      UnusedSplit(ops, maxOp, p);
      UnusedBounds(ops - {p}, maxOp);
      assert |ops - {p}| == |ops| - 1;
      MulStep(|ops| - 1, maxOp);
    }
  }

  lemma UnusedUpdate(ops: map<Pid, Op>, maxOp: nat, p: Pid, op: Op)
    ensures Unused(ops[p := op], maxOp) == maxOp - op.used + Unused(ops - {p}, maxOp)
  {
    UnusedSplit(ops[p := op], maxOp, p);
    assert ops[p := op] - {p} == ops - {p};
  }

  // ----- the reservation invariant -----

  ghost predicate Reserved(g: Geometry, s: State) {
    && (forall p :: p in s.ops ==> s.ops[p].used <= g.maxOp)
    && (s.phase.Running? ==> |s.lh| + Unused(s.ops, g.maxOp) <= g.logSize)
  }

  lemma ReservedLogWrite(g: Geometry, s: State, p: Pid, b: nat)
    requires Reserved(g, s) && OpsOk(g, s) && Enabled(g, s, LogWrite(p, b)) && WithinQuota(g, s, LogWrite(p, b))
    ensures Reserved(g, Do(g, s, LogWrite(p, b)))
  {
    UnusedSplit(s.ops, g.maxOp, p);
    UnusedUpdate(s.ops, g.maxOp, p, s.ops[p].(used := s.ops[p].used + 1, passed := None));
  }

  lemma ReservedBegin(g: Geometry, s: State, p: Pid)
    requires Reserved(g, s) && Enabled(g, s, BeginOp(p))
    ensures Reserved(g, Do(g, s, BeginOp(p)))
  {
    BeginUnused(s.ops, g.maxOp, p, Op(s.nextOp, 0, None));
    BeginFits(|s.lh|, |s.ops|, g.maxOp, Unused(s.ops, g.maxOp), g.logSize);
  }

  lemma BeginUnused(ops: map<Pid, Op>, maxOp: nat, p: Pid, op: Op)
    requires p !in ops && op.used == 0 && forall q :: q in ops ==> ops[q].used <= maxOp
    ensures Unused(ops[p := op], maxOp) == maxOp + Unused(ops, maxOp) && Unused(ops, maxOp) <= |ops| * maxOp
  {
    UnusedBounds(ops, maxOp);
    UnusedUpdate(ops, maxOp, p, op);
    assert ops - {p} == ops;
  }

  lemma BeginFits(n: nat, ops: nat, maxOp: nat, unused: int, limit: nat)
    requires n + (ops + 1) * maxOp <= limit && unused <= ops * maxOp
    ensures n + maxOp + unused <= limit
  {
    assert (ops + 1) * maxOp == ops * maxOp + maxOp;
  }

  lemma ReservedEnd(g: Geometry, s: State, p: Pid)
    requires Reserved(g, s) && OpsOk(g, s) && Enabled(g, s, EndOp(p))
    ensures Reserved(g, Do(g, s, EndOp(p)))
  {
    UnusedSplit(s.ops, g.maxOp, p);
  }

  lemma ReservedTest(g: Geometry, s: State, p: Pid, b: nat)
    requires Reserved(g, s) && Enabled(g, s, Test(p, b))
    ensures Reserved(g, Do(g, s, Test(p, b)))
  {
    UnusedSplit(s.ops, g.maxOp, p);
    UnusedUpdate(s.ops, g.maxOp, p, s.ops[p].(passed := Some(b)));
  }

  lemma StepReserved(g: Geometry, s: State, step: Step)
    requires OpsOk(g, s) && Reserved(g, s) && Enabled(g, s, step) && WithinQuota(g, s, step)
    ensures Reserved(g, Do(g, s, step))
  {
    if step.Test? {
      ReservedTest(g, s, step.p, step.b);
    } else if step.LogWrite? {
      ReservedLogWrite(g, s, step.p, step.b);
    } else if step.BeginOp? {
      ReservedBegin(g, s, step.p);
    } else if step.EndOp? {
      ReservedEnd(g, s, step.p);
    } else {
      OpsKept(g, s, step);
      ReservedOther(g, s, step, Do(g, s, step));
    }
  }

  /** The other steps change neither list nor operations while the log is open. */
  lemma ReservedOther(g: Geometry, s: State, step: Step, r: State)
    requires Reserved(g, s) && Enabled(g, s, step) && r == Do(g, s, step) && OpsOk(g, r) && OpsOk(g, s)
    requires !step.Test? && !step.LogWrite? && !step.BeginOp? && !step.EndOp?
    ensures Reserved(g, r)
  {
  }

  lemma {:induction false} RunReserved(g: Geometry, states: seq<State>, steps: seq<Step>, i: nat)
    requires QuotaRun(g, states, steps) && i < |states|
    ensures Reserved(g, states[i])
  {
    if i > 0 {
      RunReserved(g, states, steps, i - 1);
      RunOps(g, states, steps, i - 1);
      StepReserved(g, states[i - 1], steps[i - 1]);
    }
  }

  /** A call within quota finds the list shorter than LOGSIZE, at its test and at its append. */
  lemma ReservedRoom(g: Geometry, s: State, p: Pid)
    requires OpsOk(g, s) && Reserved(g, s) && p in s.ops && s.ops[p].used < g.maxOp
    ensures |s.lh| < g.logSize
  {
    UnusedSplit(s.ops, g.maxOp, p);
    UnusedBounds(s.ops - {p}, g.maxOp);
  }

  /** With the log as large as promised, a call within quota never finds the log full. */
  lemma NoPanic(g: Geometry, states: seq<State>, steps: seq<Step>, i: nat, p: Pid, b: nat)
    requires QuotaRun(g, states, steps) && i < |states|
    requires g.logSize < g.nlog
    ensures !AboutToPanic(g, states[i], p, b)
  {
    var s := states[i];
    RunReserved(g, states, steps, i);
    RunOps(g, states, steps, i);
    if p in s.ops && s.ops[p].used < g.maxOp {
      ReservedRoom(g, s, p);
    }
  }

  // ----- the test outside the lock -----

  /** At most one operation runs, and what it found out about the list is still so. */
  ghost predicate Alone(g: Geometry, s: State) {
    && |s.ops| <= 1
    && forall p :: p in s.ops && s.ops[p].passed.Some? ==> !TooBig(g, s)
  }

  lemma OneOp(ops: map<Pid, Op>, p: Pid, q: Pid)
    requires |ops| <= 1 && p in ops && q in ops
    ensures p == q
  {
    assert {p, q} <= ops.Keys;
    SubsetFull({p, q}, ops.Keys);
    assert |ops| == |ops.Keys|;
  }

  lemma AloneBegin(g: Geometry, s: State, p: Pid)
    requires Alone(g, s) && Enabled(g, s, BeginOp(p)) && g.logSize < 2 * g.maxOp
    ensures Alone(g, Do(g, s, BeginOp(p)))
  {
    assert |s.ops| == 1 ==> (|s.ops| + 1) * g.maxOp == 2 * g.maxOp;
    assert s.ops == map[];
    assert s.ops[p := Op(s.nextOp, 0, None)] == map[p := Op(s.nextOp, 0, None)];
  }

  lemma AloneCall(g: Geometry, s: State, step: Step)
    requires Alone(g, s) && Enabled(g, s, step) && (step.Test? || step.LogWrite?)
    ensures Alone(g, Do(g, s, step))
  {
    var r := Do(g, s, step);
    assert r.ops.Keys == s.ops.Keys && |r.ops| == |r.ops.Keys| && |s.ops| == |s.ops.Keys|;
    forall q | q in r.ops && r.ops[q].passed.Some? ensures !TooBig(g, r) {
      OneOp(s.ops, step.p, q);
    }
  }

  lemma AloneEnd(g: Geometry, s: State, p: Pid)
    requires Alone(g, s) && Enabled(g, s, EndOp(p))
    ensures Alone(g, Do(g, s, EndOp(p)))
  {
    var ops := s.ops - {p};
    assert ops.Keys == s.ops.Keys - {p} && |ops| == |ops.Keys| && |s.ops| == |s.ops.Keys|;
  }

  lemma AloneOther(g: Geometry, s: State, step: Step, r: State)
    requires Alone(g, s) && OpsOk(g, s) && Enabled(g, s, step) && r == Do(g, s, step)
    requires !step.Test? && !step.LogWrite? && !step.BeginOp? && !step.EndOp?
    ensures Alone(g, r)
  {
    assert r.ops == s.ops || r.ops == map[];
  }

  lemma StepAlone(g: Geometry, s: State, step: Step)
    requires Alone(g, s) && OpsOk(g, s) && Enabled(g, s, step) && g.logSize < 2 * g.maxOp
    ensures Alone(g, Do(g, s, step))
  {
    if step.BeginOp? {
      AloneBegin(g, s, step.p);
    } else if step.EndOp? {
      AloneEnd(g, s, step.p);
    } else if step.Test? || step.LogWrite? {
      AloneCall(g, s, step);
    } else {
      AloneOther(g, s, step, Do(g, s, step));
    }
  }

  lemma {:induction false} RunAlone(g: Geometry, states: seq<State>, steps: seq<Step>, i: nat)
    requires Run(g, states, steps) && i < |states| && g.logSize < 2 * g.maxOp
    ensures Alone(g, states[i])
  {
    if i > 0 {
      RunAlone(g, states, steps, i - 1);
      RunOps(g, states, steps, i - 1);
      RunStep(g, states, steps, i - 1);
      StepAlone(g, states[i - 1], steps[i - 1]);
    }
  }

  /**
   The sizes for which the unlocked test does no harm: the log has a slot for each of LOGSIZE
   blocks, or the cache has no more buffers than the log has blocks, or two operations are
   never admitted together, or nothing is ever logged.
   */
  predicate AtomicSizes(g: Geometry) {
    g.logSize < g.nlog || g.nbuf <= g.nlog || g.logSize < 2 * g.maxOp || g.nlog < 2
  }

  lemma QuotaRoomy(g: Geometry, states: seq<State>, steps: seq<Step>, i: nat)
    requires QuotaRun(g, states, steps) && i < |steps| && AtomicSizes(g)
    ensures Roomy(g, states[i], steps[i])
  {
    RunStep(g, states, steps, i);
    RunOps(g, states, steps, i);
    if steps[i].LogWrite? {
      RunReserved(g, states, steps, i);
      ReservedRoom(g, states[i], steps[i].p);
      if g.logSize < 2 * g.maxOp { RunAlone(g, states, steps, i); }
    }
  }

  /** With such sizes, runs within quota have all the guarantees of LogTheorems. */
  lemma QuotaRunRoomy(g: Geometry, states: seq<State>, steps: seq<Step>)
    requires QuotaRun(g, states, steps) && Shaped(g, states[0].img) && AtomicSizes(g)
    ensures RoomyRun(g, states, steps)
  {
    forall i | 0 <= i < |steps| ensures Roomy(g, states[i], steps[i]) {
      QuotaRoomy(g, states, steps, i);
    }
  }

  // ----- a cache no larger than the log -----

  /** Every logged block has its buffer, and so has the block being logged. */
  lemma CacheRoom(g: Geometry, s: State, step: Step)
    requires Inv(g, s) && Enabled(g, s, step) && |s.cache| <= g.nbuf
    requires g.nbuf <= g.nlog && g.nbuf <= g.logSize
    ensures Roomy(g, s, step)
  {
    if step.LogWrite? && step.b !in s.lh {
      assert s.phase.Running?;
      if |s.lh| >= g.nbuf {
        Jammed(g, s, step.b);
        assert false;
      }
    }
  }

  lemma {:induction false} RunCacheRoom(g: Geometry, states: seq<State>, steps: seq<Step>, i: nat)
    requires Run(g, states, steps) && Shaped(g, states[0].img) && i < |states|
    requires g.nbuf <= g.nlog && g.nbuf <= g.logSize
    ensures Inv(g, states[i])
  {
    if i == 0 {
      InitInv(g, states[0]);
    } else {
      RunCacheRoom(g, states, steps, i - 1);
      RunCache(g, states, steps, i - 1);
      RunStep(g, states, steps, i - 1);
      CacheRoomTo(g, states[i - 1], steps[i - 1], states[i]);
    }
  }

  lemma CacheRoomTo(g: Geometry, s: State, step: Step, r: State)
    requires Inv(g, s) && Enabled(g, s, step) && |s.cache| <= g.nbuf && r == Do(g, s, step)
    requires g.nbuf <= g.nlog && g.nbuf <= g.logSize
    ensures Inv(g, r)
  {
    CacheRoom(g, s, step);
    StepTo(g, s, step, r);
  }

  /** A small cache is enough, for operations of any length: the buffers run out before the log does. */
  lemma SmallCacheRoomy(g: Geometry, states: seq<State>, steps: seq<Step>)
    requires Run(g, states, steps) && Shaped(g, states[0].img) && g.nbuf <= g.nlog && g.nbuf <= g.logSize
    ensures RoomyRun(g, states, steps)
  {
    forall i | 0 <= i < |steps| ensures Roomy(g, states[i], steps[i]) {
      RunCacheRoom(g, states, steps, i);
      RunCache(g, states, steps, i);
      RunStep(g, states, steps, i);
      CacheRoom(g, states[i], steps[i]);
    }
  }
}
