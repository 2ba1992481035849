/**
 The reservation for operations that keep MAXOPBLOCKS as a bound on the different blocks they log, not on
 their calls of `log_write`. The list stays within LOGSIZE all the same. What such an operation can run into
 is the test of `log_write` on a full list, and only with a block that is already on it.
 */
module LogDistinct {
  import opened LogFormat
  import opened LogProtocol
  import opened LogSafety
  import opened LogTheorems
  import opened LogReservation
  import opened Options

  /** The blocks operation `id` has logged in the open group. */
  ghost function Blocks(cur: seq<Event>, id: nat): set<nat> {
    set k | 0 <= k < |cur| && cur[k].op == id :: cur[k].block
  }

  /** The caller's part: no operation logs more than MAXOPBLOCKS different blocks. */
  ghost predicate WithinDistinct(g: Geometry, s: State, step: Step) {
    (step.Test? || step.LogWrite?) && step.p in s.ops ==>
      |Blocks(s.cur, s.ops[step.p].id) + {step.b}| <= g.maxOp
  }

  ghost predicate DistinctRun(g: Geometry, states: seq<State>, steps: seq<Step>) {
    && Run(g, states, steps)
    && forall i {:trigger steps[i]} :: 0 <= i < |steps| ==> WithinDistinct(g, states[i], steps[i])
  }

  /** The operations, each counted by its blocks. */
  ghost function Counted(ops: map<Pid, Op>, cur: seq<Event>): map<Pid, Op> {
    map p | p in ops :: Op(ops[p].id, |Blocks(cur, ops[p].id)|, ops[p].passed)
  }

  /** Numbers of operations are different and not yet to come, and what is logged is on the list. */
  ghost predicate Numbered(s: State) {
    && DifferentIds(s.ops)
    && (forall p :: p in s.ops ==> s.ops[p].id < s.nextOp)
    && (forall k :: 0 <= k < |s.cur| ==> s.cur[k].op < s.nextOp)
    && (forall k :: 0 <= k < |s.cur| ==> s.cur[k].block in s.lh)
  }

  ghost predicate DistinctReserved(g: Geometry, s: State) {
    && (forall p :: p in s.ops ==> |Blocks(s.cur, s.ops[p].id)| <= g.maxOp)
    && (s.phase.Running? ==> |s.lh| + Unused(Counted(s.ops, s.cur), g.maxOp) <= g.logSize)
    && (!Booting(s.phase) ==> |s.lh| <= g.logSize)
  }

  // ----- each step -----

  lemma BlocksMore(cur: seq<Event>, e: Event, id: nat)
    ensures Blocks(cur + [e], id) == if e.op == id then Blocks(cur, id) + {e.block} else Blocks(cur, id)
  {
    var all := cur + [e];
    forall b ensures b in Blocks(all, id) <==> b in Blocks(cur, id) || (e.op == id && b == e.block) {
      if b in Blocks(cur, id) {
        var k :| 0 <= k < |cur| && cur[k].op == id && cur[k].block == b;
        assert all[k] == cur[k];
      }
      if e.op == id && b == e.block { assert all[|cur|] == e; }
    }
  }

  ghost predicate DifferentIds(ops: map<Pid, Op>) {
    forall p, q :: p in ops && q in ops && ops[p].id == ops[q].id ==> p == q
  }

  /** One more event of operation p counts for p only. */
  lemma CountedEvent(ops: map<Pid, Op>, cur: seq<Event>, p: Pid, op: Op, e: Event)
    requires DifferentIds(ops) && p in ops && op.id == ops[p].id == e.op
    ensures Counted(ops[p := op], cur + [e]) ==
      Counted(ops, cur)[p := Op(op.id, |Blocks(cur, op.id) + {e.block}|, op.passed)]
  {
    var a := Counted(ops[p := op], cur + [e]);
    var c := Counted(ops, cur)[p := Op(op.id, |Blocks(cur, op.id) + {e.block}|, op.passed)];
    forall q | q in a ensures a[q] == c[q] {
      BlocksMore(cur, e, ops[q].id);
    }
    assert a.Keys == c.Keys;
  }

  /** A change of an operation that logs nothing, or a new operation. */
  lemma CountedSet(ops: map<Pid, Op>, cur: seq<Event>, p: Pid, op: Op)
    ensures Counted(ops[p := op], cur) == Counted(ops, cur)[p := Op(op.id, |Blocks(cur, op.id)|, op.passed)]
  {
    var a, c := Counted(ops[p := op], cur), Counted(ops, cur)[p := Op(op.id, |Blocks(cur, op.id)|, op.passed)];
    assert a.Keys == c.Keys;
  }

  lemma CountedEnd(ops: map<Pid, Op>, cur: seq<Event>, p: Pid)
    ensures Counted(ops - {p}, cur) == Counted(ops, cur) - {p}
  {
    var a, c := Counted(ops - {p}, cur), Counted(ops, cur) - {p};
    assert a.Keys == c.Keys;
  }

  lemma CountedSize(ops: map<Pid, Op>, cur: seq<Event>)
    ensures |Counted(ops, cur)| == |ops|
  {
    var c := Counted(ops, cur);
    assert c.Keys == ops.Keys && |c| == |c.Keys| && |ops| == |ops.Keys|;
  }

  /** A block that is not on the list is new to its operation. */
  lemma NewToOp(s: State, id: nat, b: nat)
    requires Numbered(s) && b !in s.lh
    ensures |Blocks(s.cur, id) + {b}| == |Blocks(s.cur, id)| + 1
  {
    assert b !in Blocks(s.cur, id);
  }

  lemma OneMoreAtLeast(a: set<nat>, b: nat)
    ensures |a| <= |a + {b}|
  {
    if b in a { assert a + {b} == a; }
  }

  lemma LogWriteReserved(g: Geometry, s: State, p: Pid, b: nat, r: State)
    requires Numbered(s) && DistinctReserved(g, s) && OpsOk(g, s)
    requires Enabled(g, s, LogWrite(p, b)) && WithinDistinct(g, s, LogWrite(p, b)) && r == Do(g, s, LogWrite(p, b))
    ensures DistinctReserved(g, r)
  {
    var id, c, c' := s.ops[p].id, Counted(s.ops, s.cur), Counted(r.ops, r.cur);
    CountedEvent(s.ops, s.cur, p, r.ops[p], Event(id, s.groups, b, s.cache[b].data));
    UnusedSplit(c, g.maxOp, p);
    UnusedUpdate(c, g.maxOp, p, Op(id, |Blocks(s.cur, id) + {b}|, None));
    OneMoreAtLeast(Blocks(s.cur, id), b);
    if b !in s.lh { NewToOp(s, id, b); }
    forall q | q in r.ops ensures |Blocks(r.cur, r.ops[q].id)| <= g.maxOp {
      assert c'[q].used == |Blocks(r.cur, r.ops[q].id)|;
    }
    UnusedBounds(c', g.maxOp);
  }

  lemma BeginReserved(g: Geometry, s: State, p: Pid, r: State)
    requires Numbered(s) && DistinctReserved(g, s) && Enabled(g, s, BeginOp(p)) && r == Do(g, s, BeginOp(p))
    ensures DistinctReserved(g, r)
  {
    assert Blocks(s.cur, s.nextOp) == {};
    BeginCounts(s.ops, s.cur, |s.lh|, p, Op(s.nextOp, 0, None), g.maxOp, g.logSize);
  }

  lemma BeginCounts(ops: map<Pid, Op>, cur: seq<Event>, n: nat, p: Pid, op: Op, maxOp: nat, limit: nat)
    requires p !in ops && op.used == 0 && Blocks(cur, op.id) == {} && op.passed == None
    requires (forall q :: q in ops ==> |Blocks(cur, ops[q].id)| <= maxOp) && n + (|ops| + 1) * maxOp <= limit
    ensures n + Unused(Counted(ops[p := op], cur), maxOp) <= limit
  {
    var c := Counted(ops, cur);
    CountedSet(ops, cur, p, op);
    CountedSize(ops, cur);
    BeginUnused(c, maxOp, p, op);
    BeginFits(n, |ops|, maxOp, Unused(c, maxOp), limit);
  }

  lemma EndReserved(g: Geometry, s: State, p: Pid, r: State)
    requires DistinctReserved(g, s) && OpsOk(g, s) && Enabled(g, s, EndOp(p)) && r == Do(g, s, EndOp(p))
    ensures DistinctReserved(g, r)
  {
    UnusedSplit(Counted(s.ops, s.cur), g.maxOp, p);
    CountedEnd(s.ops, s.cur, p);
  }

  lemma TestReserved(g: Geometry, s: State, p: Pid, b: nat, r: State)
    requires DistinctReserved(g, s) && Enabled(g, s, Test(p, b)) && r == Do(g, s, Test(p, b))
    ensures DistinctReserved(g, r)
  {
    var c, op := Counted(s.ops, s.cur), Op(s.ops[p].id, |Blocks(s.cur, s.ops[p].id)|, Some(b));
    UnusedSplit(c, g.maxOp, p);
    UnusedUpdate(c, g.maxOp, p, op);
    CountedSet(s.ops, s.cur, p, r.ops[p]);
  }

  /** The other steps change neither operations nor what they logged, while the log is open. */
  lemma OtherReserved(g: Geometry, s: State, step: Step, r: State)
    requires DistinctReserved(g, s) && OpsOk(g, s) && OpsOk(g, r) && Enabled(g, s, step) && r == Do(g, s, step)
    requires !step.Test? && !step.LogWrite? && !step.BeginOp? && !step.EndOp?
    ensures DistinctReserved(g, r)
  {
    OtherOps(g, s, step, r);
    assert r.ops == map[] ==> Counted(r.ops, r.cur) == map[];
  }

  lemma OtherOps(g: Geometry, s: State, step: Step, r: State)
    requires OpsOk(g, s) && OpsOk(g, r) && Enabled(g, s, step) && r == Do(g, s, step)
    requires !step.Test? && !step.LogWrite? && !step.BeginOp? && !step.EndOp?
    ensures r.ops == map[] || (r.ops == s.ops && r.cur == s.cur && r.lh == s.lh && r.phase == s.phase)
    ensures r.phase.Running? && r.ops == map[] ==> r.lh == []
    ensures !Booting(r.phase) ==> r.lh == s.lh || r.lh == []
    ensures !Booting(r.phase) && Booting(s.phase) ==> r.lh == []
  {
  }

  lemma StepReserves(g: Geometry, s: State, step: Step, r: State)
    requires Numbered(s) && DistinctReserved(g, s) && OpsOk(g, s)
    requires Enabled(g, s, step) && WithinDistinct(g, s, step) && r == Do(g, s, step)
    ensures DistinctReserved(g, r)
  {
    if step.Test? {
      TestReserved(g, s, step.p, step.b, r);
    } else if step.LogWrite? {
      LogWriteReserved(g, s, step.p, step.b, r);
    } else if step.BeginOp? {
      BeginReserved(g, s, step.p, r);
    } else if step.EndOp? {
      EndReserved(g, s, step.p, r);
    } else {
      OpsKept(g, s, step);
      OtherReserved(g, s, step, r);
    }
  }

  lemma StepNumbered(g: Geometry, s: State, step: Step, r: State)
    requires Numbered(s) && OpsOk(g, s) && Enabled(g, s, step) && r == Do(g, s, step)
    ensures Numbered(r)
  {
    if step.LogWrite? {
      LogWriteNumbered(g, s, step.p, step.b, r);
    } else if step.BeginOp? || step.EndOp? || step.Test? {
      CallNumbered(g, s, step, r);
    } else {
      OpsKept(g, s, step);
      OtherOps(g, s, step, r);
      OtherNumbers(g, s, step, r);
    }
  }

  lemma LogWriteNumbered(g: Geometry, s: State, p: Pid, b: nat, r: State)
    requires Numbered(s) && Enabled(g, s, LogWrite(p, b)) && r == Do(g, s, LogWrite(p, b))
    ensures Numbered(r)
  {
    LoggedHas(s.lh, b);
  }

  lemma CallNumbered(g: Geometry, s: State, step: Step, r: State)
    requires Numbered(s) && Enabled(g, s, step) && r == Do(g, s, step)
    requires step.BeginOp? || step.EndOp? || step.Test?
    ensures Numbered(r)
  {
  }

  lemma LoggedHas(lh: seq<nat>, b: nat)
    ensures b in Logged(lh, b) && forall c :: c in lh ==> c in Logged(lh, b)
  {
  }

  lemma OtherNumbers(g: Geometry, s: State, step: Step, r: State)
    requires OpsOk(g, s) && Enabled(g, s, step) && r == Do(g, s, step)
    requires !step.Test? && !step.LogWrite? && !step.BeginOp? && !step.EndOp?
    ensures r.nextOp == s.nextOp && (r.cur == [] || (r.cur == s.cur && r.lh == s.lh))
  {
  }

  // ----- runs -----

  lemma {:induction false} RunNumbered(g: Geometry, states: seq<State>, steps: seq<Step>, i: nat)
    requires Run(g, states, steps) && i < |states|
    ensures Numbered(states[i])
  {
    if i > 0 {
      RunNumbered(g, states, steps, i - 1);
      RunOps(g, states, steps, i - 1);
      RunStep(g, states, steps, i - 1);
      StepNumbered(g, states[i - 1], steps[i - 1], states[i]);
    }
  }

  /** The list never holds more than LOGSIZE blocks, however often each of them is logged. */
  lemma {:induction false} RunDistinct(g: Geometry, states: seq<State>, steps: seq<Step>, i: nat)
    requires DistinctRun(g, states, steps) && i < |states|
    ensures DistinctReserved(g, states[i])
  {
    if i > 0 {
      RunDistinct(g, states, steps, i - 1);
      RunNumbered(g, states, steps, i - 1);
      RunOps(g, states, steps, i - 1);
      RunStep(g, states, steps, i - 1);
      StepReserves(g, states[i - 1], steps[i - 1], states[i]);
    }
  }

  /** With the log as large as promised such an operation panics only on a block that is already on a full list. */
  lemma OnlyRelogPanics(g: Geometry, states: seq<State>, steps: seq<Step>, i: nat, p: Pid, b: nat)
    requires DistinctRun(g, states, steps) && i < |states| && g.logSize < g.nlog
    requires p in states[i].ops && TooBig(g, states[i]) && WithinDistinct(g, states[i], Test(p, b))
    ensures b in states[i].lh && |states[i].lh| == g.logSize
  {
    var s := states[i];
    RunDistinct(g, states, steps, i);
    RunNumbered(g, states, steps, i);
    RunOps(g, states, steps, i);
    var c := Counted(s.ops, s.cur);
    UnusedSplit(c, g.maxOp, p);
    UnusedBounds(c - {p}, g.maxOp);
    if b !in s.lh { NewToOp(s, s.ops[p].id, b); }
  }
}
