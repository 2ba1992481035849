/**
 The reservation when the log on disk is smaller than LOGSIZE, as with the shipped
 constants: `nlog` counts the header, so LOGSIZE = nlog blocks leave nlog - 1 slots.
 A run that keeps to its quotas then reaches the panic in `log_write`. It can also pass the
 test with two processes at once and log one block more than the log has slots; what the
 commit then does depends on whether the cache has a buffer left for it.
 */
module LogReservationGap {
  import opened LogFormat
  import opened LogProtocol
  import opened LogSafety
  import opened LogTheorems
  import opened LogReservation
  import opened Options

  /** The sizes as param.h and mkfs.c relate them: LOGSIZE is a multiple of MAXOPBLOCKS. */
  ghost predicate Sized(g: Geometry, ops: nat) {
    && g.Valid() && 1 <= g.maxOp && g.logSize == ops * g.maxOp
    && g.nlog <= g.nbuf && g.logStart + 2 * g.nlog <= g.nblocks
  }

  // ----- building a run step by step -----

  function ZeroDisk(g: Geometry): seq<Block> {
    seq(g.nblocks, _ => seq(g.words, _ => 0))
  }

  /** Nothing is committed and the log on disk is empty. */
  ghost predicate Pristine(g: Geometry, s: State) {
    && |s.disk| == g.nblocks && g.logStart < |s.disk|
    && Entries(s.disk[g.logStart]) == [] && s.done == []
  }

  /** The machine is switched on with a disk that is all zero. */
  function ZeroState(g: Geometry): State {
    State(ZeroDisk(g), map[], [], map[], BootRead, 0, ZeroDisk(g), [], [], 0, 0)
  }

  /** Steps taken one after the other, each within quota. */
  ghost predicate Path(g: Geometry, states: seq<State>, steps: seq<Step>) {
    && |states| == |steps| + 1
    && forall i {:trigger steps[i]} :: 0 <= i < |steps| ==>
      && Enabled(g, states[i], steps[i]) && WithinQuota(g, states[i], steps[i])
      && states[i + 1] == Do(g, states[i], steps[i])
  }

  ghost predicate Built(g: Geometry, states: seq<State>, steps: seq<Step>) {
    && Path(g, states, steps)
    && states[0] == ZeroState(g)
    && Pristine(g, states[|steps|])
  }

  lemma BuiltIsRun(g: Geometry, states: seq<State>, steps: seq<Step>)
    requires g.Valid() && Built(g, states, steps)
    ensures QuotaRun(g, states, steps) && Shaped(g, states[0].img)
  {
    assert Entries(ZeroDisk(g)[g.logStart]) == [];
  }

  /** The steps that write no block. */
  predicate Mild(step: Step) {
    step.Hit? || step.Miss? || step.Load? || step.Modify? || step.Test? || step.LogWrite? || step.Release?
    || step.BeginOp? || step.EndOp? || step.BootHead?
  }

  lemma MildDisk(g: Geometry, s: State, step: Step, r: State)
    requires Enabled(g, s, step) && Mild(step) && r == Do(g, s, step)
    ensures r.disk == s.disk && r.done == s.done
  {
  }

  lemma ExtendAny(g: Geometry, states: seq<State>, steps: seq<Step>, step: Step)
    returns (ss: seq<State>, ts: seq<Step>)
    requires Path(g, states, steps)
    requires Enabled(g, states[|steps|], step) && WithinQuota(g, states[|steps|], step)
    ensures Path(g, ss, ts) && ss[0] == states[0]
    ensures ss[|ts|] == Do(g, states[|steps|], step)
  {
    ss := states + [Do(g, states[|steps|], step)];
    ts := steps + [step];
    forall i | 0 <= i < |ts|
      ensures Enabled(g, ss[i], ts[i]) && ss[i + 1] == Do(g, ss[i], ts[i]) && WithinQuota(g, ss[i], ts[i])
    {
      if i < |steps| {
        assert ss[i] == states[i] && ss[i + 1] == states[i + 1] && ts[i] == steps[i];
      }
    }
  }

  lemma Extend(g: Geometry, states: seq<State>, steps: seq<Step>, step: Step) returns (ss: seq<State>, ts: seq<Step>)
    requires Built(g, states, steps) && Mild(step)
    requires Enabled(g, states[|steps|], step) && WithinQuota(g, states[|steps|], step)
    ensures Built(g, ss, ts)
    ensures ss[|ts|] == Do(g, states[|steps|], step)
  {
    ss, ts := ExtendAny(g, states, steps, step);
    MildDisk(g, states[|steps|], step, ss[|ts|]);
  }

  /** The i-th block after the log. */
  function Blk(g: Geometry, i: nat): nat {
    g.logStart + g.nlog + i
  }

  ghost predicate Loaded(g: Geometry, cache: map<nat, Buf>, i: nat) {
    && |cache| == i + 1
    && (forall b :: b in cache <==> Blk(g, 0) <= b <= Blk(g, i))
    && (forall b :: b in cache ==> cache[b].busy.None? && cache[b].valid && !cache[b].touched)
  }

  /** `n` operations have begun and none has logged anything. */
  ghost predicate Begun(g: Geometry, s: State, n: nat) {
    && s.phase.Running? && s.lh == []
    && |s.ops| == n
    && (forall p: Pid :: p in s.ops <==> p < n)
    && (forall p :: p in s.ops ==> s.ops[p].used == 0 && s.ops[p].passed.None?)
    && Loaded(g, s.cache, 0)
  }

  /** Calls process `p` has made when the operations have logged `i` blocks in turn. */
  function UsedBy(ops: nat, i: nat, p: nat): nat
    requires 1 <= ops
  {
    i / ops + if p < i % ops then 1 else 0
  }

  ghost predicate Turns(s: State, ops: nat, i: nat)
    requires 1 <= ops
  {
    && (forall p: Pid :: p in s.ops <==> p < ops)
    && (forall p :: p in s.ops ==> s.ops[p].used == UsedBy(ops, i, p) && s.ops[p].passed.None?)
  }

  /** `i` different blocks have been logged, the operations taking turns. */
  ghost predicate Level(g: Geometry, s: State, ops: nat, i: nat)
    requires 1 <= ops
  {
    && s.phase.Running?
    && |s.lh| == i && (forall k :: 0 <= k < i ==> s.lh[k] == Blk(g, k))
    && Turns(s, ops, i)
    && Loaded(g, s.cache, i)
  }

  /** The recovering process holds the header block of an empty log. */
  ghost predicate HeadLoaded(g: Geometry, s: State, p: Pid) {
    && s.phase.BootRead? && s.owner == p && s.lh == [] && s.ops == map[]
    && s.cache == map[g.logStart := Buf(seq(g.words, _ => 0), true, false, Some(p), false)]
  }

  lemma Booting0(g: Geometry) returns (states: seq<State>, steps: seq<Step>)
    requires g.Valid() && 1 <= g.nbuf
    ensures Built(g, states, steps)
    ensures HeadLoaded(g, states[|steps|], 0)
  {
    assert Entries(ZeroDisk(g)[g.logStart]) == [];
    states, steps := [ZeroState(g)], [];
    states, steps := Extend(g, states, steps, Miss(0, g.logStart, None));
    states, steps := Extend(g, states, steps, Load(0, g.logStart));
  }

  /** Recovery of an empty log is over. */
  ghost predicate Recovered(g: Geometry, s: State) {
    && s.phase.Running? && s.lh == [] && s.ops == map[]
    && s.cache.Keys == {g.logStart} && s.cache[g.logStart].busy.None? && !s.cache[g.logStart].dirty
  }

  lemma Booting1(g: Geometry) returns (states: seq<State>, steps: seq<Step>)
    requires g.Valid() && 1 <= g.nbuf
    ensures Built(g, states, steps)
    ensures Recovered(g, states[|steps|])
  {
    states, steps := Booting0(g);
    assert Entries(states[|steps|].cache[g.logStart].data) == [];
    states, steps := Extend(g, states, steps, BootHead);
    states, steps := Extend(g, states, steps, Hit(0, g.logStart));
    HeadRoundTrip(states[|steps|].cache[g.logStart].data, []);
    states, steps := ExtendAny(g, states, steps, BootErase);
  }

  lemma SingleLoaded(g: Geometry, data: Block)
    ensures Loaded(g, map[Blk(g, 0) := Buf(data, true, false, None, false)], 0)
  {
    var c := map[Blk(g, 0) := Buf(data, true, false, None, false)];
    assert c.Keys == {Blk(g, 0)} && |c| == |c.Keys|;
  }

  /** One clean free buffer, of the first block after the log. */
  lemma Preload(g: Geometry, s: State)
    requires Recovered(g, s) && g.Valid() && Blk(g, 0) < g.nblocks
    ensures var b := Blk(g, 0);
      && Enabled(g, s, Miss(0, b, Some(g.logStart)))
      && var s1 := Do(g, s, Miss(0, b, Some(g.logStart)));
      && Enabled(g, s1, Load(0, b))
      && var s2 := Do(g, s1, Load(0, b));
      && Enabled(g, s2, Release(0, b))
      && Begun(g, Do(g, s2, Release(0, b)), 0)
  {
    var b := Blk(g, 0);
    var s1 := Do(g, s, Miss(0, b, Some(g.logStart)));
    assert s1.cache == map[b := Buf([], false, false, Some(0), false)];
    var s2 := Do(g, s1, Load(0, b));
    assert s2.cache == map[b := Buf(DiskAt(s.disk, b), true, false, Some(0), false)];
    var s3 := Do(g, s2, Release(0, b));
    assert s3.cache == map[b := Buf(DiskAt(s.disk, b), true, false, None, false)];
    SingleLoaded(g, DiskAt(s.disk, b));
  }

  lemma Booted(g: Geometry, ops: nat) returns (states: seq<State>, steps: seq<Step>)
    requires Sized(g, ops)
    ensures Built(g, states, steps)
    ensures Begun(g, states[|steps|], 0)
  {
    states, steps := Booting1(g);
    Preload(g, states[|steps|]);
    states, steps := Extend(g, states, steps, Miss(0, Blk(g, 0), Some(g.logStart)));
    states, steps := Extend(g, states, steps, Load(0, Blk(g, 0)));
    states, steps := Extend(g, states, steps, Release(0, Blk(g, 0)));
  }

  lemma BeginNext(g: Geometry, ops: nat, n: nat, s: State)
    requires Sized(g, ops) && n < ops && Begun(g, s, n)
    ensures Enabled(g, s, BeginOp(n)) && Begun(g, Do(g, s, BeginOp(n)), n + 1)
  {
    MulMono(n + 1, ops, g.maxOp);
    assert n !in s.ops;
  }

  lemma {:induction false} BeginAll(g: Geometry, ops: nat, n: nat) returns (states: seq<State>, steps: seq<Step>)
    requires Sized(g, ops) && n <= ops
    ensures Built(g, states, steps)
    ensures Begun(g, states[|steps|], n)
  {
    if n == 0 {
      states, steps := Booted(g, ops);
    } else {
      states, steps := BeginAll(g, ops, n - 1);
      BeginNext(g, ops, n - 1, states[|steps|]);
      states, steps := Extend(g, states, steps, BeginOp(n - 1));
    }
  }

  lemma DivStep(i: nat, m: nat)
    requires 1 <= m
    ensures if i % m + 1 < m then (i + 1) / m == i / m && (i + 1) % m == i % m + 1
            else (i + 1) / m == i / m + 1 && (i + 1) % m == 0 && i % m == m - 1
  {
    if i % m + 1 < m {
      DivUnique(i + 1, m, i / m, i % m + 1);
    } else {
      assert (i / m + 1) * m == i / m * m + m;
      DivUnique(i + 1, m, i / m + 1, 0);
    }
  }

  lemma MulMono(a: nat, b: nat, m: nat)
    ensures a <= b ==> a * m <= b * m
  {
    assert a <= b ==> b * m == a * m + (b - a) * m;
  }

  lemma DivUnique(x: nat, m: nat, q: nat, r: nat)
    requires 1 <= m && r < m && x == q * m + r
    ensures x / m == q && x % m == r
  {
    var q', r' := x / m, x % m;
    assert x == q' * m + r' && 0 <= r' < m;
    MulMono(q' + 1, q, m);
    MulMono(q + 1, q', m);
  }

  lemma DivBound(i: nat, m: nat, k: nat)
    requires 1 <= m && i < k * m
    ensures i / m < k
  {
    MulMono(k, i / m, m);
  }

  /** Which operation logs block `i`. */
  lemma Logger(g: Geometry, ops: nat, i: nat) returns (p: nat)
    requires Sized(g, ops) && i < g.logSize
    ensures 1 <= ops && p == i % ops && p < ops
    ensures UsedBy(ops, i, p) < g.maxOp && UsedBy(ops, i + 1, p) == UsedBy(ops, i, p) + 1
    ensures forall q: nat :: q < ops && q != p ==> UsedBy(ops, i + 1, q) == UsedBy(ops, i, q)
  {
    p := i % ops;
    DivBound(i, ops, g.maxOp);
    DivStep(i, ops);
  }

  /** `i` blocks are logged and the next one is not loaded yet. */
  ghost predicate HalfLevel(g: Geometry, s: State, ops: nat, i: nat)
    requires 1 <= ops
  {
    && 1 <= i && s.phase.Running?
    && |s.lh| == i && (forall k :: 0 <= k < i ==> s.lh[k] == Blk(g, k))
    && Turns(s, ops, i)
    && Loaded(g, s.cache, i - 1)
  }

  /** The state after a whole `log_write` without interference. */
  function Called(s: State, p: Pid, b: nat): State
    requires p in s.ops && b in s.cache
  {
    s.(cache := s.cache[b := s.cache[b].(dirty := true, touched := false)],
       lh := Logged(s.lh, b),
       ops := s.ops[p := Op(s.ops[p].id, s.ops[p].used + 1, None)],
       cur := s.cur + [Event(s.ops[p].id, s.groups, b, s.cache[b].data)])
  }

  lemma Call(g: Geometry, s: State, p: Pid, b: nat)
    requires p in s.ops && Idle(s, p) && s.ops[p].used < g.maxOp
    requires g.Home(b) && HoldsValid(s, p, b) && !TooBig(g, s)
    ensures Enabled(g, s, Test(p, b)) && WithinQuota(g, s, Test(p, b))
    ensures var s' := Do(g, s, Test(p, b));
      && Enabled(g, s', LogWrite(p, b)) && WithinQuota(g, s', LogWrite(p, b))
      && Do(g, s', LogWrite(p, b)) == Called(s, p, b)
  {
  }

  lemma LogNext(g: Geometry, ops: nat, i: nat, s: State, p: Pid, s2: State)
    requires Sized(g, ops) && 1 <= ops && i < g.logSize && i + 1 < g.nlog && Level(g, s, ops, i)
    requires p < ops && UsedBy(ops, i + 1, p) == UsedBy(ops, i, p) + 1
    requires forall q: nat :: q < ops && q != p ==> UsedBy(ops, i + 1, q) == UsedBy(ops, i, q)
    requires s2 == Called(Do(g, s, Hit(p, Blk(g, i))), p, Blk(g, i))
    ensures Enabled(g, s2, Release(p, Blk(g, i)))
    ensures HalfLevel(g, Do(g, s2, Release(p, Blk(g, i))), ops, i + 1)
  {
    var b := Blk(g, i);
    assert b !in s.lh;
    assert s2.lh == s.lh + [b];
    var s3 := Do(g, s2, Release(p, b));
    assert s3.cache == s.cache[b := s.cache[b].(dirty := true)];
    assert Loaded(g, s3.cache, i);
  }

  lemma LogOne(g: Geometry, ops: nat, i: nat, states: seq<State>, steps: seq<Step>)
    returns (ss: seq<State>, ts: seq<Step>)
    requires Sized(g, ops) && 1 <= ops && i < g.logSize && i + 1 < g.nlog
    requires Built(g, states, steps) && Level(g, states[|steps|], ops, i)
    ensures Built(g, ss, ts)
    ensures HalfLevel(g, ss[|ts|], ops, i + 1)
  {
    var p := Logger(g, ops, i);
    var b := Blk(g, i);
    ss, ts := Extend(g, states, steps, Hit(p, b));
    Call(g, ss[|ts|], p, b);
    ss, ts := Extend(g, ss, ts, Test(p, b));
    ss, ts := Extend(g, ss, ts, LogWrite(p, b));
    LogNext(g, ops, i, states[|steps|], p, ss[|ts|]);
    ss, ts := Extend(g, ss, ts, Release(p, b));
  }

  lemma LoadNext(g: Geometry, ops: nat, i: nat, s: State)
    requires Sized(g, ops) && 1 <= ops && i < g.nlog && HalfLevel(g, s, ops, i)
    ensures var b := Blk(g, i);
      && Enabled(g, s, Miss(0, b, None))
      && var s1 := Do(g, s, Miss(0, b, None));
      && Enabled(g, s1, Load(0, b))
      && var s2 := Do(g, s1, Load(0, b));
      && Enabled(g, s2, Release(0, b))
      && Level(g, Do(g, s2, Release(0, b)), ops, i)
  {
    var b := Blk(g, i);
    var s1 := Do(g, s, Miss(0, b, None));
    assert s1.cache == s.cache[b := Buf([], false, false, Some(0), false)];
    var s2 := Do(g, s1, Load(0, b));
    assert s2.cache == s.cache[b := Buf(DiskAt(s.disk, b), true, false, Some(0), false)];
    var s3 := Do(g, s2, Release(0, b));
    assert s3.cache == s.cache[b := Buf(DiskAt(s.disk, b), true, false, None, false)];
    assert Loaded(g, s3.cache, i);
  }

  lemma LoadOne(g: Geometry, ops: nat, i: nat, states: seq<State>, steps: seq<Step>)
    returns (ss: seq<State>, ts: seq<Step>)
    requires Sized(g, ops) && 1 <= ops && i < g.nlog
    requires Built(g, states, steps) && HalfLevel(g, states[|steps|], ops, i)
    ensures Built(g, ss, ts)
    ensures Level(g, ss[|ts|], ops, i)
  {
    var b := Blk(g, i);
    LoadNext(g, ops, i, states[|steps|]);
    ss, ts := Extend(g, states, steps, Miss(0, b, None));
    ss, ts := Extend(g, ss, ts, Load(0, b));
    ss, ts := Extend(g, ss, ts, Release(0, b));
  }

  lemma {:induction false} LogBlocks(g: Geometry, ops: nat, i: nat) returns (states: seq<State>, steps: seq<Step>)
    requires Sized(g, ops) && 1 <= ops && i <= g.logSize && i < g.nlog
    ensures Built(g, states, steps)
    ensures Level(g, states[|steps|], ops, i)
  {
    if i == 0 {
      states, steps := BeginAll(g, ops, ops);
    } else {
      states, steps := LogBlocks(g, ops, i - 1);
      states, steps := LogOne(g, ops, i - 1, states, steps);
      states, steps := LoadOne(g, ops, i, states, steps);
    }
  }

  /** A log with fewer than LOGSIZE slots can be overrun by operations that all keep to their quota. */
  lemma PanicReachable(g: Geometry, ops: nat) returns (states: seq<State>, steps: seq<Step>, p: Pid, b: nat)
    requires Sized(g, ops) && g.nlog <= g.logSize
    ensures QuotaRun(g, states, steps) && Shaped(g, states[0].img)
    ensures AboutToPanic(g, states[|steps|], p, b)
  {
    MulMono(ops, 0, g.maxOp);
    var ss, ts := LogBlocks(g, ops, g.nlog - 1);
    p := Logger(g, ops, g.nlog - 1);
    b := Blk(g, g.nlog - 1);
    PanicNext(g, ops, ss[|ts|], p);
    states, steps := Extend(g, ss, ts, Hit(p, b));
    BuiltIsRun(g, states, steps);
  }

  lemma PanicNext(g: Geometry, ops: nat, s: State, p: Pid)
    requires Sized(g, ops) && 1 <= ops && g.nlog <= g.logSize && Level(g, s, ops, g.nlog - 1)
    requires p < ops && UsedBy(ops, g.nlog - 1, p) < g.maxOp
    ensures Enabled(g, s, Hit(p, Blk(g, g.nlog - 1)))
    ensures AboutToPanic(g, Do(g, s, Hit(p, Blk(g, g.nlog - 1))), p, Blk(g, g.nlog - 1))
  {
  }

  /** The exact condition: quotas keep `log_write` from panicking if and only if the log has LOGSIZE slots. */
  lemma QuotaSufficesIff(g: Geometry, ops: nat)
    requires Sized(g, ops)
    ensures g.logSize < g.nlog <==>
      forall states: seq<State>, steps: seq<Step>, i: nat, p: Pid, b: nat ::
        QuotaRun(g, states, steps) && Shaped(g, states[0].img) && i < |states| ==> !AboutToPanic(g, states[i], p, b)
  {
    if g.logSize < g.nlog {
      forall states: seq<State>, steps: seq<Step>, i: nat, p: Pid, b: nat
        | QuotaRun(g, states, steps) && Shaped(g, states[0].img) && i < |states|
        ensures !AboutToPanic(g, states[i], p, b)
      {
        NoPanic(g, states, steps, i, p, b);
      }
    } else {
      var states, steps, p, b := PanicReachable(g, ops);
      assert AboutToPanic(g, states[|steps|], p, b);
    }
  }

  /** param.h and mkfs.c: LOGSIZE = nlog = NBUF = 3 * MAXOPBLOCKS, FSSIZE = 2000, 128 words a block. */
  const SHIPPED := Geometry(2000, 128, 2, 30, 30, 10, 30)

  lemma ShippedLogIsOneShort()
    ensures Sized(SHIPPED, 3) && !(SHIPPED.logSize < SHIPPED.nlog)
    ensures exists states: seq<State>, steps: seq<Step>, i: nat, p: Pid, b: nat ::
      QuotaRun(SHIPPED, states, steps) && 0 <= i < |states| && AboutToPanic(SHIPPED, states[i], p, b)
  {
    var states, steps, p, b := PanicReachable(SHIPPED, 3);
    assert AboutToPanic(SHIPPED, states[|steps|], p, b);
  }

  /**
   The panic test comes before absorption: with the log exactly full, logging a block that
   is already logged panics too, although it needs no room. A quota on distinct blocks
   would therefore not be enough, however large the log on disk.
   */
  lemma AbsorbedWritePanicsWhenFull(g: Geometry, ops: nat) returns (states: seq<State>, steps: seq<Step>, b: nat)
    requires Sized(g, ops) && g.logSize < g.nlog && 1 <= ops
    ensures QuotaRun(g, states, steps) && Shaped(g, states[0].img)
    ensures var s := states[|steps|];
      && 0 in s.ops && Idle(s, 0) && HoldsValid(s, 0, b) && g.Home(b)
      && b in s.lh && Logged(s.lh, b) == s.lh && TooBig(g, s)
  {
    var ss, ts := LogBlocks(g, ops, g.logSize);
    b := Blk(g, 0);
    MulMono(1, ops, g.maxOp);
    AbsorbNext(g, ops, ss[|ts|]);
    states, steps := Extend(g, ss, ts, Hit(0, b));
    BuiltIsRun(g, states, steps);
  }

  lemma AbsorbNext(g: Geometry, ops: nat, s: State)
    requires Sized(g, ops) && 1 <= ops && 1 <= g.logSize < g.nlog && Level(g, s, ops, g.logSize)
    ensures var b := Blk(g, 0);
      && Enabled(g, s, Hit(0, b))
      && var r := Do(g, s, Hit(0, b));
      && 0 in r.ops && Idle(r, 0) && HoldsValid(r, 0, b) && g.Home(b)
      && b in r.lh && Logged(r.lh, b) == r.lh && TooBig(g, r)
  {
    assert s.lh[0] == Blk(g, 0);
  }
}
